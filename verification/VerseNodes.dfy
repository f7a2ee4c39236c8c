/**
  The nodes that the versifier builds from a text, and the text that a node stands for.
  Text is modelled on the level of decoded characters. Every dictionary holds exactly one term.
*/
module VerseNodes {
  datatype Node =
    | Ws(text: string)
    | AlphaNum(text: string)
    | Num(text: string, hex: bool)
    | Control(ch: char)
    | Bracket(open: char, clos: char, nodes: seq<Node>)
    | KeyVal(delim: char, key: string, value: string)
    | List(delim: char, blocks: seq<Block>)
    | Line(r: bool, nodes: seq<Node>)

  datatype Block = Block(nodes: seq<Node>)

  function LineEnd(r: bool): string
  {
    if r then "\r\n" else "\n"
  }

  /** The text of a node as it was written. */
  function Text(n: Node): string
    decreases n, 0
  {
    match n
    case Ws(t) => t
    case AlphaNum(t) => t
    case Num(t, _) => t
    case Control(ch) => [ch]
    case Bracket(open, clos, nodes) => [open] + TextAll(nodes) + [clos]
    case KeyVal(delim, key, value) => key + [delim] + value
    case List(delim, blocks) => TextJoin(delim, blocks)
    case Line(r, nodes) => TextAll(nodes) + LineEnd(r)
  }

  function TextAll(nn: seq<Node>): string
    decreases nn, 0
  {
    if nn == [] then "" else Text(nn[0]) + TextAll(nn[1..])
  }

  /** The texts of the blocks with the delimiter between them. */
  function TextJoin(delim: char, blocks: seq<Block>): string
    decreases blocks, 0
  {
    if blocks == [] then ""
    else if |blocks| == 1 then TextAll(blocks[0].nodes)
    else TextAll(blocks[0].nodes) + [delim] + TextJoin(delim, blocks[1..])
  }

  lemma {:induction false} TextAppend(a: seq<Node>, b: seq<Node>)
    ensures TextAll(a + b) == TextAll(a) + TextAll(b)
  {
    if a == [] {
      assert a + b == b;
    } else {
      assert (a + b)[1..] == a[1..] + b;
      TextAppend(a[1..], b);
    }
  }

  lemma {:induction false} TextOne(n: Node)
    ensures TextAll([n]) == Text(n)
  {
    assert [n][1..] == [];
  }

  lemma {:induction false} TextThree(a: seq<Node>, b: seq<Node>, c: seq<Node>)
    ensures TextAll(a + b + c) == TextAll(a) + TextAll(b) + TextAll(c)
  {
    hide TextAll;
    TextAppend(a, b);
    TextAppend(a + b, c);
  }

  /** Replacing a stretch of nodes by one node of the same text keeps the whole text. */
  lemma {:induction false} TextSplice(nn: seq<Node>, lo: nat, hi: nat, n: Node)
    requires lo <= hi <= |nn|
    requires Text(n) == TextAll(nn[lo..hi])
    ensures TextAll(nn[..lo] + [n] + nn[hi..]) == TextAll(nn)
  {
    hide Text, TextAll;
    TextThree(nn[..lo], [n], nn[hi..]);
    TextThree(nn[..lo], nn[lo..hi], nn[hi..]);
    TextOne(n);
    assert nn == nn[..lo] + nn[lo..hi] + nn[hi..];
  }

  // ----- Tokens ------------------------------------------------------------------------

  /** The tokens that a node is made of, in order. */
  function Leaves(n: Node): seq<string>
    decreases n, 0
  {
    match n
    case Ws(t) => [t]
    case AlphaNum(t) => [t]
    case Num(t, _) => [t]
    case Control(ch) => [[ch]]
    case Bracket(open, clos, nodes) => [[open]] + LeavesAll(nodes) + [[clos]]
    case KeyVal(delim, key, value) => [key, [delim], value]
    case List(delim, blocks) => LeavesJoin(delim, blocks)
    case Line(r, nodes) => LeavesAll(nodes) + EndLeaves(r)
  }

  function EndLeaves(r: bool): seq<string>
  {
    if r then ["\r", "\n"] else ["\n"]
  }

  function LeavesAll(nn: seq<Node>): seq<string>
    decreases nn, 0
  {
    if nn == [] then [] else Leaves(nn[0]) + LeavesAll(nn[1..])
  }

  function LeavesJoin(delim: char, blocks: seq<Block>): seq<string>
    decreases blocks, 0
  {
    if blocks == [] then []
    else if |blocks| == 1 then LeavesAll(blocks[0].nodes)
    else LeavesAll(blocks[0].nodes) + [[delim]] + LeavesJoin(delim, blocks[1..])
  }

  function Concat(tokens: seq<string>): string
  {
    if tokens == [] then "" else tokens[0] + Concat(tokens[1..])
  }

  lemma {:induction false} ConcatAppend(a: seq<string>, b: seq<string>)
    ensures Concat(a + b) == Concat(a) + Concat(b)
  {
    if a == [] {
      assert a + b == b;
    } else {
      assert (a + b)[1..] == a[1..] + b;
      ConcatAppend(a[1..], b);
    }
  }

  lemma ConcatOne(t: string)
    ensures Concat([t]) == t
  {
    assert [t][1..] == [];
  }

  lemma {:induction false} ConcatEnclosed(a: string, mid: seq<string>, c: string)
    ensures Concat([a] + mid + [c]) == a + Concat(mid) + c
  {
    ConcatAppend([a] + mid, [c]);
    ConcatAppend([a], mid);
    ConcatOne(a);
    ConcatOne(c);
  }

  lemma {:induction false} ConcatEnd(mid: seq<string>, r: bool)
    ensures Concat(mid + EndLeaves(r)) == Concat(mid) + LineEnd(r)
  {
    ConcatAppend(mid, EndLeaves(r));
    ConcatOne("\n");
    assert ["\r", "\n"][1..] == ["\n"];
  }

  /** The tokens of a node spell its text. */
  lemma {:induction false} LeavesSpell(n: Node)
    ensures Concat(Leaves(n)) == Text(n)
    decreases n, 0
  {
    hide Concat;
    match n
    case Bracket(open, clos, nodes) =>
      LeavesSpellAll(nodes);
      ConcatEnclosed([open], LeavesAll(nodes), [clos]);
    case KeyVal(delim, key, value) =>
      ConcatEnclosed(key, [[delim]], value);
      ConcatOne([delim]);
      assert [key] + [[delim]] + [value] == [key, [delim], value];
    case List(delim, blocks) => LeavesSpellJoin(delim, blocks);
    case Line(r, nodes) =>
      LeavesSpellAll(nodes);
      ConcatEnd(LeavesAll(nodes), r);
    case Ws(t) => ConcatOne(t);
    case AlphaNum(t) => ConcatOne(t);
    case Num(t, _) => ConcatOne(t);
    case Control(ch) => ConcatOne([ch]);
  }

  lemma {:induction false} LeavesSpellAll(nn: seq<Node>)
    ensures Concat(LeavesAll(nn)) == TextAll(nn)
    decreases nn, 0
  {
    if nn != [] {
      LeavesSpell(nn[0]);
      LeavesSpellAll(nn[1..]);
      ConcatAppend(Leaves(nn[0]), LeavesAll(nn[1..]));
    }
  }

  lemma {:induction false} LeavesSpellJoin(delim: char, blocks: seq<Block>)
    ensures Concat(LeavesJoin(delim, blocks)) == TextJoin(delim, blocks)
    decreases blocks, 0
  {
    if blocks != [] {
      LeavesSpellAll(blocks[0].nodes);
      if |blocks| > 1 {
        LeavesSpellJoin(delim, blocks[1..]);
        ConcatAppend(LeavesAll(blocks[0].nodes) + [[delim]], LeavesJoin(delim, blocks[1..]));
        ConcatAppend(LeavesAll(blocks[0].nodes), [[delim]]);
        ConcatOne([delim]);
      }
    }
  }

  lemma {:induction false} LeavesAppend(a: seq<Node>, b: seq<Node>)
    ensures LeavesAll(a + b) == LeavesAll(a) + LeavesAll(b)
  {
    if a == [] {
      assert a + b == b;
    } else {
      assert (a + b)[1..] == a[1..] + b;
      LeavesAppend(a[1..], b);
    }
  }

  lemma {:induction false} LeavesOne(n: Node)
    ensures LeavesAll([n]) == Leaves(n)
  {
    assert [n][1..] == [];
  }

  lemma {:induction false} LeavesSimple(ch: char, r: bool, nodes: seq<Node>)
    ensures Leaves(Control(ch)) == [[ch]]
    ensures Leaves(Line(r, nodes)) == LeavesAll(nodes) + EndLeaves(r)
    ensures LeavesAll([]) == []
  {
  }

  lemma {:induction false} LeavesJoinTwo(delim: char, a: seq<Node>, b: seq<Node>)
    ensures LeavesJoin(delim, [Block(a), Block(b)]) == LeavesAll(a) + [[delim]] + LeavesAll(b)
  {
    var blocks := [Block(a), Block(b)];
    assert blocks[1..] == [Block(b)];
    assert LeavesJoin(delim, blocks[1..]) == LeavesAll(b);
  }

  lemma {:induction false} LeavesJoinMore(delim: char, a: seq<Node>, blocks: seq<Block>)
    requires blocks != []
    ensures LeavesJoin(delim, [Block(a)] + blocks) == LeavesAll(a) + [[delim]] + LeavesJoin(delim, blocks)
  {
    assert ([Block(a)] + blocks)[1..] == blocks;
  }

  lemma {:induction false} LeavesThree(a: seq<Node>, b: seq<Node>, c: seq<Node>)
    ensures LeavesAll(a + b + c) == LeavesAll(a) + LeavesAll(b) + LeavesAll(c)
  {
    hide LeavesAll;
    LeavesAppend(a, b);
    LeavesAppend(a + b, c);
  }

  /** Replacing a stretch of nodes by one node of the same tokens keeps all tokens. */
  lemma {:induction false} LeavesSplice(nn: seq<Node>, lo: nat, hi: nat, n: Node)
    requires lo <= hi <= |nn|
    requires Leaves(n) == LeavesAll(nn[lo..hi])
    ensures LeavesAll(nn[..lo] + [n] + nn[hi..]) == LeavesAll(nn)
  {
    hide Leaves, LeavesAll;
    LeavesThree(nn[..lo], [n], nn[hi..]);
    LeavesThree(nn[..lo], nn[lo..hi], nn[hi..]);
    LeavesOne(n);
    assert nn == nn[..lo] + nn[lo..hi] + nn[hi..];
  }

  lemma {:induction false} LeavesSplit(nn: seq<Node>, k: nat)
    requires k <= |nn|
    ensures LeavesAll(nn) == LeavesAll(nn[..k]) + LeavesAll(nn[k..])
  {
    LeavesAppend(nn[..k], nn[k..]);
    assert nn[..k] + nn[k..] == nn;
  }

  lemma LeavesAt(nn: seq<Node>, k: nat)
    requires k < |nn|
    ensures LeavesAll(nn[k..]) == Leaves(nn[k]) + LeavesAll(nn[k + 1..])
    ensures LeavesAll(nn[..k + 1]) == LeavesAll(nn[..k]) + Leaves(nn[k])
  {
    assert nn[k..][1..] == nn[k + 1..];
    assert nn[..k + 1] == nn[..k] + [nn[k]];
    LeavesAppend(nn[..k], [nn[k]]);
    LeavesOne(nn[k]);
  }
}
