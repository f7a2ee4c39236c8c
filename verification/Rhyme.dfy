/**
  Generating text from a verse. The random numbers are an argument: a list of draws, each of which
  must lie below the bound it is drawn for. The main theorem says that for every learned text some
  finite list of draws makes the generator write that very text.
*/
module Rhyme {
  import opened Brackets
  import opened Lines
  import opened Tokenizer
  import opened Verse
  import opened VerseNodes
  import opened Wrappers

  /** A computation on draws: it is stuck when the draws run out or a draw is not below its bound. */
  datatype Gen<+T> = Stuck | Out(value: T, rest: seq<nat>) {
    predicate IsFailure() {
      Stuck?
    }

    function PropagateFailure<U>(): Gen<U>
      requires Stuck?
    {
      Stuck
    }

    function Extract(): (T, seq<nat>)
      requires Out?
    {
      (value, rest)
    }
  }

  function Rand(draws: seq<nat>, n: nat): (r: Gen<nat>)
    ensures r.Out? ==> r.value < n && |r.rest| < |draws|
  {
    if draws == [] || draws[0] >= n then Stuck else Out(draws[0], draws[1..])
  }

  // ----- Leaves ------------------------------------------------------------------------

  /** One of the terms of a dictionary, which here has exactly one. */
  function RandTerm(t: string, draws: seq<nat>): (r: Gen<string>)
    ensures r.Out? ==> |r.rest| < |draws|
  {
    var (_, d) :- Rand(draws, 1);
    Out(t, d)
  }

  function RandBlanks(draws: seq<nat>): (r: Gen<string>)
    ensures r.Out? ==> |r.rest| < |draws|
    decreases |draws|
  {
    var (k, d) :- Rand(draws, 3);
    if k == 0 then Out("", d)
    else
      var (t, d) :- RandBlanks(d);
      Out([if k == 1 then ' ' else '\t'] + t, d)
  }

  /** A length: one of three ranges is chosen first. */
  function RandLen(draws: seq<nat>, small: nat, medium: nat, large: nat): (r: Gen<nat>)
    ensures r.Out? ==> |r.rest| < |draws|
  {
    var (k, d) :- Rand(draws, 3);
    Rand(d, if k == 0 then small else if k == 1 then medium else large)
  }

  function Plus(base: char, k: nat): char
    requires base as int + k < 128
  {
    (base as int + k) as char
  }

  /** A base character, moved up by a draw. */
  function RandFrom(base: char, n: nat, draws: seq<nat>): (r: Gen<char>)
    requires base as int + n <= 128
    ensures r.Out? ==> |r.rest| < |draws|
  {
    var (x, d) :- Rand(draws, n);
    Out(Plus(base, x), d)
  }

  function RandWordChar(draws: seq<nat>): (r: Gen<char>)
    ensures r.Out? ==> |r.rest| < |draws|
  {
    var (k, d) :- Rand(draws, 4);
    if k == 0 then Out('_', d)
    else if k == 1 then RandFrom('0', 10, d)
    else if k == 2 then RandFrom('a', 26, d)
    else RandFrom('A', 26, d)
  }

  function RandDigit(base: nat, draws: seq<nat>): (r: Gen<char>)
    ensures r.Out? ==> |r.rest| < |draws|
  {
    if base == 8 then RandFrom('0', 8, draws)
    else if base == 10 then RandFrom('0', 10, draws)
    else
      var (k, d) :- Rand(draws, 3);
      if k == 0 then RandFrom('0', 10, d) else if k == 1 then RandFrom('a', 6, d) else RandFrom('A', 6, d)
  }

  function RandAlpha(len: nat, draws: seq<nat>): (r: Gen<string>)
    ensures r.Out? ==> |r.rest| <= |draws|
  {
    if len == 0 then Out("", draws)
    else
      var (c, d) :- RandWordChar(draws);
      var (t, d) :- RandAlpha(len - 1, d);
      Out([c] + t, d)
  }

  function RandDigits(base: nat, len: nat, draws: seq<nat>): (r: Gen<string>)
    ensures r.Out? ==> |r.rest| <= |draws|
    decreases len
  {
    if len == 0 then Out("", draws)
    else
      var (c, d) :- RandDigit(base, draws);
      var (t, d) :- RandDigits(base, len - 1, d);
      Out([c] + t, d)
  }

  function RandNum(draws: seq<nat>): (r: Gen<string>)
    ensures r.Out? ==> |r.rest| < |draws|
  {
    var (b, d) :- Rand(draws, 3);
    var base := if b == 0 then 8 else if b == 1 then 10 else 16;
    var (len, d) :- RandLen(d, 4, 16, 40);
    var (num, d) :- RandDigits(base, len + 1, d);
    var num := (if base == 8 then "0" else if base == 16 then "0x" else "") + num;
    var (sign, d) :- Rand(d, 2);
    Out(if sign == 0 then "-" + num else num, d)
  }

  function RandControl(draws: seq<nat>): (r: Gen<string>)
    ensures r.Out? ==> |r.rest| < |draws|
    decreases |draws|
  {
    var (b, d) :- Rand(draws, 128);
    var c := b as char;
    if '0' <= c <= '9' || 'a' <= c <= 'z' || 'A' <= c <= 'Z' then RandControl(d) else Out([c], d)
  }

  function GenAlphaNum(t: string, draws: seq<nat>): (r: Gen<string>)
    ensures r.Out? ==> |r.rest| < |draws|
  {
    var (k, d) :- Rand(draws, 5);
    if k != 0 then RandTerm(t, d)
    else
      var (len, d) :- RandLen(d, 4, 20, 100);
      RandAlpha(len, d)
  }

  function GenNum(t: string, draws: seq<nat>): (r: Gen<string>)
    ensures r.Out? ==> |r.rest| < |draws|
  {
    var (k, d) :- Rand(draws, 2);
    if k == 0 then RandTerm(t, d)
    else
      var (form, d) :- Rand(d, 3);
      var (a, d) :- RandNum(d);
      if form == 0 then Out(a, d)
      else
        var (b, d) :- RandNum(d);
        Out(a + (if form == 1 then "." else "e") + b, d)
  }

  const OPENERS: seq<char> := ['<', '[', '(', '{', '\'', '\"', '`']
  const CLOSERS: seq<char> := ['>', ']', ')', '}', '\'', '\"', '`']

  // ----- Random edits of a block -------------------------------------------------------

  /**
    copy(nodes[:i], nodes[i+1:]), and the last node is cut off. As the target of the copy ends before
    i, this is not the removal of node i.
  */
  function CopyDown(nodes: seq<Node>, i: nat): (r: seq<Node>)
    requires i < |nodes|
    ensures |r| == |nodes| - 1
  {
    var m := if i < |nodes| - i - 1 then i else |nodes| - i - 1;
    nodes[i + 1..i + 1 + m] + nodes[m..|nodes| - 1]
  }

  /** Of different nodes, exactly the last one is removed when it is picked; otherwise something else happens. */
  lemma DropIsRemoval(nodes: seq<Node>, i: nat)
    requires i < |nodes| && forall j, k | 0 <= j < k < |nodes| :: nodes[j] != nodes[k]
    ensures CopyDown(nodes, i) == nodes[..i] + nodes[i + 1..] <==> i == |nodes| - 1
  {
    var r, w := CopyDown(nodes, i), nodes[..i] + nodes[i + 1..];
    if i < |nodes| - 1 {
      assert w[0] == if i == 0 then nodes[1] else nodes[0];
      assert r[0] == if i == 0 then nodes[0] else nodes[i + 1];
    }
  }

  function DropNodes(nodes: seq<Node>, draws: seq<nat>): (r: Gen<seq<Node>>)
    ensures r.Out? ==> |r.rest| <= |draws|
    decreases |draws|
  {
    if nodes == [] then Out(nodes, draws)
    else
      var (k, d) :- Rand(draws, 2);
      if k != 0 then Out(nodes, d)
      else
        var (i, d) :- Rand(d, |nodes|);
        DropNodes(CopyDown(nodes, i), d)
  }

  function RepeatNodes(nodes: seq<Node>, draws: seq<nat>): (r: Gen<seq<Node>>)
    ensures r.Out? ==> |r.rest| <= |draws|
    decreases |draws|
  {
    if nodes == [] then Out(nodes, draws)
    else
      var (k, d) :- Rand(draws, 2);
      if k != 0 then Out(nodes, d)
      else
        var (i, d) :- Rand(d, |nodes|);
        RepeatNodes(nodes[..i + 1] + nodes[i..], d)
  }

  function SwapNodes(nodes: seq<Node>, draws: seq<nat>): (r: Gen<seq<Node>>)
    ensures r.Out? ==> |r.rest| <= |draws|
    decreases |draws|
  {
    if nodes == [] then Out(nodes, draws)
    else
      var (k, d) :- Rand(draws, 2);
      if k != 0 then Out(nodes, d)
      else
        var (i, d) :- Rand(d, |nodes|);
        var (j, d) :- Rand(d, |nodes|);
        SwapNodes(nodes[i := nodes[j]][j := nodes[i]], d)
  }

  function PickBlocks(blocks: seq<Block>, draws: seq<nat>): (r: Gen<seq<Block>>)
    ensures r.Out? ==> |r.rest| <= |draws|
    decreases |draws|
  {
    var (k, d) :- Rand(draws, 3);
    if k == 0 then Out([], d)
    else
      var (i, d) :- Rand(d, |blocks|);
      var (more, d) :- PickBlocks(blocks, d);
      Out([blocks[i]] + more, d)
  }

  // ----- Nodes and blocks --------------------------------------------------------------

  function GenNode(all: seq<Item>, n: Node, draws: seq<nat>): (r: Gen<string>)
    ensures r.Out? ==> |r.rest| <= |draws|
    decreases |draws|, 1, 0
  {
    match n
    case Ws(t) =>
      var (k, d) :- Rand(draws, 5);
      if k != 0 then RandTerm(t, d) else RandBlanks(d)
    case AlphaNum(t) => GenAlphaNum(t, draws)
    case Num(t, _) => GenNum(t, draws)
    case Control(ch) =>
      var (k, d) :- Rand(draws, 10);
      if k != 0 then Out([ch], d) else RandControl(d)
    case Bracket(open, clos, nodes) =>
      var (k, d) :- Rand(draws, 10);
      if k != 0 then
        var (t, d) :- GenBlock(all, nodes, d);
        Out([open] + t + [clos], d)
      else
        var (o, d) :- Rand(d, 7);
        var (other, d) :- Rand(d, 5);
        var (c, d) :- if other == 0 then Rand(d, 7) else Out(o, d);
        var (t, d) :- GenBlock(all, nodes, d);
        Out([OPENERS[o]] + t + [CLOSERS[c]], d)
    case KeyVal(_, key, value) =>
      // The delimiter of the node is overwritten before it is used.
      var (k, d) :- Rand(draws, 2);
      var (a, d) :- GenAlphaNum(key, d);
      var (b, d) :- GenAlphaNum(value, d);
      Out(a + [if k == 0 then '=' else ':'] + b, d)
    case List(delim, blocks) =>
      var (k, d) :- Rand(draws, 5);
      var (chosen, d) :- if k == 0 then PickBlocks(blocks, d) else Out(blocks, d);
      GenJoin(all, delim, chosen, d)
    case Line(r, nodes) =>
      var (t, d) :- GenBlock(all, nodes, draws);
      Out(t + LineEnd(r), d)
  }

  function GenJoin(all: seq<Item>, delim: char, blocks: seq<Block>, draws: seq<nat>): (r: Gen<string>)
    ensures r.Out? ==> |r.rest| <= |draws|
    decreases |draws|, 2, |blocks|
  {
    if blocks == [] then Out("", draws)
    else
      var (t, d) :- GenBlock(all, blocks[0].nodes, draws);
      if |blocks| == 1 then Out(t, d)
      else
        var (more, d) :- GenJoin(all, delim, blocks[1..], d);
        Out(t + [delim] + more, d)
  }

  function GenBlock(all: seq<Item>, nodes: seq<Node>, draws: seq<nat>): (r: Gen<string>)
    ensures r.Out? ==> |r.rest| <= |draws|
    decreases |draws|, 0, 0
  {
    var (k, d) :- Rand(draws, 10);
    var (nodes, d) :- if k == 0 then DropNodes(nodes, d) else Out(nodes, d);
    var (k, d) :- Rand(d, 10);
    var (nodes, d) :- if k == 0 then RepeatNodes(nodes, d) else Out(nodes, d);
    var (k, d) :- Rand(d, 10);
    var (nodes, d) :- if k == 0 then SwapNodes(nodes, d) else Out(nodes, d);
    GenNodes(all, nodes, d)
  }

  function GenNodes(all: seq<Item>, nodes: seq<Node>, draws: seq<nat>): (r: Gen<string>)
    ensures r.Out? ==> |r.rest| <= |draws|
    decreases |draws|, 0, 1
  {
    if nodes == [] then Out("", draws)
    else
      var (skip, d) :- Rand(draws, 20);
      if skip == 0 then GenNodes(all, nodes[1..], d)
      else
        var (other, d) :- Rand(d, 20);
        var (t, d) :- if other == 0 then GenAny(all, d) else GenNode(all, nodes[0], d);
        var (more, d) :- GenNodes(all, nodes[1..], d);
        Out(t + more, d)
  }

  /** A random node of the verse, or a random block. */
  function GenAny(all: seq<Item>, draws: seq<nat>): (r: Gen<string>)
    ensures r.Out? ==> |r.rest| <= |draws|
    decreases |draws|, 3, 0
  {
    var (i, d) :- Rand(draws, |all|);
    match all[i]
    case NodeItem(n) => GenNode(all, n, d)
    case BlockItem(b) => GenBlock(all, b.nodes, d)
  }

  /** Rhyme: a random block of the verse. */
  function GenVerse(v: Verse, draws: seq<nat>): Gen<string>
  {
    var (k, d) :- Rand(draws, |v.blocks|);
    GenBlock(v.allNodes, v.blocks[k].nodes, d)
  }

  // ----- The draws that reproduce a text -----------------------------------------------

  function NodeDraws(n: Node): seq<nat>
    decreases n, 0
  {
    match n
    case Ws(_) => [1, 0]
    case AlphaNum(_) => [1, 0]
    case Num(_, _) => [0, 0]
    case Control(_) => [1]
    case Bracket(_, _, nodes) => [1] + BlockDraws(nodes)
    case KeyVal(delim, _, _) => [if delim == '=' then 0 else 1] + [1, 0] + [1, 0]
    case List(_, blocks) => [1] + JoinDraws(blocks)
    case Line(_, nodes) => BlockDraws(nodes)
  }

  function BlockDraws(nodes: seq<Node>): seq<nat>
    decreases nodes, 1
  {
    [1, 1, 1] + NodesDraws(nodes)
  }

  function NodesDraws(nodes: seq<Node>): seq<nat>
    decreases nodes, 0
  {
    if nodes == [] then [] else [1, 1] + NodeDraws(nodes[0]) + NodesDraws(nodes[1..])
  }

  function JoinDraws(blocks: seq<Block>): seq<nat>
    decreases blocks, 0
  {
    if blocks == [] then [] else BlockDraws(blocks[0].nodes) + JoinDraws(blocks[1..])
  }

  /** What a node needs for this: a delimiter that the generator can write. */
  predicate Speakable(n: Node)
    decreases n, 0
  {
    match n
    case Bracket(_, _, nodes) => SpeakableAll(nodes)
    case KeyVal(delim, _, _) => delim == '=' || delim == ':'
    case List(_, blocks) => SpeakableBlocks(blocks)
    case Line(_, nodes) => SpeakableAll(nodes)
    case _ => true
  }

  predicate SpeakableAll(nodes: seq<Node>)
    decreases nodes, 0
  {
    nodes != [] ==> Speakable(nodes[0]) && SpeakableAll(nodes[1..])
  }

  predicate SpeakableBlocks(blocks: seq<Block>)
    decreases blocks, 0
  {
    blocks != [] ==> SpeakableAll(blocks[0].nodes) && SpeakableBlocks(blocks[1..])
  }

  lemma {:induction false} SaneSpeakable(nodes: seq<Node>)
    requires SaneAll(nodes)
    ensures SpeakableAll(nodes)
    decreases nodes, 0
  {
    if nodes != [] {
      SaneSpeakableNode(nodes[0]);
      SaneSpeakable(nodes[1..]);
    }
  }

  lemma {:induction false} SaneSpeakableNode(n: Node)
    requires Sane(n)
    ensures Speakable(n)
    decreases n, 0
  {
    match n
    case Bracket(_, _, nodes) => SaneSpeakable(nodes);
    case List(_, blocks) => SaneSpeakableBlocks(blocks);
    case _ =>
  }

  lemma {:induction false} SaneSpeakableBlocks(blocks: seq<Block>)
    requires forall k | 0 <= k < |blocks| :: SaneAll(blocks[k].nodes)
    ensures SpeakableBlocks(blocks)
    decreases blocks, 0
  {
    if blocks != [] {
      SaneSpeakable(blocks[0].nodes);
      SaneSpeakableBlocks(blocks[1..]);
    }
  }

  lemma {:induction false} WholeSpeakable(nodes: seq<Node>)
    requires WholeAll(nodes)
    ensures SpeakableAll(nodes)
    decreases nodes, 0
  {
    if nodes != [] {
      assert Whole(nodes[0]);
      match nodes[0] {
        case Bracket(_, _, inner) => WholeSpeakable(inner);
        case Line(_, inner) => WholeSpeakable(inner);
        case _ => SaneSpeakableNode(nodes[0]);
      }
      WholeSpeakable(nodes[1..]);
    }
  }

  lemma Draw1(k: nat, tail: seq<nat>, n: nat)
    requires k < n
    ensures Rand([k] + tail, n) == Out(k, tail)
  {
    assert ([k] + tail)[1..] == tail;
  }

  lemma TermDraws(t: string, tail: seq<nat>)
    ensures GenAlphaNum(t, [1, 0] + tail) == Out(t, tail)
    ensures GenNum(t, [0, 0] + tail) == Out(t, tail)
  {
    assert [1, 0] + tail == [1] + ([0] + tail);
    assert [0, 0] + tail == [0] + ([0] + tail);
    Draw1(1, [0] + tail, 5);
    Draw1(0, [0] + tail, 2);
    Draw1(0, tail, 1);
  }

  lemma {:induction false} NodeReproduced(all: seq<Item>, n: Node, tail: seq<nat>)
    requires Speakable(n)
    ensures GenNode(all, n, NodeDraws(n) + tail) == Out(Text(n), tail)
    decreases n, 0
  {
    match n
    case Ws(t) =>
      assert [1, 0] + tail == [1] + ([0] + tail);
      Draw1(1, [0] + tail, 5);
      Draw1(0, tail, 1);
    case AlphaNum(t) => TermDraws(t, tail);
    case Num(t, _) => TermDraws(t, tail);
    case Control(_) => Draw1(1, tail, 10);
    case Bracket(_, _, nodes) =>
      assert NodeDraws(n) + tail == [1] + (BlockDraws(nodes) + tail);
      Draw1(1, BlockDraws(nodes) + tail, 10);
      BlockReproduced(all, nodes, tail);
    case KeyVal(_, _, _) => PairReproduced(all, n, tail);
    case List(delim, blocks) =>
      assert NodeDraws(n) + tail == [1] + (JoinDraws(blocks) + tail);
      Draw1(1, JoinDraws(blocks) + tail, 5);
      JoinReproduced(all, delim, blocks, tail);
    case Line(_, nodes) => BlockReproduced(all, nodes, tail);
  }

  lemma {:induction false} PairReproduced(all: seq<Item>, n: Node, tail: seq<nat>)
    requires n.KeyVal? && Speakable(n)
    ensures GenNode(all, n, NodeDraws(n) + tail) == Out(Text(n), tail)
  {
    var k := if n.delim == '=' then 0 else 1;
    assert NodeDraws(n) + tail == [k] + ([1, 0] + ([1, 0] + tail));
    Draw1(k, [1, 0] + ([1, 0] + tail), 2);
    TermDraws(n.key, [1, 0] + tail);
    TermDraws(n.value, tail);
  }

  /** Three draws of 1 leave the nodes of a block as they are. */
  lemma {:induction false} PlainBlock(all: seq<Item>, nodes: seq<Node>, draws: seq<nat>)
    ensures GenBlock(all, nodes, [1, 1, 1] + draws) == GenNodes(all, nodes, draws)
  {
    assert [1, 1, 1] + draws == [1] + ([1] + ([1] + draws));
    Draw1(1, [1] + ([1] + draws), 10);
    Draw1(1, [1] + draws, 10);
    Draw1(1, draws, 10);
  }

  lemma {:induction false} BlockReproduced(all: seq<Item>, nodes: seq<Node>, tail: seq<nat>)
    requires SpeakableAll(nodes)
    ensures GenBlock(all, nodes, BlockDraws(nodes) + tail) == Out(TextAll(nodes), tail)
    decreases nodes, 1
  {
    assert BlockDraws(nodes) + tail == [1, 1, 1] + (NodesDraws(nodes) + tail);
    PlainBlock(all, nodes, NodesDraws(nodes) + tail);
    NodesReproduced(all, nodes, tail);
  }

  /** Two draws of 1 generate the first node itself. */
  lemma {:induction false} PlainNode(all: seq<Item>, nodes: seq<Node>, draws: seq<nat>, t: string, d: seq<nat>)
    requires nodes != [] && GenNode(all, nodes[0], draws) == Out(t, d)
    ensures var more := GenNodes(all, nodes[1..], d);
            more.Out? ==> GenNodes(all, nodes, [1, 1] + draws) == Out(t + more.value, more.rest)
  {
    assert [1, 1] + draws == [1] + ([1] + draws);
    Draw1(1, [1] + draws, 20);
    Draw1(1, draws, 20);
  }

  lemma {:induction false} NodesReproduced(all: seq<Item>, nodes: seq<Node>, tail: seq<nat>)
    requires SpeakableAll(nodes)
    ensures GenNodes(all, nodes, NodesDraws(nodes) + tail) == Out(TextAll(nodes), tail)
    decreases nodes, 0
  {
    if nodes == [] {
      assert [] + tail == tail;
    } else {
      var rest := NodesDraws(nodes[1..]) + tail;
      assert NodesDraws(nodes) + tail == [1, 1] + (NodeDraws(nodes[0]) + rest);
      NodeReproduced(all, nodes[0], rest);
      NodesReproduced(all, nodes[1..], tail);
      PlainNode(all, nodes, NodeDraws(nodes[0]) + rest, Text(nodes[0]), rest);
    }
  }

  lemma {:induction false} JoinReproduced(all: seq<Item>, delim: char, blocks: seq<Block>, tail: seq<nat>)
    requires SpeakableBlocks(blocks)
    ensures GenJoin(all, delim, blocks, JoinDraws(blocks) + tail) == Out(TextJoin(delim, blocks), tail)
    decreases blocks, 0
  {
    if blocks == [] {
      assert [] + tail == tail;
    } else {
      var rest := JoinDraws(blocks[1..]) + tail;
      assert JoinDraws(blocks) + tail == BlockDraws(blocks[0].nodes) + rest;
      BlockReproduced(all, blocks[0].nodes, rest);
      if |blocks| == 1 {
        assert JoinDraws(blocks[1..]) == [] && rest == tail;
      } else {
        JoinReproduced(all, delim, blocks[1..], tail);
      }
    }
  }

  /**
    The generator can write what it was trained on: after learning a texty input, some finite list
    of draws makes Rhyme write that input, without its trailing blanks, using up all the draws.
  */
  lemma {:induction false} InputReproduced(oldv: Option<Verse>, v: Verse, data: string)
    requires Learned(oldv, v, data)
    ensures exists draws :: GenVerse(v, draws) == Out(StripBlanks(data), [])
  {
    var k := |v.blocks| - 1;
    var nodes := v.blocks[k].nodes;
    WholeSpeakable(nodes);
    BlockReproduced(v.allNodes, nodes, []);
    Draw1(k, BlockDraws(nodes) + [], |v.blocks|);
    assert GenVerse(v, [k] + (BlockDraws(nodes) + [])) == Out(TextAll(nodes), []);
  }
}
