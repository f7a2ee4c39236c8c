/** The second structuring pass: matches brackets and quotes and nests what is between them. */
module Brackets {
  import opened Numbers
  import opened VerseNodes
  import opened Wrappers

  function CloserOf(ch: char): Option<char>
  {
    match ch
    case '<' => Some('>')
    case '[' => Some(']')
    case '(' => Some(')')
    case '{' => Some('}')
    case '\'' => Some('\'')
    case '\"' => Some('\"')
    case '`' => Some('`')
    case _ => None
  }

  /** The pairs: an opener has one closer, and no opener is another's closer except a quote its own. */
  lemma PairTable(a: char, b: char)
    ensures CloserOf(a) == Some(b) <==> exists k | 0 <= k < 7 :: "<[({'\"`"[k] == a && ">])}'\"`"[k] == b
  {
    var openers, closers := "<[({'\"`", ">])}'\"`";
    if CloserOf(a) == Some(b) {
      var k :=
        match a case '<' => 0 case '[' => 1 case '(' => 2 case '{' => 3 case '\'' => 4 case '\"' => 5 case _ => 6;
      assert openers[k] == a && closers[k] == b;
    }
  }

  /** The second node closes the first. */
  predicate Closes(a: Node, b: Node)
  {
    a.Control? && b.Control? && CloserOf(a.ch) == Some(b.ch)
  }

  /** No node of this level is followed on the same level by one that closes it. */
  predicate NoMatch(nn: seq<Node>)
  {
    forall p, q | 0 <= p < q < |nn| :: !Closes(nn[p], nn[q])
  }

  /** At every level: no matchable pair, brackets from the table, and no bracket directly contains its own closer. */
  predicate Matched(nn: seq<Node>)
    decreases nn, 1
  {
    NoMatch(nn) && forall i | 0 <= i < |nn| :: MatchedNode(nn[i])
  }

  predicate MatchedNode(n: Node)
    decreases n, 0
  {
    match n
    case Bracket(open, clos, nodes) =>
      CloserOf(open) == Some(clos) && Control(clos) !in nodes && Matched(nodes)
    case Ws(_) => true
    case AlphaNum(_) => true
    case Num(_, _) => true
    case Control(_) => true
    case _ => false
  }

  // ----- Which tokens match ------------------------------------------------------------

  /** The last token before k that the one at i closes. */
  function LastOpen(nn: seq<Node>, i: nat, k: nat): (r: Option<nat>)
    requires k <= i < |nn|
    ensures r.Some? ==> r.value < k && Closes(nn[r.value], nn[i]) && forall q | r.value < q < k :: !Closes(nn[q], nn[i])
    ensures r.None? ==> forall q | 0 <= q < k :: !Closes(nn[q], nn[i])
  {
    if k == 0 then None else if Closes(nn[k - 1], nn[i]) then Some(k - 1) else LastOpen(nn, i, k - 1)
  }

  /** From left to right, each token closes the last one on its level that it can close. */
  function BracketsFrom(nn: seq<Node>, i: nat): seq<Node>
    requires i <= |nn|
    decreases |nn| - i
  {
    if i == |nn| then nn
    else
      match LastOpen(nn, i, i)
      case Some(p) => BracketsFrom(Enclosed(nn, p, i), p + 1)
      case None => BracketsFrom(nn, i + 1)
  }

  /** What is between p and i moves into a bracket. */
  function Enclosed(nn: seq<Node>, p: nat, i: nat): seq<Node>
    requires p < i < |nn| && Closes(nn[p], nn[i])
  {
    nn[..p] + [Bracket(nn[p].ch, nn[i].ch, nn[p + 1..i])] + nn[i + 1..]
  }

  /** What the innermost open token on the stack with this closer is. */
  lemma StackTop(nn: seq<Node>, i: nat, stk: seq<Brk>, si: int)
    requires i < |nn| && StackOk(nn, i, stk) && nn[i].Control? && -1 <= si < |stk|
    requires forall k | si < k < |stk| :: stk[k].clos != nn[i].ch
    requires si >= 0 ==> stk[si].clos == nn[i].ch
    ensures if si >= 0 then
              var pos := stk[si].pos;
              && pos < i
              && var b := Bracket(stk[si].open, stk[si].clos, nn[pos + 1..i]);
                 BracketsFrom(nn, i) == BracketsFrom(nn[..pos] + [b] + nn[i + 1..], pos + 1)
            else BracketsFrom(nn, i) == BracketsFrom(nn, i + 1)
  {
    Topmost(nn, i, stk, si);
    hide LastOpen;
  }

  lemma {:induction false} Topmost(nn: seq<Node>, i: nat, stk: seq<Brk>, si: int)
    requires i < |nn| && StackOk(nn, i, stk) && nn[i].Control? && -1 <= si < |stk|
    requires forall k | si < k < |stk| :: stk[k].clos != nn[i].ch
    requires si >= 0 ==> stk[si].clos == nn[i].ch
    ensures LastOpen(nn, i, i) == if si >= 0 then Some(stk[si].pos) else None
  {
    hide StackOk, Closes, CloserOf;
    forall q | 0 <= q < i && Closes(nn[q], nn[i]) ensures si >= 0 && q <= stk[si].pos {
      CloserOnStack(nn, i, stk, si, q);
    }
    if si >= 0 {
      TopCloses(nn, i, stk, si);
    }
  }

  lemma CloserOnStack(nn: seq<Node>, i: nat, stk: seq<Brk>, si: int, q: nat)
    requires q < i < |nn| && StackOk(nn, i, stk) && Closes(nn[q], nn[i]) && -1 <= si < |stk|
    requires forall k | si < k < |stk| :: stk[k].clos != nn[i].ch
    ensures si >= 0 && q <= stk[si].pos
  {
    var k := OpenOnStack(nn, i, stk, q);
    assert stk[k].clos == nn[i].ch;
  }

  lemma TopCloses(nn: seq<Node>, i: nat, stk: seq<Brk>, si: nat)
    requires i < |nn| && si < |stk| && StackOk(nn, i, stk) && nn[i] == Control(stk[si].clos)
    ensures stk[si].pos < i && Closes(nn[stk[si].pos], nn[i]) && nn[stk[si].pos] == Control(stk[si].open)
  {
  }

  lemma NoneOpen(nn: seq<Node>, i: nat)
    requires i < |nn| && !nn[i].Control?
    ensures BracketsFrom(nn, i) == BracketsFrom(nn, i + 1)
  {
  }

  lemma FirstStep(nn: seq<Node>)
    ensures StackOk(nn, 0, []) && NoMatchBefore(nn, 0)
  {
  }

  lemma {:induction false} AllDone(nn: seq<Node>)
    ensures BracketsFrom(nn, |nn|) == nn
  {
  }

  datatype Brk = Brk(open: char, clos: char, pos: nat)

  /** The stack holds exactly the open tokens before i that are still on this level, in order of position. */
  predicate StackOk(nn: seq<Node>, i: nat, stk: seq<Brk>)
    requires i <= |nn|
  {
    && (forall k | 0 <= k < |stk| ::
      stk[k].pos < i && nn[stk[k].pos] == Control(stk[k].open) && CloserOf(stk[k].open) == Some(stk[k].clos))
    && (forall k, m | 0 <= k < m < |stk| :: stk[k].pos < stk[m].pos)
    && (forall p | 0 <= p < i && nn[p].Control? && CloserOf(nn[p].ch).Some? :: OnStack(stk, p))
  }

  predicate OnStack(stk: seq<Brk>, p: nat)
  {
    exists k | 0 <= k < |stk| :: stk[k].pos == p
  }

  predicate NoMatchBefore(nn: seq<Node>, i: nat)
    requires i <= |nn|
  {
    forall p, q | 0 <= p < q < i :: !Closes(nn[p], nn[q])
  }

  lemma BracketLeaves(nn: seq<Node>, pos: nat, i: nat, open: char, clos: char)
    requires pos < i < |nn| && nn[pos] == Control(open) && nn[i] == Control(clos)
    ensures Leaves(Bracket(open, clos, nn[pos + 1..i])) == LeavesAll(nn[pos..i + 1])
  {
    var inner := nn[pos + 1..i];
    assert nn[pos..i + 1] == [nn[pos]] + inner + [nn[i]];
    LeavesAppend([nn[pos]], inner);
    LeavesAppend([nn[pos]] + inner, [nn[i]]);
    LeavesOne(nn[pos]);
    LeavesOne(nn[i]);
  }

  /** Closing the bracket si at i: what is between moves into the new node, which is matched at every level. */
  lemma CloseBracket(nn: seq<Node>, i: nat, stk: seq<Brk>, si: nat)
    requires i < |nn| && si < |stk| && StackOk(nn, i, stk) && NoMatchBefore(nn, i)
    requires nn[i] == Control(stk[si].clos)
    requires forall k | 0 <= k < |nn| :: MatchedNode(nn[k])
    ensures var pos := stk[si].pos;
            var b := Bracket(stk[si].open, stk[si].clos, nn[pos + 1..i]);
            var nn' := nn[..pos] + [b] + nn[i + 1..];
            && LeavesAll(nn') == LeavesAll(nn)
            && StackOk(nn', pos + 1, stk[..si]) && NoMatchBefore(nn', pos + 1)
            && forall k | 0 <= k < |nn'| :: MatchedNode(nn'[k])
  {
    var pos, open, clos := stk[si].pos, stk[si].open, stk[si].clos;
    var b := Bracket(open, clos, nn[pos + 1..i]);
    BracketLeaves(nn, pos, i, open, clos);
    LeavesSplice(nn, pos, i + 1, b);
    hide Leaves, LeavesAll, MatchedNode, Matched;
    ClosedIsMatched(nn, i, stk, si);
    StackAfterClose(nn, i, stk, si, b);
    var nn' := nn[..pos] + [b] + nn[i + 1..];
    forall k | 0 <= k < |nn'| ensures MatchedNode(nn'[k]) {
      assert nn'[k] == if k < pos then nn[k] else if k == pos then b else nn[k + i - pos];
    }
  }

  lemma ClosedIsMatched(nn: seq<Node>, i: nat, stk: seq<Brk>, si: nat)
    requires i < |nn| && si < |stk| && StackOk(nn, i, stk) && NoMatchBefore(nn, i)
    requires forall k | 0 <= k < |nn| :: MatchedNode(nn[k])
    ensures MatchedNode(Bracket(stk[si].open, stk[si].clos, nn[stk[si].pos + 1..i]))
  {
    hide MatchedNode;
    var pos := stk[si].pos;
    var inner := nn[pos + 1..i];
    forall k | 0 <= k < |inner| ensures inner[k] != Control(stk[si].clos) && MatchedNode(inner[k]) {
      assert inner[k] == nn[pos + 1 + k] && !Closes(nn[pos], nn[pos + 1 + k]);
    }
    assert NoMatch(inner) by {
      assert forall k | 0 <= k < |inner| :: inner[k] == nn[pos + 1 + k];
    }
    BracketMatched(stk[si].open, stk[si].clos, inner);
  }

  lemma BracketMatched(open: char, clos: char, inner: seq<Node>)
    requires CloserOf(open) == Some(clos) && NoMatch(inner)
    requires forall k | 0 <= k < |inner| :: inner[k] != Control(clos) && MatchedNode(inner[k])
    ensures MatchedNode(Bracket(open, clos, inner))
  {
  }

  lemma StackAfterClose(nn: seq<Node>, i: nat, stk: seq<Brk>, si: nat, b: Node)
    requires i < |nn| && si < |stk| && StackOk(nn, i, stk) && NoMatchBefore(nn, i) && b.Bracket?
    ensures var pos := stk[si].pos;
            var nn' := nn[..pos] + [b] + nn[i + 1..];
            StackOk(nn', pos + 1, stk[..si]) && NoMatchBefore(nn', pos + 1)
  {
    var pos := stk[si].pos;
    var nn' := nn[..pos] + [b] + nn[i + 1..];
    assert forall p | 0 <= p < pos :: nn'[p] == nn[p];
    forall p | 0 <= p < pos + 1 && nn'[p].Control? && CloserOf(nn'[p].ch).Some? ensures OnStack(stk[..si], p) {
      var k := OpenOnStack(nn, i, stk, p);
      assert k < si;
      assert stk[..si][k].pos == p;
    }
  }

  /**
    One pass over the list with a stack of open tokens. A control token closes the innermost open
    token it can close; open tokens above that one stay unmatched inside the new bracket.
  */
  method StructureBrackets(flat: seq<Node>) returns (nn: seq<Node>)
    requires Flat(flat)
    ensures LeavesAll(nn) == LeavesAll(flat)
    ensures Matched(nn) && nn == BracketsFrom(flat, 0)
  {
    hide Leaves, LeavesAll, Matched, LastOpen, BracketsFrom, Enclosed, NoMatchBefore, CloserOf;
    nn := flat;
    var stk: seq<Brk> := [];
    var i := 0;
    FirstStep(nn);
    while i < |nn|
      invariant 0 <= i <= |nn|
      invariant LeavesAll(nn) == LeavesAll(flat) && BracketsFrom(nn, i) == BracketsFrom(flat, 0)
      invariant StackOk(nn, i, stk) && NoMatchBefore(nn, i)
      invariant forall k | 0 <= k < |nn| :: MatchedNode(nn[k])
      decreases |nn| - i
    {
      if nn[i].Control? {
        var ch := nn[i].ch;
        var si := |stk| - 1;
        while si >= 0 && ch != stk[si].clos
          invariant -1 <= si < |stk|
          invariant forall k | si < k < |stk| :: stk[k].clos != ch
        {
          si := si - 1;
        }
        StackTop(nn, i, stk, si);
        if si >= 0 {
          CloseBracket(nn, i, stk, si);
          var pos := stk[si].pos;
          var b := Bracket(stk[si].open, stk[si].clos, nn[pos + 1..i]);
          nn := nn[..pos] + [b] + nn[i + 1..];
          i := pos;
          stk := stk[..si];
        } else {
          NotClosing(nn, i, stk);
          if CloserOf(ch).Some? {
            PushOpen(nn, i, stk, ch);
            stk := stk + [Brk(ch, CloserOf(ch).value, i)];
          }
        }
      } else {
        NotClosing(nn, i, stk);
        NoneOpen(nn, i);
      }
      i := i + 1;
    }
    AllMatched(nn);
    AllDone(nn);
  }

  lemma {:induction false} AllMatched(nn: seq<Node>)
    requires NoMatchBefore(nn, |nn|) && forall k | 0 <= k < |nn| :: MatchedNode(nn[k])
    ensures Matched(nn)
  {
  }

  lemma NotClosing(nn: seq<Node>, i: nat, stk: seq<Brk>)
    requires i < |nn| && StackOk(nn, i, stk) && NoMatchBefore(nn, i)
    requires nn[i].Control? ==> forall k | 0 <= k < |stk| :: stk[k].clos != nn[i].ch
    ensures NoMatchBefore(nn, i + 1)
    ensures !(nn[i].Control? && CloserOf(nn[i].ch).Some?) ==> StackOk(nn, i + 1, stk)
  {
    forall p | 0 <= p < i ensures !Closes(nn[p], nn[i]) {
      if nn[p].Control? && CloserOf(nn[p].ch).Some? {
        var k := OpenOnStack(nn, i, stk, p);
      }
    }
  }

  lemma OpenOnStack(nn: seq<Node>, i: nat, stk: seq<Brk>, p: nat) returns (k: nat)
    requires p < i <= |nn| && StackOk(nn, i, stk) && nn[p].Control? && CloserOf(nn[p].ch).Some?
    ensures k < |stk| && stk[k].pos == p && CloserOf(nn[p].ch) == Some(stk[k].clos)
  {
    assert OnStack(stk, p);
    k :| 0 <= k < |stk| && stk[k].pos == p;
  }

  lemma PushOpen(nn: seq<Node>, i: nat, stk: seq<Brk>, ch: char)
    requires i < |nn| && StackOk(nn, i, stk) && nn[i] == Control(ch) && CloserOf(ch).Some?
    ensures StackOk(nn, i + 1, stk + [Brk(ch, CloserOf(ch).value, i)])
  {
    var stk' := stk + [Brk(ch, CloserOf(ch).value, i)];
    forall p | 0 <= p < i + 1 && nn[p].Control? && CloserOf(nn[p].ch).Some? ensures OnStack(stk', p) {
      if p < i {
        assert OnStack(stk, p);
        var k :| 0 <= k < |stk| && stk[k].pos == p;
        assert stk'[k].pos == p;
      } else {
        assert stk'[|stk|].pos == p;
      }
    }
  }

  // ----- Well-formed nodes -------------------------------------------------------------

  /**
    What the passes up to the last keep: bracket pairs are from the table, key/value delimiters
    are = or :, there are no lines yet.
  */
  predicate Sane(n: Node)
    decreases n, 0
  {
    match n
    case Bracket(open, clos, nodes) => CloserOf(open) == Some(clos) && SaneAll(nodes)
    case KeyVal(delim, _, _) => delim == '=' || delim == ':'
    case List(_, blocks) => forall k | 0 <= k < |blocks| :: SaneAll(blocks[k].nodes)
    case Line(_, _) => false
    case _ => true
  }

  predicate SaneAll(nn: seq<Node>)
    decreases nn, 1
  {
    forall k | 0 <= k < |nn| :: Sane(nn[k])
  }

  /** There are no lists before the list pass. */
  predicate NoLists(nn: seq<Node>)
    decreases nn, 1
  {
    forall k | 0 <= k < |nn| :: NoListIn(nn[k])
  }

  predicate NoListIn(n: Node)
    decreases n, 0
  {
    !n.List? && (n.Bracket? ==> NoLists(n.nodes))
  }

  lemma {:induction false} MatchedIsSane(nn: seq<Node>)
    requires Matched(nn)
    ensures SaneAll(nn) && NoLists(nn)
    decreases nn
  {
    forall k | 0 <= k < |nn| ensures Sane(nn[k]) && NoListIn(nn[k]) {
      assert MatchedNode(nn[k]);
      if nn[k].Bracket? {
        MatchedIsSane(nn[k].nodes);
      }
    }
  }

  // ----- What the later passes keep of it ----------------------------------------------

  /** No matchable pair at any level, lists and lines included, and no bracket directly contains its own closer. */
  predicate Tidy(nn: seq<Node>)
    decreases nn, 1
  {
    NoMatch(nn) && forall k | 0 <= k < |nn| :: TidyNode(nn[k])
  }

  predicate TidyNode(n: Node)
    decreases n, 0
  {
    match n
    case Bracket(_, clos, nodes) => Control(clos) !in nodes && Tidy(nodes)
    case List(_, blocks) => forall k | 0 <= k < |blocks| :: Tidy(blocks[k].nodes)
    case Line(_, nodes) => Tidy(nodes)
    case _ => true
  }

  lemma {:induction false} MatchedIsTidy(nn: seq<Node>)
    requires Matched(nn)
    ensures Tidy(nn)
    decreases nn
  {
    forall k | 0 <= k < |nn| ensures TidyNode(nn[k]) {
      assert MatchedNode(nn[k]);
      if nn[k].Bracket? {
        MatchedIsTidy(nn[k].nodes);
      }
    }
  }

  /** Every control token of b is one of a. */
  predicate NoNewControls(a: seq<Node>, b: seq<Node>)
  {
    forall k | 0 <= k < |b| && b[k].Control? :: b[k] in a
  }

  lemma NoNewControlsTrans(a: seq<Node>, b: seq<Node>, c: seq<Node>)
    requires NoNewControls(a, b) && NoNewControls(b, c)
    ensures NoNewControls(a, c)
  {
    forall k | 0 <= k < |c| && c[k].Control? ensures c[k] in a {
      assert c[k] in b;
    }
  }
}
