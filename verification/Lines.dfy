/** The last structuring pass: cuts a list of nodes into lines, in every bracket on the way. */
module Lines {
  import opened Brackets
  import opened KeyValues
  import opened Lists
  import opened VerseNodes
  import opened Wrappers

  /** No newline is left outside of line nodes; a line that ends in \r\n is marked as such. */
  predicate LinesDone(nn: seq<Node>)
    decreases nn, 1
  {
    forall k | 0 <= k < |nn| :: nn[k] != Control('\n') && LineOk(nn[k])
  }

  predicate LineOk(n: Node)
    decreases n, 0
  {
    match n
    case Bracket(_, _, nodes) => LinesDone(nodes)
    case Line(r, nodes) =>
      && (forall k | 0 <= k < |nodes| :: nodes[k] != Control('\n') && (nodes[k].Bracket? ==> LineOk(nodes[k])))
      && (!r && nodes != [] ==> nodes[|nodes| - 1] != Control('\r'))
    case _ => true
  }

  /** The first i nodes hold no newline, and their brackets are done. */
  predicate Scanned(nn: seq<Node>, i: nat)
    requires i <= |nn|
  {
    forall k | 0 <= k < i :: nn[k] != Control('\n') && (nn[k].Bracket? ==> LineOk(nn[k]))
  }

  /** Sane nodes, with lines on the top level and in brackets. */
  predicate Whole(n: Node)
    decreases n, 0
  {
    match n
    case Bracket(open, clos, nodes) => CloserOf(open) == Some(clos) && WholeAll(nodes)
    case Line(_, nodes) => WholeAll(nodes)
    case _ => Sane(n)
  }

  predicate WholeAll(nn: seq<Node>)
    decreases nn, 1
  {
    forall k | 0 <= k < |nn| :: Whole(nn[k])
  }

  /** From the cursor on, the list is what it was. */
  ghost predicate Same(nodes: seq<Node>, off: nat, nn: seq<Node>, i: nat)
  {
    off + |nn| == |nodes| && forall k | i <= k < |nn| :: nn[k] == nodes[off + k]
  }

  /** Nodes before the cursor are whole, those after it still sane. */
  predicate HalfDone(nn: seq<Node>, i: nat)
    requires i <= |nn|
  {
    (forall k | 0 <= k < i :: Whole(nn[k]) && !nn[k].Line?) && (forall k | i <= k < |nn| :: Sane(nn[k]))
  }

  /** The line that ends with the newline at i. */
  function LineAt(nn: seq<Node>, i: nat): Node
    requires i < |nn|
  {
    var r := i != 0 && nn[i - 1] == Control('\r');
    Line(r, nn[..if r then i - 1 else i])
  }

  // ----- Which lines -------------------------------------------------------------------

  /** From i on, each newline ends the line that starts behind the last one. */
  function LinesFrom(nn: seq<Node>, i: nat): seq<Node>
    decreases |nn| - i
  {
    if i >= |nn| then nn
    else if nn[i] == Control('\n') then [LineAt(nn, i)] + LinesFrom(nn[i + 1..], 0)
    else LinesFrom(nn, i + 1)
  }

  /** Brackets first, then the level itself. */
  function Lined(nodes: seq<Node>): seq<Node>
    decreases nodes, 1
  {
    LinesFrom(InnerLined(nodes), 0)
  }

  function InnerLined(nodes: seq<Node>): (r: seq<Node>)
    ensures |r| == |nodes|
    decreases nodes, 0
  {
    seq(|nodes|, k requires 0 <= k < |nodes| => LinedIn(nodes[k]))
  }

  function LinedIn(n: Node): Node
    decreases n, 0
  {
    match n case Bracket(open, clos, nodes) => Bracket(open, clos, Lined(nodes)) case _ => n
  }

  /** The nodes of a level with the ends of its lines as tokens again. */
  function Unlined(nn: seq<Node>): seq<Node>
  {
    if nn == [] then []
    else
      (match nn[0]
       case Line(r, nodes) => nodes + (if r then [Control('\r'), Control('\n')] else [Control('\n')])
       case _ => [nn[0]])
      + Unlined(nn[1..])
  }

  /** Taking the lines of a level apart gives the level back. */
  lemma {:induction false} UnlinedLines(nn: seq<Node>, i: nat)
    requires i <= |nn| && forall n | n in nn :: !n.Line?
    ensures Unlined(LinesFrom(nn, i)) == nn
    decreases |nn| - i
  {
    if i == |nn| {
      UnlinedSame(nn);
    } else if nn[i] == Control('\n') {
      UnlinedLines(nn[i + 1..], 0);
      UnlinedCut(nn, i, LinesFrom(nn[i + 1..], 0));
    } else {
      UnlinedLines(nn, i + 1);
    }
  }

  lemma {:induction false} UnlinedCut(nn: seq<Node>, i: nat, rest: seq<Node>)
    requires i < |nn| && nn[i] == Control('\n') && Unlined(rest) == nn[i + 1..]
    ensures Unlined([LineAt(nn, i)] + rest) == nn
  {
    var all := [LineAt(nn, i)] + rest;
    assert all[1..] == rest;
    if i != 0 && nn[i - 1] == Control('\r') {
      assert Unlined(all) == nn[..i - 1] + [Control('\r'), Control('\n')] + nn[i + 1..];
    } else {
      assert Unlined(all) == nn[..i] + [Control('\n')] + nn[i + 1..];
    }
  }

  lemma {:induction false} UnlinedSame(nn: seq<Node>)
    requires forall n | n in nn :: !n.Line?
    ensures Unlined(nn) == nn
  {
    if nn != [] {
      UnlinedSame(nn[1..]);
    }
  }

  /** The lines of a tree without lines: taken apart, every level is the old one with its brackets done. */
  lemma {:induction false} LinedUndone(nodes: seq<Node>)
    requires forall n | n in nodes :: !n.Line?
    ensures Unlined(Lined(nodes)) == InnerLined(nodes)
  {
    InnerAt(nodes);
    UnlinedLines(InnerLined(nodes), 0);
  }

  /** The list under way: done before the cursor. */
  function Ahead(nn: seq<Node>, i: nat): seq<Node>
    requires i <= |nn|
  {
    nn[..i] + InnerLined(nn[i..])
  }

  lemma {:induction false} InnerAt(nodes: seq<Node>)
    ensures forall k | 0 <= k < |nodes| :: InnerLined(nodes)[k] == LinedIn(nodes[k])
  {
    hide LinedIn;
  }

  lemma {:induction false} AheadAt(nn: seq<Node>, i: nat)
    requires i <= |nn|
    ensures |Ahead(nn, i)| == |nn|
    ensures forall k | 0 <= k < |nn| :: Ahead(nn, i)[k] == if k < i then nn[k] else LinedIn(nn[k])
  {
    hide LinedIn, InnerLined;
    InnerAt(nn[i..]);
  }

  lemma {:induction false} AheadPast(nn: seq<Node>, i: nat)
    requires i < |nn| && nn[i] != Control('\n')
    ensures LinesFrom(Ahead(nn, i + 1), i) == LinesFrom(Ahead(nn, i + 1), i + 1)
  {
    hide InnerLined, Ahead;
    AheadAt(nn, i + 1);
  }

  lemma {:induction false} AheadBracket(nn: seq<Node>, i: nat, inner: seq<Node>)
    requires i < |nn| && nn[i].Bracket? && inner == Lined(nn[i].nodes)
    ensures LinesFrom(Ahead(nn, i), i) ==
              LinesFrom(Ahead(nn[i := Bracket(nn[i].open, nn[i].clos, inner)], i + 1), i + 1)
  {
    hide InnerLined, LinesFrom, Lined, Ahead;
    var nn' := nn[i := Bracket(nn[i].open, nn[i].clos, inner)];
    AheadAt(nn, i);
    AheadAt(nn', i + 1);
    assert Ahead(nn, i) == Ahead(nn', i + 1);
    AheadPast(nn', i);
  }

  lemma {:induction false} AheadOther(nn: seq<Node>, i: nat)
    requires i < |nn| && !nn[i].Bracket? && nn[i] != Control('\n')
    ensures LinesFrom(Ahead(nn, i), i) == LinesFrom(Ahead(nn, i + 1), i + 1)
  {
    hide InnerLined, LinesFrom, Lined, Ahead;
    AheadAt(nn, i);
    AheadAt(nn, i + 1);
    assert Ahead(nn, i) == Ahead(nn, i + 1);
    AheadPast(nn, i);
  }

  lemma {:induction false} AheadCut(nn: seq<Node>, i: nat)
    requires i < |nn| && nn[i] == Control('\n')
    ensures LinesFrom(Ahead(nn, i), i) == [LineAt(nn, i)] + LinesFrom(Ahead(nn[i + 1..], 0), 0)
  {
    hide InnerLined, Lined, Ahead;
    AheadAt(nn, i);
    AheadAt(nn[i + 1..], 0);
    var a := Ahead(nn, i);
    assert a[i] == nn[i] && a[..i] == nn[..i];
    assert i > 0 ==> a[i - 1] == nn[i - 1] && a[..i - 1] == nn[..i - 1];
    assert a[i + 1..] == Ahead(nn[i + 1..], 0);
  }

  lemma AheadEnds(nodes: seq<Node>)
    ensures LinesFrom(Ahead(nodes, 0), 0) == Lined(nodes)
    ensures LinesFrom(Ahead(nodes, |nodes|), |nodes|) == nodes
  {
    assert Ahead(nodes, 0) == InnerLined(nodes);
    assert Ahead(nodes, |nodes|) == nodes;
  }

  lemma EndOfLine(x: seq<string>, t: seq<string>)
    ensures (x + EndLeaves(true)) + t == (x + ["\r"]) + (["\n"] + t)
    ensures (x + EndLeaves(false)) + t == x + (["\n"] + t)
  {
  }

  lemma {:induction false} LineLeaves(nn: seq<Node>, i: nat)
    requires i < |nn| && nn[i] == Control('\n')
    ensures Leaves(LineAt(nn, i)) + LeavesAll(nn[i + 1..]) == LeavesAll(nn)
  {
    hide Leaves, LeavesAll, EndLeaves;
    LeavesSplit(nn, i);
    LeavesAt(nn, i);
    LeavesSimple('\n', false, nn[..i]);
    var t := LeavesAll(nn[i + 1..]);
    if i != 0 && nn[i - 1] == Control('\r') {
      LeavesAt(nn, i - 1);
      LeavesSimple('\r', true, nn[..i - 1]);
      assert LeavesAll(nn[..i]) == LeavesAll(nn[..i - 1]) + ["\r"];
      EndOfLine(LeavesAll(nn[..i - 1]), t);
    } else {
      EndOfLine(LeavesAll(nn[..i]), t);
    }
  }

  lemma {:induction false} CutLine(nn: seq<Node>, i: nat)
    requires i < |nn| && nn[i] == Control('\n') && Scanned(nn, i) && HalfDone(nn, i)
    ensures Leaves(LineAt(nn, i)) + LeavesAll(nn[i + 1..]) == LeavesAll(nn)
    ensures LineOk(LineAt(nn, i)) && Whole(LineAt(nn, i)) && HalfDone(nn[i + 1..], 0)
  {
    LineLeaves(nn, i);
    hide Leaves, LeavesAll;
    assert forall k | 0 <= k < |nn[..i]| :: nn[..i][k] == nn[k];
    var rest := nn[i + 1..];
    forall k | 0 <= k < |rest| ensures Sane(rest[k]) {
      assert rest[k] == nn[k + i + 1];
    }
  }

  lemma {:induction false} AppendLine(res: seq<Node>, n: Node)
    requires LinesDone(res) && WholeAll(res) && n != Control('\n') && LineOk(n) && Whole(n)
    ensures LinesDone(res + [n]) && WholeAll(res + [n]) && LeavesAll(res + [n]) == LeavesAll(res) + Leaves(n)
  {
    LeavesAppend(res, [n]);
    LeavesOne(n);
  }

  /** The bracket at the cursor, with the lines of its content. */
  lemma PassBracket(nn: seq<Node>, i: nat, inner: seq<Node>)
    requires i < |nn| && nn[i].Bracket? && Scanned(nn, i) && HalfDone(nn, i)
    requires LeavesAll(inner) == LeavesAll(nn[i].nodes) && LinesDone(inner) && WholeAll(inner)
    ensures var nn' := nn[i := Bracket(nn[i].open, nn[i].clos, inner)];
            LeavesAll(nn') == LeavesAll(nn) && Scanned(nn', i + 1) && HalfDone(nn', i + 1)
  {
    var b := Bracket(nn[i].open, nn[i].clos, inner);
    assert nn[i..i + 1] == [nn[i]];
    LeavesOne(nn[i]);
    LeavesSplice(nn, i, i + 1, b);
    assert nn[i := b] == nn[..i] + [b] + nn[i + 1..];
    assert Sane(nn[i]);
  }

  lemma PassOther(nn: seq<Node>, i: nat)
    requires i < |nn| && !nn[i].Bracket? && nn[i] != Control('\n') && Scanned(nn, i) && HalfDone(nn, i)
    ensures Scanned(nn, i + 1) && HalfDone(nn, i + 1)
  {
    assert Sane(nn[i]);
  }

  lemma SaneContent(nn: seq<Node>, i: nat)
    requires i < |nn| && HalfDone(nn, i) && nn[i].Bracket?
    ensures SaneAll(nn[i].nodes)
  {
    assert Sane(nn[i]);
  }

  /** What the earlier passes have reached at every level. */
  predicate Settled(nn: seq<Node>)
  {
    Formed(nn) && ListsDone(nn)
  }

  lemma SettledSlice(nodes: seq<Node>, nn: seq<Node>, i: nat)
    requires i < |nn| && Settled(nn) && NoNewControls(nodes, nn)
    ensures Settled(nn[i + 1..]) && NoNewControls(nodes, nn[i + 1..])
    ensures FormedNode(LineAt(nn, i)) && ListOk(LineAt(nn, i))
  {
    var end := |LineAt(nn, i).nodes|;
    FormedSlice(nn, i + 1, |nn|);
    FormedSlice(nn, 0, end);
    hide Formed, ListOk;
    assert nn[i + 1..] == nn[i + 1..|nn|] && nn[..end] == nn[0..end];
    var rest := nn[i + 1..];
    assert forall k | 0 <= k < |rest| :: rest[k] == nn[i + 1 + k];
    assert ListsDone(nn[..end]);
    assert ListOk(LineAt(nn, i)) by { LineListOk(LineAt(nn, i)); }
    assert FormedNode(LineAt(nn, i)) by { LineFormed(LineAt(nn, i)); }
  }

  lemma {:induction false} LineListOk(n: Node)
    requires n.Line? && ListsDone(n.nodes)
    ensures ListOk(n)
  {
  }

  lemma LineFormed(n: Node)
    requires n.Line? && Formed(n.nodes)
    ensures FormedNode(n)
  {
  }

  lemma SettledBracket(nodes: seq<Node>, nn: seq<Node>, i: nat, inner: seq<Node>)
    requires i < |nn| && nn[i].Bracket? && Settled(nn) && NoNewControls(nodes, nn)
    requires Settled(inner) && NoNewControls(nn[i].nodes, inner)
    ensures var nn' := nn[i := Bracket(nn[i].open, nn[i].clos, inner)]; Settled(nn') && NoNewControls(nodes, nn')
  {
    var b := Bracket(nn[i].open, nn[i].clos, inner);
    SetFormed(nn, i, inner);
    NoNewControlsTrans(nodes, nn, nn[i := b]);
  }

  lemma SettledContent(nn: seq<Node>, i: nat)
    requires i < |nn| && Settled(nn) && nn[i].Bracket?
    ensures Settled(nn[i].nodes)
  {
    assert TidyNode(nn[i]) && PairsDoneIn(nn[i]) && ListOk(nn[i]);
  }

  predicate OnlyLines(nn: seq<Node>)
  {
    forall k | 0 <= k < |nn| :: nn[k].Line?
  }

  lemma {:induction false} SettledLine(res: seq<Node>, n: Node)
    requires Settled(res) && OnlyLines(res) && n.Line? && FormedNode(n) && ListOk(n)
    ensures Settled(res + [n]) && OnlyLines(res + [n])
  {
    FormedSplice(res, |res|, |res|, n);
    assert res[..|res|] + [n] + res[|res|..] == res + [n];
  }

  lemma SettledRest(nodes: seq<Node>, res: seq<Node>, nn: seq<Node>)
    requires Settled(res) && OnlyLines(res) && Settled(nn) && NoNewControls(nodes, nn)
    ensures Settled(res + nn) && NoNewControls(nodes, res + nn)
  {
    hide TidyNode, PairsDoneIn, ListOk;
    var all := res + nn;
    forall i | 0 < i < |all| ensures !TripleAt(all, i) {
      assert i > |res| ==> !TripleAt(nn, i - |res|);
    }
    assert NoMatch(all);
  }

  /** Cuts the nodes into lines. What the earlier passes have reached is kept at every level. */
  method StructureLines(nodes: seq<Node>) returns (res: seq<Node>)
    requires SaneAll(nodes) && Settled(nodes)
    ensures res == Lined(nodes)
    ensures LeavesAll(res) == LeavesAll(nodes)
    ensures LinesDone(res) && WholeAll(res) && Settled(res) && NoNewControls(nodes, res)
    decreases nodes
  {
    hide Leaves, LeavesAll, LinesDone, WholeAll, LineOk, Whole, Scanned, HalfDone, Sane, SaneAll, Settled,
         NoNewControls,
         FormedNode, ListOk, Lined, LinesFrom, Ahead;
    res := [];
    NoLinesYet(nodes);
    AheadEnds(nodes);
    var nn := nodes;
    ghost var off := 0;
    var i := 0;
    while i < |nn|
      invariant 0 <= i <= |nn| && off + |nn| == |nodes|
      invariant Same(nodes, off, nn, i)
      invariant res + LinesFrom(Ahead(nn, i), i) == Lined(nodes)
      invariant LeavesAll(res) + LeavesAll(nn) == LeavesAll(nodes)
      invariant Scanned(nn, i) && HalfDone(nn, i)
      invariant LinesDone(res) && WholeAll(res)
      invariant Settled(nn) && NoNewControls(nodes, nn) && Settled(res) && OnlyLines(res)
      decreases |nodes| - off - i
    {
      if nn[i].Bracket? {
        SaneContent(nn, i);
        SettledContent(nn, i);
        assert nn[i] == nodes[off + i];
        var inner := StructureLines(nn[i].nodes);
        PassBracket(nn, i, inner);
        AheadBracket(nn, i, inner);
        SettledBracket(nodes, nn, i, inner);
        nn := nn[i := Bracket(nn[i].open, nn[i].clos, inner)];
        i := i + 1;
      } else if nn[i] != Control('\n') {
        PassOther(nn, i);
        AheadOther(nn, i);
        i := i + 1;
      } else {
        var r := false;
        var end := i;
        if i != 0 && nn[i - 1] == Control('\r') {
          r := true;
          end := end - 1;
        }
        CutLine(nn, i);
        AheadCut(nn, i);
        SettledSlice(nodes, nn, i);
        AppendLine(res, LineAt(nn, i));
        assert LineAt(nn, i) == Line(r, nn[..end]);
        SettledLine(res, LineAt(nn, i));
        ConcatAssoc(LeavesAll(res), Leaves(LineAt(nn, i)), LeavesAll(nn[i + 1..]));
        res := res + [Line(r, nn[..end])];
        off := off + i + 1;
        nn := nn[i + 1..];
        i := 0;
        NothingScanned(nn);
      }
    }
    AppendRest(res, nn);
    AheadEnds(nn);
    SettledRest(nodes, res, nn);
    if |nn| != 0 {
      res := res + nn;
    } else {
      assert res + nn == res;
    }
  }

  lemma {:induction false} NoLinesYet(nodes: seq<Node>)
    requires SaneAll(nodes)
    ensures LinesDone([]) && WholeAll([]) && LeavesAll([]) == [] && Scanned(nodes, 0) && HalfDone(nodes, 0)
    ensures Settled([]) && NoNewControls(nodes, nodes)
  {
  }

  lemma ConcatAssoc(a: seq<string>, b: seq<string>, c: seq<string>)
    ensures (a + b) + c == a + (b + c)
  {
  }

  lemma NothingScanned(nn: seq<Node>)
    ensures Scanned(nn, 0)
  {
  }

  lemma {:induction false} AppendRest(res: seq<Node>, nn: seq<Node>)
    requires LinesDone(res) && WholeAll(res) && Scanned(nn, |nn|) && HalfDone(nn, |nn|)
    ensures LinesDone(res + nn) && WholeAll(res + nn) && LeavesAll(res + nn) == LeavesAll(res) + LeavesAll(nn)
  {
    LeavesAppend(res, nn);
    assert forall k | 0 <= k < |nn| :: LineOk(nn[k]);
  }
}
