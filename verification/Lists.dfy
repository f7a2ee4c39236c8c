/** The fourth structuring pass: finds lists delimited by , or ; on every bracket level. */
module Lists {
  import opened Brackets
  import opened KeyValues
  import opened ListCuts
  import opened VerseNodes

  /**
    No list delimiter is left on this level or in its brackets, and every list is cut at each of
    its own delimiters.
  */
  predicate ListsDone(nn: seq<Node>)
    decreases nn, 1
  {
    forall k | 0 <= k < |nn| :: !LooseDelim(nn[k]) && ListOk(nn[k])
  }

  predicate ListOk(n: Node)
    decreases n, 0
  {
    match n
    case Bracket(_, _, nodes) => ListsDone(nodes)
    case List(delim, blocks) => |blocks| >= 2 && forall k | 0 <= k < |blocks| :: BlockOk(delim, blocks[k])
    case Line(_, nodes) => ListsDone(nodes)
    case _ => true
  }

  /** A block of a list never directly holds the list's own delimiter. */
  predicate BlockOk(delim: char, b: Block)
    decreases b, 0
  {
    forall k | 0 <= k < |b.nodes| :: b.nodes[k] != Control(delim) && ListOk(b.nodes[k])
  }

  // ----- The extent of a list ----------------------------------------------------------

  /** One end of the list under construction: characters seen on the way, and the position reached. */
  datatype Elem = Elem(tok: set<char>, done: bool, pos: int, inc: int)

  function StepElem(nn: seq<Node>, ch: char, e: Elem): Elem
  {
    if e.done || e.pos < 0 || e.pos >= |nn| then e.(done := true)
    else
      match nn[e.pos]
      case Control(ch1) => if ch1 == ch then e.(done := true) else e.(tok := e.tok + {ch1}, pos := e.pos + e.inc)
      case Bracket(open, clos, _) => e.(tok := e.tok + {open, clos}, pos := e.pos + e.inc)
      case _ => e.(pos := e.pos + e.inc)
  }

  /** Nodes that stop the extension of a list with these characters. */
  predicate Stops(n: Node, tok: set<char>)
  {
    (n.Control? && n.ch !in tok) || (n.Bracket? && !(n.open in tok && n.clos in tok))
  }

  /** Between the two ends there is no delimiter but the one at i. */
  predicate Extent(nn: seq<Node>, i: nat, ch: char, left: int, right: int)
  {
    && -1 <= left < i < right <= |nn|
    && forall k | left < k < right && k != i :: nn[k] != Control(ch)
  }

  predicate EndsOk(nn: seq<Node>, i: nat, ch: char, l: Elem, r: Elem)
  {
    l.inc == -1 && r.inc == 1 && Extent(nn, i, ch, l.pos, r.pos) && ch !in l.tok && ch !in r.tok
  }

  datatype Ends = Ends(l: Elem, r: Elem)

  /** Both ends after a number of rounds from the delimiter at i. */
  function Rounds(nn: seq<Node>, ch: char, i: int, k: nat): Ends
  {
    if k == 0 then Ends(Elem({}, false, i - 1, -1), Elem({}, false, i + 1, 1))
    else
      var e := Rounds(nn, ch, i, k - 1);
      Ends(StepElem(nn, ch, e.l), StepElem(nn, ch, e.r))
  }

  /** Both ends are stuck, or the characters seen on one side include those of the other. */
  predicate Balanced(e: Ends)
  {
    (e.l.done && e.r.done) || e.l.tok + e.r.tok == e.l.tok || e.l.tok + e.r.tok == e.r.tok
  }

  /** Both ends move outwards in step, up to the first round after which they are balanced. */
  method FindElems(nn: seq<Node>, i: nat, ch: char) returns (l: Elem, r: Elem, ghost rounds: nat)
    requires SaneAll(nn) && i < |nn| && nn[i] == Control(ch) && IsListDelim(ch)
    ensures EndsOk(nn, i, ch, l, r)
    ensures rounds > 0 && Ends(l, r) == Rounds(nn, ch, i, rounds) && Balanced(Ends(l, r))
    ensures forall k | 0 < k < rounds :: !Balanced(Rounds(nn, ch, i, k))
    ensures RoundIs(nn, ch, i, rounds, Ends(l, r)) && FirstBalanced(nn, ch, i, rounds, l.pos, r.pos)
  {
    hide SaneAll, StepElem, Rounds, RoundIs, FirstBalanced;
    l, r, rounds := Elem({}, false, i - 1, -1), Elem({}, false, i + 1, 1), 0;
    RoundsStep(nn, ch, i, 0);
    while true
      invariant EndsOk(nn, i, ch, l, r)
      invariant Ends(l, r) == Rounds(nn, ch, i, rounds)
      invariant forall k | 0 < k <= rounds :: !Balanced(Rounds(nn, ch, i, k))
      decreases l.pos + 1 + |nn| - r.pos, !l.done, !r.done
    {
      StepKeeps(nn, i, ch, l, r);
      StepMoves(nn, ch, l);
      StepMoves(nn, ch, r);
      RoundsStep(nn, ch, i, rounds);
      l, r, rounds := StepElem(nn, ch, l), StepElem(nn, ch, r), rounds + 1;
      if l.done && r.done {
        break;
      }
      var union := l.tok + r.tok;
      if l.tok == union || r.tok == union {
        break;
      }
    }
    FoundEnds(nn, ch, i, rounds, Ends(l, r));
  }

  lemma RoundsStep(nn: seq<Node>, ch: char, i: int, k: nat)
    ensures var e := Rounds(nn, ch, i, k);
            Rounds(nn, ch, i, k + 1) == Ends(StepElem(nn, ch, e.l), StepElem(nn, ch, e.r))
    ensures Rounds(nn, ch, i, 0) == Ends(Elem({}, false, i - 1, -1), Elem({}, false, i + 1, 1))
  {
  }

  lemma SeenMore(nn: seq<Node>, lo: int, hi: int)
    requires 0 <= lo < hi <= |nn|
    ensures Seen(nn, lo, hi) == Chars(nn[lo]) + Seen(nn, lo + 1, hi)
    ensures Seen(nn, lo, hi) == Seen(nn, lo, hi - 1) + Chars(nn[hi - 1])
    decreases hi - lo
  {
    if lo + 1 < hi {
      SeenMore(nn, lo + 1, hi);
    }
  }

  /** The ends after k rounds, told by positions: how far they get, what they have seen, and whether they are stuck. */
  predicate RoundIs(nn: seq<Node>, ch: char, i: nat, k: nat, e: Ends)
    requires i < |nn|
  {
    && e.l.inc == -1 && e.r.inc == 1
    && LeftEnd(nn, ch, i, k, e.l.pos) && RightEnd(nn, ch, i, k, e.r.pos)
    && e.l.tok == Seen(nn, e.l.pos + 1, i) && e.r.tok == Seen(nn, i + 1, e.r.pos)
    && (e.l.done <==> i - 1 - k < e.l.pos) && (e.r.done <==> e.r.pos < i + 1 + k)
  }

  lemma {:induction false} RoundsAre(nn: seq<Node>, ch: char, i: nat, k: nat)
    requires i < |nn|
    ensures RoundIs(nn, ch, i, k, Rounds(nn, ch, i, k))
    decreases k
  {
    if k > 0 {
      RoundsAre(nn, ch, i, k - 1);
      RoundLeft(nn, ch, i, k, Rounds(nn, ch, i, k - 1));
      RoundRight(nn, ch, i, k, Rounds(nn, ch, i, k - 1));
    }
  }

  lemma {:induction false} RoundLeft(nn: seq<Node>, ch: char, i: nat, k: nat, e: Ends)
    requires i < |nn| && k > 0 && RoundIs(nn, ch, i, k - 1, e)
    ensures var l := StepElem(nn, ch, e.l);
            && l.inc == -1 && LeftEnd(nn, ch, i, k, l.pos) && l.tok == Seen(nn, l.pos + 1, i)
            && (l.done <==> i - 1 - k < l.pos)
  {
    if 0 <= e.l.pos {
      SeenMore(nn, e.l.pos, i);
    }
  }

  lemma {:induction false} RoundRight(nn: seq<Node>, ch: char, i: nat, k: nat, e: Ends)
    requires i < |nn| && k > 0 && RoundIs(nn, ch, i, k - 1, e)
    ensures var r := StepElem(nn, ch, e.r);
            && r.inc == 1 && RightEnd(nn, ch, i, k, r.pos) && r.tok == Seen(nn, i + 1, r.pos)
            && (r.done <==> r.pos < i + 1 + k)
  {
    if e.r.pos < |nn| {
      SeenMore(nn, i + 1, e.r.pos + 1);
    }
  }

  lemma BalancedIs(nn: seq<Node>, ch: char, i: nat, k: nat, e: Ends)
    requires i < |nn| && RoundIs(nn, ch, i, k, e)
    ensures Balanced(e) <==> BalancedAt(nn, i, k, e.l.pos, e.r.pos)
  {
    var a, b := e.l.tok, e.r.tok;
    assert a + b == a <==> b <= a;
    assert a + b == b <==> a <= b;
  }

  /** The rounds end where positions say. */
  lemma {:induction false} FoundEnds(nn: seq<Node>, ch: char, i: nat, k: nat, e: Ends)
    requires i < |nn| && k > 0 && e == Rounds(nn, ch, i, k) && Balanced(e)
    requires forall k' | 0 < k' < k :: !Balanced(Rounds(nn, ch, i, k'))
    ensures RoundIs(nn, ch, i, k, e) && FirstBalanced(nn, ch, i, k, e.l.pos, e.r.pos)
  {
    hide Rounds, Balanced, BalancedAt, LeftEnd, RightEnd;
    RoundsAre(nn, ch, i, k);
    BalancedIs(nn, ch, i, k, e);
    forall k': nat, p', q' | 0 < k' < k ensures !BalancedEnds(nn, ch, i, k', p', q') {
      NotYet(nn, ch, i, k', p', q');
    }
  }

  lemma {:induction false} NotYet(nn: seq<Node>, ch: char, i: nat, k: nat, p: int, q: int)
    requires i < |nn| && !Balanced(Rounds(nn, ch, i, k))
    ensures !BalancedEnds(nn, ch, i, k, p, q)
  {
    hide Rounds, Balanced, Seen;
    RoundsAre(nn, ch, i, k);
    var e := Rounds(nn, ch, i, k);
    BalancedIs(nn, ch, i, k, e);
    if LeftEnd(nn, ch, i, k, p) && RightEnd(nn, ch, i, k, q) {
      LeftEndUnique(nn, ch, i, k, p, e.l.pos);
      RightEndUnique(nn, ch, i, k, q, e.r.pos);
    }
  }

  /** A step moves an end by one node or finishes it; a finished end stays. */
  lemma StepMoves(nn: seq<Node>, ch: char, e: Elem)
    ensures var s := StepElem(nn, ch, e);
            (e.done ==> s == e) && s.inc == e.inc && s.pos == if s.done then e.pos else e.pos + e.inc
  {
  }

  lemma {:induction false} StepKeeps(nn: seq<Node>, i: nat, ch: char, l: Elem, r: Elem)
    requires SaneAll(nn) && IsListDelim(ch) && EndsOk(nn, i, ch, l, r)
    ensures EndsOk(nn, i, ch, StepElem(nn, ch, l), StepElem(nn, ch, r))
  {
    if 0 <= l.pos < |nn| {
      assert Sane(nn[l.pos]);
    }
    if 0 <= r.pos < |nn| {
      assert Sane(nn[r.pos]);
    }
  }

  /** The nodes from one position of an end up to another, in its direction. */
  predicate Passed(nn: seq<Node>, tok: set<char>, inc: int, from: int, to: int)
  {
    && -1 <= from <= |nn| && -1 <= to <= |nn|
    && if inc == -1 then to <= from < |nn| && forall k | to < k <= from :: Chars(nn[k]) <= tok
       else 0 <= from <= to && forall k | from <= k < to :: Chars(nn[k]) <= tok
  }

  /** Extends both ends over nodes whose characters have been seen, and then unfinished ends once more. */
  method Extend(nn: seq<Node>, i: nat, ch: char, tok: set<char>, e: Elem, ghost other: Elem) returns (res: Elem)
    requires ch !in tok
    requires e.inc == -1 || e.inc == 1
    requires if e.inc == -1 then EndsOk(nn, i, ch, e, other) else EndsOk(nn, i, ch, other, e)
    ensures res.inc == e.inc && res.tok == e.tok && res.done == e.done
    ensures if e.inc == -1 then EndsOk(nn, i, ch, res, other) else EndsOk(nn, i, ch, other, res)
    ensures if e.inc == -1 then FurthestLeft(nn, tok, e.pos, res.pos) else FurthestRight(nn, tok, e.pos, res.pos)
  {
    res := e;
    while 0 <= res.pos < |nn| && !Stops(nn[res.pos], tok)
      invariant res == e.(pos := res.pos) && Passed(nn, tok, e.inc, e.pos, res.pos)
      invariant if e.inc == -1 then EndsOk(nn, i, ch, res, other) else EndsOk(nn, i, ch, other, res)
      decreases if e.inc == -1 then res.pos else |nn| - res.pos
    {
      res := res.(pos := res.pos + res.inc);
    }
    res := ExtendOpen(nn, i, ch, tok, res, other);
  }

  /** The second of the two loops, which stops at the delimiter and leaves finished ends alone. */
  method ExtendOpen(nn: seq<Node>, i: nat, ch: char, tok: set<char>, e: Elem, ghost other: Elem) returns (res: Elem)
    requires ch !in tok
    requires e.inc == -1 || e.inc == 1
    requires if e.inc == -1 then EndsOk(nn, i, ch, e, other) else EndsOk(nn, i, ch, other, e)
    ensures res == e.(pos := res.pos)
    ensures if e.inc == -1 then EndsOk(nn, i, ch, res, other) else EndsOk(nn, i, ch, other, res)
    ensures Passed(nn, tok, e.inc, e.pos, res.pos)
    ensures if e.done then res == e else 0 <= res.pos < |nn| ==> nn[res.pos] == Control(ch) || Stops(nn[res.pos], tok)
  {
    res := e;
    while !res.done && 0 <= res.pos < |nn| && nn[res.pos] != Control(ch) && !Stops(nn[res.pos], tok)
      invariant res == e.(pos := res.pos) && Passed(nn, tok, e.inc, e.pos, res.pos) && (e.done ==> res == e)
      invariant if e.inc == -1 then EndsOk(nn, i, ch, res, other) else EndsOk(nn, i, ch, other, res)
      decreases if e.inc == -1 then res.pos else |nn| - res.pos
    {
      res := res.(pos := res.pos + res.inc);
    }
  }

  // ----- The blocks of a list ----------------------------------------------------------

  /** Nodes from which blocks are cut: loose delimiters may be among them. */
  predicate PartsOk(nn: seq<Node>)
  {
    Formed(nn) && forall k | 0 <= k < |nn| :: ListOk(nn[k])
  }

  /** The blocks cover the nodes from start + 1 to end. */
  predicate Covers(nn: seq<Node>, ch: char, blocks: seq<Block>, start: int, end: int)
  {
    && -1 <= start < end <= |nn|
    && |blocks| >= 2
    && LeavesJoin(ch, blocks) == LeavesAll(nn[start + 1..end])
    && (forall k | 0 <= k < |blocks| :: BlockOk(ch, blocks[k]) && SaneAll(blocks[k].nodes) && Formed(blocks[k].nodes))
  }

  lemma {:induction false} BlockOf(nn: seq<Node>, ch: char, lo: nat, hi: nat)
    requires SaneAll(nn) && PartsOk(nn) && lo <= hi <= |nn|
    requires forall k | lo <= k < hi :: nn[k] != Control(ch)
    ensures BlockOk(ch, Block(nn[lo..hi])) && SaneAll(nn[lo..hi]) && Formed(nn[lo..hi])
  {
    FormedSlice(nn, lo, hi);
    hide Formed;
    var b := nn[lo..hi];
    forall k | 0 <= k < |b| ensures b[k] != Control(ch) && ListOk(b[k]) && Sane(b[k]) {
      assert b[k] == nn[lo + k];
    }
  }

  lemma {:induction false} FirstBlocks(nn: seq<Node>, i: nat, ch: char, left: int, right: int)
    requires SaneAll(nn) && PartsOk(nn) && Extent(nn, i, ch, left, right) && nn[i] == Control(ch)
    ensures Covers(nn, ch, [Block(nn[left + 1..i]), Block(nn[i + 1..right])], left, right)
  {
    hide Leaves, LeavesAll, LeavesJoin, BlockOk, SaneAll, PartsOk, Formed;
    var a, b := nn[left + 1..i], nn[i + 1..right];
    BlockOf(nn, ch, left + 1, i);
    BlockOf(nn, ch, i + 1, right);
    LeavesJoinTwo(ch, a, b);
    LeavesAround(nn, left + 1, i, right, ch);
  }

  lemma LeavesAround(nn: seq<Node>, lo: nat, i: nat, hi: nat, ch: char)
    requires lo <= i < hi <= |nn| && nn[i] == Control(ch)
    ensures LeavesAll(nn[lo..hi]) == LeavesAll(nn[lo..i]) + [[ch]] + LeavesAll(nn[i + 1..hi])
  {
    hide Leaves, LeavesAll;
    var a, b := nn[lo..i], nn[i + 1..hi];
    assert nn[lo..hi] == a + [nn[i]] + b;
    LeavesAppend(a, [nn[i]]);
    LeavesAppend(a + [nn[i]], b);
    LeavesOne(nn[i]);
    LeavesSimple(ch, false, []);
  }

  lemma {:induction false} PrependBlock(nn: seq<Node>, ch: char, blocks: seq<Block>, pos: int, start: int, end: int)
    requires SaneAll(nn) && PartsOk(nn) && Covers(nn, ch, blocks, start, end)
    requires -1 <= pos < start && nn[start] == Control(ch)
    requires forall k | pos < k < start :: nn[k] != Control(ch)
    ensures Covers(nn, ch, [Block(nn[pos + 1..start])] + blocks, pos, end)
  {
    hide Leaves, LeavesAll, LeavesJoin, BlockOk, SaneAll, PartsOk, Formed;
    BlockOf(nn, ch, pos + 1, start);
    LeavesJoinMore(ch, nn[pos + 1..start], blocks);
    LeavesAround(nn, pos + 1, start, end, ch);
  }

  /** Goes on to the left as long as a delimiter stands directly before the list. */
  method CollectLeft(nn: seq<Node>, i: nat, ch: char, tok: set<char>, left: int, right: int)
    returns (blocks: seq<Block>, start: int, ghost stops: seq<int>)
    requires SaneAll(nn) && PartsOk(nn) && Extent(nn, i, ch, left, right) && nn[i] == Control(ch) && ch !in tok
    ensures Covers(nn, ch, blocks, start, right) && start <= left
    ensures StopsOk(nn, i, stops) && stops[0] == left && start == stops[|stops| - 1]
    ensures blocks == LeftBlocks(nn, i, stops) + [Block(nn[i + 1..right])]
    ensures FurtherBlocks(nn, ch, tok, stops) && (start >= 0 ==> nn[start] != Control(ch))
  {
    hide Leaves, LeavesAll, LeavesJoin, BlockOk, SaneAll, PartsOk, Formed, FurtherBlock, Stops, LeftBlocks, Covers;
    FirstBlocks(nn, i, ch, left, right);
    blocks := [Block(nn[left + 1..i]), Block(nn[i + 1..right])];
    start, stops := left, [left];
    FirstLeftBlock(nn, i, left);
    while start >= 0 && nn[start] == Control(ch)
      invariant Covers(nn, ch, blocks, start, right) && start <= left
      invariant StopsOk(nn, i, stops) && stops[0] == left && start == stops[|stops| - 1]
      invariant blocks == LeftBlocks(nn, i, stops) + [Block(nn[i + 1..right])]
      invariant FurtherBlocks(nn, ch, tok, stops)
      decreases start
    {
      var pos := start - 1;
      while pos >= 0 && nn[pos] != Control(ch) && !Stops(nn[pos], tok)
        invariant -1 <= pos < start
        invariant forall k | pos < k < start :: nn[k] != Control(ch) && !Stops(nn[k], tok)
      {
        pos := pos - 1;
      }
      PrependBlock(nn, ch, blocks, pos, start, right);
      MoreLeftBlocks(nn, i, ch, tok, stops, pos);
      blocks := [Block(nn[pos + 1..start])] + blocks;
      start, stops := pos, stops + [pos];
    }
  }

  lemma {:induction false} FirstLeftBlock(nn: seq<Node>, i: nat, left: int)
    requires -1 <= left < i <= |nn|
    ensures StopsOk(nn, i, [left]) && LeftBlocks(nn, i, [left]) == [Block(nn[left + 1..i])]
  {
  }

  lemma {:induction false} MoreLeftBlocks(nn: seq<Node>, i: nat, ch: char, tok: set<char>, stops: seq<int>, pos: int)
    requires StopsOk(nn, i, stops) && FurtherBlocks(nn, ch, tok, stops)
    requires var start := stops[|stops| - 1];
             && -1 <= pos < start < |nn| && nn[start] == Control(ch) && ch !in tok
             && (forall k | pos < k < start :: nn[k] != Control(ch) && !Stops(nn[k], tok))
             && (pos >= 0 ==> nn[pos] == Control(ch) || Stops(nn[pos], tok))
    ensures StopsOk(nn, i, stops + [pos]) && FurtherBlocks(nn, ch, tok, stops + [pos])
    ensures LeftBlocks(nn, i, stops + [pos]) ==
            [Block(nn[pos + 1..stops[|stops| - 1]])] + LeftBlocks(nn, i, stops)
  {
    var more, n := stops + [pos], |stops|;
    OneFurther(nn, ch, tok, stops[n - 1], pos);
    hide FurthestLeft, Stops, LeftBlocks;
    MoreStops(nn, i, stops, pos);
    forall m | 0 < m < |more| ensures FurtherBlock(nn, ch, tok, more, m) {
      if m < n {
        assert FurtherBlock(nn, ch, tok, stops, m);
      }
    }
  }

  lemma OneFurther(nn: seq<Node>, ch: char, tok: set<char>, start: int, pos: int)
    requires -1 <= pos < start < |nn| && nn[start] == Control(ch) && ch !in tok
    requires forall k | pos < k < start :: nn[k] != Control(ch) && !Stops(nn[k], tok)
    requires pos >= 0 ==> nn[pos] == Control(ch) || Stops(nn[pos], tok)
    ensures FurthestLeft(nn, tok, start - 1, pos)
  {
  }

  lemma {:induction false} MoreStops(nn: seq<Node>, i: nat, stops: seq<int>, pos: int)
    requires StopsOk(nn, i, stops) && -1 <= pos < stops[|stops| - 1]
    ensures StopsOk(nn, i, stops + [pos])
    ensures LeftBlocks(nn, i, stops + [pos]) ==
            [Block(nn[pos + 1..stops[|stops| - 1]])] + LeftBlocks(nn, i, stops)
  {
    var more, n := stops + [pos], |stops|;
    assert more[..n] == stops;
    assert forall m | 0 <= m < n :: stops[n - 1] <= stops[m];
    assert StopsOk(nn, i, more);
  }

  /** Putting the list in the place of its nodes. */
  lemma ReplaceByList(nn: seq<Node>, i: nat, ch: char, blocks: seq<Block>, start: int, end: nat)
    requires SaneAll(nn) && PartsOk(nn) && Covers(nn, ch, blocks, start, end) && start < i < end
    requires forall k | i < k < |nn| :: !LooseDelim(nn[k])
    ensures var nn' := nn[..start + 1] + [List(ch, blocks)] + nn[end..];
            && LeavesAll(nn') == LeavesAll(nn) && SaneAll(nn') && PartsOk(nn') && NoNewControls(nn, nn')
            && forall k | start < k < |nn'| :: !LooseDelim(nn'[k])
  {
    var lst := List(ch, blocks);
    var nn' := nn[..start + 1] + [lst] + nn[end..];
    LeavesSplice(nn, start + 1, end, lst);
    ListFormed(ch, blocks);
    FormedSplice(nn, start + 1, end, lst);
    hide Leaves, LeavesAll, LeavesJoin, Formed, NoNewControls;
    SpliceNodes(nn, start + 1, end, lst);
    assert Sane(lst) && ListOk(lst);
    forall k | 0 <= k < |nn'| ensures Sane(nn'[k]) && ListOk(nn'[k]) && (start < k ==> !LooseDelim(nn'[k])) {
      if k > start + 1 {
        var j := k - start - 2 + end;
        assert nn'[k] == nn[j];
      }
    }
  }

  lemma ListFormed(ch: char, blocks: seq<Block>)
    requires forall k | 0 <= k < |blocks| :: Formed(blocks[k].nodes)
    ensures FormedNode(List(ch, blocks))
  {
  }

  method StructureLists(nodes: seq<Node>) returns (nn: seq<Node>)
    requires SaneAll(nodes) && NoLists(nodes) && Formed(nodes)
    ensures LeavesAll(nn) == LeavesAll(nodes)
    ensures ListsDone(nn) && SaneAll(nn) && Formed(nn) && NoNewControls(nodes, nn)
    ensures Listed(nodes, nn)
    decreases nodes
  {
    hide Leaves, LeavesAll, SaneAll, NoLists, Formed, ListsDone, NoNewControls, Listed, CutLevel;
    nn := nodes;
    SameControls(nodes);
    for k := 0 to |nn|
      invariant |nn| == |nodes| && nn[k..] == nodes[k..]
      invariant LeavesAll(nn) == LeavesAll(nodes) && SaneAll(nn) && Formed(nn) && NoNewControls(nodes, nn)
      invariant forall j | 0 <= j < k :: ListOk(nn[j]) && ListedIn(nodes[j], nn[j])
    {
      assert nn[k] == nn[k..][0] == nodes[k];
      ContentFacts(nodes, k);
      if nn[k].Bracket? {
        var inner := StructureLists(nodes[k].nodes);
        SetBracket(nn, k, inner);
        SetFormed(nn, k, inner);
        NoNewControlsTrans(nodes, nn, nn[k := Bracket(nn[k].open, nn[k].clos, inner)]);
        nn := nn[k := Bracket(nn[k].open, nn[k].clos, inner)];
      }
    }
    ghost var before, trace := nn, [];
    nn, trace := CutLists(nn);
    NoNewControlsTrans(nodes, before, nn);
    ListedBy(nodes, before, nn, trace);
  }

  lemma {:induction false} ListedBy(nodes: seq<Node>, mid: seq<Node>, nn: seq<Node>, trace: seq<Level>)
    requires |mid| == |nodes| && (forall k | 0 <= k < |nodes| :: ListedIn(nodes[k], mid[k])) && CutLevel(mid, nn, trace)
    ensures Listed(nodes, nn)
  {
    hide ListedIn, CutLevel;
    assert InnerListed(nodes, mid);
  }

  lemma {:induction false} ContentFacts(nn: seq<Node>, k: nat)
    requires SaneAll(nn) && NoLists(nn) && Formed(nn) && k < |nn|
    ensures if nn[k].Bracket? then SaneAll(nn[k].nodes) && NoLists(nn[k].nodes) && Formed(nn[k].nodes)
            else ListOk(nn[k])
  {
    assert Sane(nn[k]) && NoListIn(nn[k]) && TidyNode(nn[k]) && PairsDoneIn(nn[k]);
  }

  lemma SetFormed(nn: seq<Node>, k: nat, inner: seq<Node>)
    requires k < |nn| && nn[k].Bracket? && Formed(nn) && Formed(inner) && NoNewControls(nn[k].nodes, inner)
    ensures var nn' := nn[k := Bracket(nn[k].open, nn[k].clos, inner)]; Formed(nn') && NoNewControls(nn, nn')
  {
    var b := Bracket(nn[k].open, nn[k].clos, inner);
    assert TidyNode(nn[k]);
    BracketTidy(nn[k], inner);
    FormedSplice(nn, k, k + 1, b);
    assert nn[k := b] == nn[..k] + [b] + nn[k + 1..];
  }

  lemma AddStep(trace: seq<Level>, next: Level) returns (more: seq<Level>)
    requires trace != [] && Steps(trace) && Step(trace[|trace| - 1], next)
    ensures more == trace + [next] && Steps(more)
  {
    hide Step;
    more := trace + [next];
    forall t | 0 <= t < |more| - 1 ensures StepAt(more, t) {
      if t < |trace| - 1 {
        assert StepAt(trace, t);
      }
    }
  }

  /** The list at a delimiter; i becomes its place. */
  method CutOne(nodes: seq<Node>, at: nat) returns (nn: seq<Node>, i: nat)
    requires SaneAll(nodes) && PartsOk(nodes) && at < |nodes| && LooseDelim(nodes[at])
    requires forall k | at < k < |nodes| :: !LooseDelim(nodes[k])
    ensures LeavesAll(nn) == LeavesAll(nodes) && SaneAll(nn) && PartsOk(nn) && NoNewControls(nodes, nn)
    ensures i <= at && i < |nn| && forall k | i <= k < |nn| :: !LooseDelim(nn[k])
    ensures Step(Level(nodes, at), Level(nn, i - 1))
  {
    hide Leaves, LeavesAll, LeavesJoin, SaneAll, Formed, NoNewControls, RoundIs, FirstBalanced, FurthestLeft,
         FurthestRight,
         FurtherBlocks, LeftBlocks, Rounds, Balanced, PartsOk, Seen, Covers;
    var ch := nodes[at].ch;
    var l, r, rounds := FindElems(nodes, at, ch);
    var tok := l.tok + r.tok;
    ghost var p, q := l.pos, r.pos;
    SeenIs(nodes, ch, at, rounds, Ends(l, r));
    l := Extend(nodes, at, ch, tok, l, r);
    r := Extend(nodes, at, ch, tok, r, l);
    var blocks, start, stops := CollectLeft(nodes, at, ch, tok, l.pos, r.pos);
    ReplaceByList(nodes, at, ch, blocks, start, r.pos);
    nn := nodes[..start + 1] + [List(ch, blocks)] + nodes[r.pos..];
    i := start + 1;
    CutIs(nodes, Cut(at, r.pos, stops), rounds, p, q, tok, nn);
  }

  lemma {:induction false} SeenIs(nn: seq<Node>, ch: char, i: nat, k: nat, e: Ends)
    requires i < |nn| && RoundIs(nn, ch, i, k, e)
    ensures -1 <= e.l.pos < i < e.r.pos <= |nn|
    ensures e.l.tok + e.r.tok == Seen(nn, e.l.pos + 1, i) + Seen(nn, i + 1, e.r.pos)
  {
  }

  /** What has been found is the cut. */
  lemma {:induction false} CutIs(nodes: seq<Node>, c: Cut, k: nat, p: int, q: int, tok: set<char>, nn: seq<Node>)
    requires CutOk(nodes, c) && LooseDelim(nodes[c.at]) && -1 <= p < c.at < q <= |nodes|
    requires tok == Seen(nodes, p + 1, c.at) + Seen(nodes, c.at + 1, q)
    requires FirstBalanced(nodes, nodes[c.at].ch, c.at, k, p, q)
    requires FurthestLeft(nodes, tok, p, c.stops[0]) && FurthestRight(nodes, tok, q, c.right)
    requires FurtherBlocks(nodes, nodes[c.at].ch, tok, c.stops)
    requires Start(c) >= 0 ==> nodes[Start(c)] != nodes[c.at]
    requires nn == nodes[..Start(c) + 1] + [List(nodes[c.at].ch, Blocks(nodes, c))] + nodes[c.right..]
    ensures Step(Level(nodes, c.at), Level(nn, Start(c)))
  {
    hide FirstBalanced, Seen, FurthestLeft, FurthestRight, FurtherBlocks, Blocks;
    assert CutFor(nodes, c, p, q);
    assert IsCut(nodes, c);
  }

  lemma StepTo(before: seq<Node>, at: nat, nn: seq<Node>, i: int)
    requires at < |before|
    requires LooseDelim(before[at]) ==> Step(Level(before, at), Level(nn, i))
    requires !LooseDelim(before[at]) ==> nn == before && i == at - 1
    ensures Step(Level(before, at), Level(nn, i))
  {
  }

  /** One level, from right to left. */
  method CutLists(nodes: seq<Node>) returns (nn: seq<Node>, ghost trace: seq<Level>)
    requires SaneAll(nodes) && PartsOk(nodes)
    ensures LeavesAll(nn) == LeavesAll(nodes)
    ensures ListsDone(nn) && SaneAll(nn) && Formed(nn) && NoNewControls(nodes, nn)
    ensures CutLevel(nodes, nn, trace)
  {
    hide Leaves, LeavesAll, LeavesJoin, SaneAll, Formed, NoNewControls, Step;
    SameControls(nodes);
    nn := nodes;
    var i := |nn| - 1;
    trace := [Level(nodes, |nodes| - 1)];
    while i >= 0
      invariant trace != [] && trace[0] == Level(nodes, |nodes| - 1) && trace[|trace| - 1] == Level(nn, i)
                && Steps(trace)
      invariant -1 <= i < |nn|
      invariant LeavesAll(nn) == LeavesAll(nodes) && SaneAll(nn) && PartsOk(nn) && NoNewControls(nodes, nn)
      invariant forall k | i < k < |nn| :: !LooseDelim(nn[k])
    {
      ghost var before, at := nn, i;
      if nn[i].Control? && IsListDelim(nn[i].ch) {
        nn, i := CutOne(nn, i);
        NoNewControlsTrans(nodes, before, nn);
      }
      i := i - 1;
      StepTo(before, at, nn, i);
      trace := AddStep(trace, Level(nn, i));
    }
  }
}
