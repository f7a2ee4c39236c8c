/**
  Which list is cut at a delimiter, told by positions: how far the two sides reach before the
  characters on one of them include those on the other, how far the list then goes on over nodes with
  these characters only, and where its further delimiters to the left are.
*/
module ListCuts {
  import opened VerseNodes

  predicate IsListDelim(c: char)
  {
    c == ',' || c == ';'
  }

  lemma DelimiterTable(n: Node)
    ensures LooseDelim(n) <==> n in [Control(','), Control(';')]
  {
    var both := [Control(','), Control(';')];
    assert both[0] == Control(',') && both[1] == Control(';');
  }

  predicate LooseDelim(n: Node)
  {
    n.Control? && IsListDelim(n.ch)
  }

  /** The characters that a node shows on its level. */
  function Chars(n: Node): set<char>
  {
    match n
    case Control(ch) => {ch}
    case Bracket(open, clos, _) => {open, clos}
    case _ => {}
  }

  function Seen(nn: seq<Node>, lo: int, hi: int): set<char>
    requires 0 <= lo <= hi <= |nn|
    decreases hi - lo
  {
    if lo == hi then {} else Chars(nn[lo]) + Seen(nn, lo + 1, hi)
  }

  // ----- The rounds --------------------------------------------------------------------

  predicate Stuck(nn: seq<Node>, ch: char, pos: int)
  {
    pos < 0 || pos >= |nn| || nn[pos] == Control(ch)
  }

  /** Where k steps to the left of i lead, if they stop at a delimiter or the end. */
  predicate LeftEnd(nn: seq<Node>, ch: char, i: nat, k: nat, p: int)
    requires i < |nn|
  {
    && -1 <= p < i && i - 1 - k <= p
    && (forall q | p < q < i :: nn[q] != Control(ch))
    && (i - 1 - k < p ==> Stuck(nn, ch, p))
  }

  predicate RightEnd(nn: seq<Node>, ch: char, i: nat, k: nat, p: int)
    requires i < |nn|
  {
    && i < p <= |nn| && p <= i + 1 + k
    && (forall q | i < q < p :: nn[q] != Control(ch))
    && (p < i + 1 + k ==> Stuck(nn, ch, p))
  }

  /** Both sides have tried to go beyond where they are stuck, or one has seen all that the other has. */
  predicate BalancedAt(nn: seq<Node>, i: nat, k: nat, p: int, q: int)
    requires -1 <= p < i < q <= |nn|
  {
    || (i - 1 - k < p && q < i + 1 + k)
    || Seen(nn, p + 1, i) <= Seen(nn, i + 1, q)
    || Seen(nn, i + 1, q) <= Seen(nn, p + 1, i)
  }

  predicate BalancedEnds(nn: seq<Node>, ch: char, i: nat, k: nat, p: int, q: int)
    requires i < |nn|
  {
    LeftEnd(nn, ch, i, k, p) && RightEnd(nn, ch, i, k, q) && BalancedAt(nn, i, k, p, q)
  }

  /** The ends after the first round in which they are balanced. */
  ghost predicate FirstBalanced(nn: seq<Node>, ch: char, i: nat, k: nat, p: int, q: int)
    requires i < |nn|
  {
    && k > 0 && BalancedEnds(nn, ch, i, k, p, q)
    && forall k': nat, p', q' | 0 < k' < k :: !BalancedEnds(nn, ch, i, k', p', q')
  }

  lemma LeftEndUnique(nn: seq<Node>, ch: char, i: nat, k: nat, p: int, p': int)
    requires i < |nn| && LeftEnd(nn, ch, i, k, p) && LeftEnd(nn, ch, i, k, p')
    ensures p == p'
  {
  }

  lemma RightEndUnique(nn: seq<Node>, ch: char, i: nat, k: nat, p: int, p': int)
    requires i < |nn| && RightEnd(nn, ch, i, k, p) && RightEnd(nn, ch, i, k, p')
    ensures p == p'
  {
  }

  // ----- A cut -------------------------------------------------------------------------

  /** From a position to the left as long as nodes show these characters only. */
  predicate FurthestLeft(nn: seq<Node>, tok: set<char>, from: int, to: int)
  {
    && -1 <= to <= from < |nn|
    && (forall k | to < k <= from :: Chars(nn[k]) <= tok)
    && (to >= 0 ==> !(Chars(nn[to]) <= tok))
  }

  predicate FurthestRight(nn: seq<Node>, tok: set<char>, from: int, to: int)
  {
    && 0 <= from <= to <= |nn|
    && (forall k | from <= k < to :: Chars(nn[k]) <= tok)
    && (to < |nn| ==> !(Chars(nn[to]) <= tok))
  }

  /**
    A list: the delimiter at which it is found, where it ends to the right, and where its blocks to the
    left of that delimiter end: at further delimiters but for the last.
  */
  datatype Cut = Cut(at: nat, right: nat, stops: seq<int>)

  predicate CutOk(nn: seq<Node>, c: Cut)
  {
    c.at < |nn| && c.at < c.right <= |nn| && nn[c.at].Control? && StopsOk(nn, c.at, c.stops)
  }

  predicate StopsOk(nn: seq<Node>, at: nat, stops: seq<int>)
  {
    && stops != [] && at <= |nn| && (forall m | 0 <= m < |stops| :: -1 <= stops[m] < at)
    && forall j, k | 0 <= j < k < |stops| :: stops[k] < stops[j]
  }

  function Start(c: Cut): int
    requires c.stops != []
  {
    c.stops[|c.stops| - 1]
  }

  /** The blocks to the left, the outermost one first. */
  function LeftBlocks(nn: seq<Node>, at: nat, stops: seq<int>): seq<Block>
    requires StopsOk(nn, at, stops)
  {
    var n := |stops| - 1;
    if n == 0 then [Block(nn[stops[0] + 1..at])]
    else [Block(nn[stops[n] + 1..stops[n - 1]])] + LeftBlocks(nn, at, stops[..n])
  }

  function Blocks(nn: seq<Node>, c: Cut): seq<Block>
    requires CutOk(nn, c)
  {
    LeftBlocks(nn, c.at, c.stops) + [Block(nn[c.at + 1..c.right])]
  }

  function Applied(nn: seq<Node>, c: Cut): seq<Node>
    requires CutOk(nn, c)
  {
    nn[..Start(c) + 1] + [List(nn[c.at].ch, Blocks(nn, c))] + nn[c.right..]
  }

  /** Each further block begins behind a delimiter and goes as far as it can. */
  predicate FurtherBlocks(nn: seq<Node>, ch: char, tok: set<char>, stops: seq<int>)
  {
    forall m | 0 < m < |stops| :: FurtherBlock(nn, ch, tok, stops, m)
  }

  predicate FurtherBlock(nn: seq<Node>, ch: char, tok: set<char>, stops: seq<int>, m: nat)
    requires 0 < m < |stops|
  {
    var delim := stops[m - 1];
    0 <= delim < |nn| && nn[delim] == Control(ch) && FurthestLeft(nn, tok, delim - 1, stops[m])
  }

  /** The cut is the right one for the ends p and q of the rounds. */
  predicate CutFor(nn: seq<Node>, c: Cut, p: int, q: int)
    requires CutOk(nn, c)
  {
    && -1 <= p < c.at < q <= |nn|
    && var tok := Seen(nn, p + 1, c.at) + Seen(nn, c.at + 1, q);
    && FurthestLeft(nn, tok, p, c.stops[0]) && FurthestRight(nn, tok, q, c.right)
    && FurtherBlocks(nn, nn[c.at].ch, tok, c.stops)
    && (Start(c) >= 0 ==> Start(c) < |nn| && nn[Start(c)] != nn[c.at])
  }

  ghost predicate IsCut(nn: seq<Node>, c: Cut)
  {
    CutOk(nn, c) && exists k: nat, p, q :: FirstBalanced(nn, nn[c.at].ch, c.at, k, p, q) && CutFor(nn, c, p, q)
  }

  // ----- A level, and a tree -----------------------------------------------------------

  /** The nodes of a level and the place up to which, from the right, it has been looked at. */
  datatype Level = Level(nn: seq<Node>, i: int)

  ghost predicate Step(a: Level, b: Level)
  {
    && 0 <= a.i < |a.nn|
    && if LooseDelim(a.nn[a.i]) then
         exists c :: IsCut(a.nn, c) && c.at == a.i && b == Level(Applied(a.nn, c), Start(c))
       else b == Level(a.nn, a.i - 1)
  }

  ghost predicate Steps(trace: seq<Level>)
  {
    forall t | 0 <= t < |trace| - 1 :: StepAt(trace, t)
  }

  ghost predicate StepAt(trace: seq<Level>, t: nat)
    requires t + 1 < |trace|
  {
    Step(trace[t], trace[t + 1])
  }

  ghost predicate CutLevel(nodes: seq<Node>, nn: seq<Node>, trace: seq<Level>)
  {
    trace != [] && trace[0] == Level(nodes, |nodes| - 1) && trace[|trace| - 1] == Level(nn, -1) && Steps(trace)
  }

  /** nn is nodes with all lists: first those in its brackets, then those of the level itself. */
  ghost predicate Listed(nodes: seq<Node>, nn: seq<Node>)
    decreases nodes, 1
  {
    exists mid, trace :: InnerListed(nodes, mid) && CutLevel(mid, nn, trace)
  }

  ghost predicate InnerListed(nodes: seq<Node>, mid: seq<Node>)
    decreases nodes, 0
  {
    |mid| == |nodes| && forall k | 0 <= k < |nodes| :: ListedIn(nodes[k], mid[k])
  }

  ghost predicate ListedIn(n: Node, m: Node)
    decreases n, 0
  {
    match n
    case Bracket(open, clos, nodes) => m.Bracket? && m.open == open && m.clos == clos && Listed(nodes, m.nodes)
    case _ => m == n
  }

  // ----- There is only one way ---------------------------------------------------------

  lemma FirstBalancedUnique(nn: seq<Node>, ch: char, i: nat, k: nat, p: int, q: int, k': nat, p': int, q': int)
    requires i < |nn| && FirstBalanced(nn, ch, i, k, p, q) && FirstBalanced(nn, ch, i, k', p', q')
    ensures p == p' && q == q'
  {
    hide LeftEnd, RightEnd, BalancedAt;
    assert k == k' by {
      assert BalancedEnds(nn, ch, i, k, p, q) && BalancedEnds(nn, ch, i, k', p', q');
    }
    LeftEndUnique(nn, ch, i, k, p, p');
    RightEndUnique(nn, ch, i, k, q, q');
  }

  lemma FurthestLeftUnique(nn: seq<Node>, tok: set<char>, from: int, to: int, to': int)
    requires FurthestLeft(nn, tok, from, to) && FurthestLeft(nn, tok, from, to')
    ensures to == to'
  {
  }

  lemma FurthestRightUnique(nn: seq<Node>, tok: set<char>, from: int, to: int, to': int)
    requires FurthestRight(nn, tok, from, to) && FurthestRight(nn, tok, from, to')
    ensures to == to'
  {
  }

  lemma {:induction false} StopsUnique(nn: seq<Node>, c: Cut, d: Cut, p: int, q: int, m: nat)
    requires CutOk(nn, c) && CutOk(nn, d) && c.at == d.at && CutFor(nn, c, p, q) && CutFor(nn, d, p, q)
    requires m < |c.stops|
    ensures m < |d.stops| && c.stops[m] == d.stops[m]
  {
    hide Seen, FurthestLeft, FurthestRight;
    var tok := Seen(nn, p + 1, c.at) + Seen(nn, c.at + 1, q);
    if m == 0 {
      FurthestLeftUnique(nn, tok, p, c.stops[0], d.stops[0]);
    } else {
      StopsUnique(nn, c, d, p, q, m - 1);
      assert FurtherBlock(nn, nn[c.at].ch, tok, c.stops, m);
      assert nn[d.stops[m - 1]] == nn[c.at];
      assert FurtherBlock(nn, nn[c.at].ch, tok, d.stops, m);
      FurthestLeftUnique(nn, tok, c.stops[m - 1] - 1, c.stops[m], d.stops[m]);
    }
  }

  lemma CutUnique(nn: seq<Node>, c: Cut, d: Cut)
    requires IsCut(nn, c) && IsCut(nn, d) && c.at == d.at
    ensures c == d
  {
    hide FirstBalanced, Seen, FurthestLeft, FurthestRight, CutFor;
    var k: nat, p, q :| FirstBalanced(nn, nn[c.at].ch, c.at, k, p, q) && CutFor(nn, c, p, q);
    var k': nat, p', q' :| FirstBalanced(nn, nn[d.at].ch, d.at, k', p', q') && CutFor(nn, d, p', q');
    FirstBalancedUnique(nn, nn[c.at].ch, c.at, k, p, q, k', p', q');
    SameCut(nn, c, d, p, q);
  }

  lemma SameCut(nn: seq<Node>, c: Cut, d: Cut, p: int, q: int)
    requires CutOk(nn, c) && CutOk(nn, d) && c.at == d.at && CutFor(nn, c, p, q) && CutFor(nn, d, p, q)
    ensures c == d
  {
    var tok := Seen(nn, p + 1, c.at) + Seen(nn, c.at + 1, q);
    FurthestRightUnique(nn, tok, q, c.right, d.right);
    hide Seen, FurthestLeft, FurthestRight, CutFor;
    if |c.stops| < |d.stops| {
      StopsUnique(nn, d, c, p, q, |d.stops| - 1);
    } else if |d.stops| < |c.stops| {
      StopsUnique(nn, c, d, p, q, |c.stops| - 1);
    }
    forall m | 0 <= m < |c.stops| ensures c.stops[m] == d.stops[m] {
      StopsUnique(nn, c, d, p, q, m);
    }
  }

  lemma StepUnique(a: Level, b: Level, b': Level)
    requires Step(a, b) && Step(a, b')
    ensures b == b'
  {
    hide FirstBalanced, CutFor, Blocks;
    if LooseDelim(a.nn[a.i]) {
      var c :| IsCut(a.nn, c) && c.at == a.i && b == Level(Applied(a.nn, c), Start(c));
      var c' :| IsCut(a.nn, c') && c'.at == a.i && b' == Level(Applied(a.nn, c'), Start(c'));
      CutUnique(a.nn, c, c');
    }
  }

  lemma {:induction false} TraceUnique(s: seq<Level>, t: seq<Level>, k: nat)
    requires s != [] && t != [] && s[0] == t[0] && Steps(s) && Steps(t) && k < |s| && k < |t|
    ensures s[k] == t[k]
  {
    hide Step;
    if k > 0 {
      TraceUnique(s, t, k - 1);
      assert StepAt(s, k - 1) && StepAt(t, k - 1);
      StepUnique(s[k - 1], s[k], t[k]);
    }
  }

  lemma LevelUnique(nodes: seq<Node>, a: seq<Node>, s: seq<Level>, b: seq<Node>, t: seq<Level>)
    requires CutLevel(nodes, a, s) && CutLevel(nodes, b, t)
    ensures a == b
  {
    if |s| <= |t| {
      EndsAt(s, t);
    } else {
      EndsAt(t, s);
    }
  }

  lemma EndsAt(s: seq<Level>, t: seq<Level>)
    requires s != [] && t != [] && s[0] == t[0] && Steps(s) && Steps(t) && |s| <= |t| && s[|s| - 1].i == -1
    ensures |s| == |t| && s[|s| - 1] == t[|t| - 1]
  {
    var n := |s| - 1;
    TraceUnique(s, t, n);
    if n < |t| - 1 {
      NoStepFrom(t, n);
    }
  }

  lemma NoStepFrom(t: seq<Level>, n: nat)
    requires n + 1 < |t| && t[n].i == -1
    ensures !Steps(t)
  {
    assert !StepAt(t, n);
  }

  /** The lists of a tree are determined. */
  lemma {:induction false} ListedUnique(nodes: seq<Node>, a: seq<Node>, b: seq<Node>)
    requires Listed(nodes, a) && Listed(nodes, b)
    ensures a == b
    decreases nodes, 1
  {
    hide CutLevel, InnerListed;
    var mid, s :| InnerListed(nodes, mid) && CutLevel(mid, a, s);
    var mid', t :| InnerListed(nodes, mid') && CutLevel(mid', b, t);
    InnerUnique(nodes, mid, mid');
    LevelUnique(mid, a, s, b, t);
  }

  lemma {:induction false} InnerUnique(nodes: seq<Node>, a: seq<Node>, b: seq<Node>)
    requires InnerListed(nodes, a) && InnerListed(nodes, b)
    ensures a == b
    decreases nodes, 0
  {
    hide Listed;
    forall k | 0 <= k < |nodes| ensures a[k] == b[k] {
      assert ListedIn(nodes[k], a[k]) && ListedIn(nodes[k], b[k]);
      if nodes[k].Bracket? {
        ListedUnique(nodes[k].nodes, a[k].nodes, b[k].nodes);
      }
    }
  }
}
