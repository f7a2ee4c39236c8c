/** The third structuring pass: word, = or :, word becomes a key/value pair, on every bracket level. */
module KeyValues {
  import opened Brackets
  import opened VerseNodes

  predicate IsPairDelim(c: char)
  {
    c == '=' || c == ':'
  }

  /** A delimiter with words on both sides. */
  predicate TripleAt(nn: seq<Node>, i: int)
  {
    0 < i < |nn| - 1 && nn[i].Control? && IsPairDelim(nn[i].ch) && nn[i - 1].AlphaNum? && nn[i + 1].AlphaNum?
  }

  predicate NoTriple(nn: seq<Node>, end: int)
  {
    forall i | 0 < i < end && i < |nn| :: !TripleAt(nn, i)
  }

  /** No triple is left, on this level and in every bracket. */
  predicate PairsDone(nn: seq<Node>)
    decreases nn, 1
  {
    NoTriple(nn, |nn|) && forall k | 0 <= k < |nn| :: PairsDoneIn(nn[k])
  }

  predicate PairsDoneIn(n: Node)
    decreases n, 0
  {
    match n
    case Bracket(_, _, nodes) => PairsDone(nodes)
    case List(_, blocks) => forall k | 0 <= k < |blocks| :: PairsDone(blocks[k].nodes)
    case Line(_, nodes) => PairsDone(nodes)
    case _ => true
  }

  /** From left to right, each triple becomes a pair. */
  function PairsFrom(nn: seq<Node>, i: nat): seq<Node>
    decreases |nn| - i
  {
    if i >= |nn| then nn
    else if TripleAt(nn, i) then
      PairsFrom(nn[..i - 1] + [KeyVal(nn[i].ch, nn[i - 1].text, nn[i + 1].text)] + nn[i + 2..], i + 1)
    else PairsFrom(nn, i + 1)
  }

  /** Brackets first, then the level itself. */
  function Paired(nodes: seq<Node>): seq<Node>
    decreases nodes, 1
  {
    PairsFrom(InnerPaired(nodes), 0)
  }

  function InnerPaired(nodes: seq<Node>): (r: seq<Node>)
    ensures |r| == |nodes|
    decreases nodes, 0
  {
    seq(|nodes|, k requires 0 <= k < |nodes| => PairedIn(nodes[k]))
  }

  function PairedIn(n: Node): Node
    decreases n, 0
  {
    match n case Bracket(open, clos, nodes) => Bracket(open, clos, Paired(nodes)) case _ => n
  }

  /** Two words are joined by an equals sign and a colon and by nothing else. */
  lemma {:induction false} OnePair(key: string, c: char, value: string)
    ensures var three := [AlphaNum(key), Control(c), AlphaNum(value)];
            Paired(three) == if c == '=' || c == ':' then [KeyVal(c, key, value)] else three
  {
    var three := [AlphaNum(key), Control(c), AlphaNum(value)];
    assert InnerPaired(three) == three;
    PairsStep(three, 0);
    PairsStep(three, 1);
    PairsStep(three, 2);
    PairsEnd(three, 3);
    hide PairsFrom, InnerPaired;
    var pair := three[..0] + [KeyVal(c, key, value)] + three[3..];
    assert pair == [KeyVal(c, key, value)];
    PairsEnd(pair, 2);
  }

  lemma PairsStep(nn: seq<Node>, i: nat)
    requires i < |nn|
    ensures PairsFrom(nn, i) ==
              if TripleAt(nn, i) then
                PairsFrom(nn[..i - 1] + [KeyVal(nn[i].ch, nn[i - 1].text, nn[i + 1].text)] + nn[i + 2..], i + 1)
              else PairsFrom(nn, i + 1)
  {
  }

  lemma PairsEnd(nn: seq<Node>, i: nat)
    requires i >= |nn|
    ensures PairsFrom(nn, i) == nn
  {
  }

  /** What holds from this pass on: no matchable pair and no triple at any level. */
  predicate Formed(nn: seq<Node>)
  {
    Tidy(nn) && PairsDone(nn)
  }

  predicate FormedNode(n: Node)
  {
    TidyNode(n) && PairsDoneIn(n)
  }

  lemma {:induction false} TidySlice(nn: seq<Node>, lo: nat, hi: nat)
    requires lo <= hi <= |nn| && Tidy(nn)
    ensures Tidy(nn[lo..hi])
  {
    hide TidyNode;
    assert forall k | 0 <= k < hi - lo :: nn[lo..hi][k] == nn[lo + k];
  }

  lemma {:induction false} TidySplice(nn: seq<Node>, lo: nat, hi: nat, n: Node)
    requires lo <= hi <= |nn| && Tidy(nn) && TidyNode(n) && !n.Control?
    ensures var nn' := nn[..lo] + [n] + nn[hi..]; Tidy(nn') && NoNewControls(nn, nn')
  {
    hide TidyNode;
    SpliceNodes(nn, lo, hi, n);
  }

  /**
    Slices have no other triples, and neither have lists in which a stretch is replaced by
    anything but a word or a control.
  */
  lemma FormedSlice(nn: seq<Node>, lo: nat, hi: nat)
    requires lo <= hi <= |nn| && Formed(nn)
    ensures Formed(nn[lo..hi])
  {
    hide Tidy, PairsDoneIn;
    TidySlice(nn, lo, hi);
    var s := nn[lo..hi];
    assert forall k | 0 <= k < |s| :: s[k] == nn[lo + k];
    forall i | 0 < i < |s| ensures !TripleAt(s, i) {
      assert !TripleAt(nn, lo + i);
    }
  }

  lemma FormedSplice(nn: seq<Node>, lo: nat, hi: nat, n: Node)
    requires lo <= hi <= |nn| && Formed(nn) && FormedNode(n) && !n.Control? && !n.AlphaNum?
    ensures var nn' := nn[..lo] + [n] + nn[hi..]; Formed(nn') && NoNewControls(nn, nn')
  {
    hide Tidy, TidyNode, PairsDoneIn;
    TidySplice(nn, lo, hi, n);
    SpliceNodes(nn, lo, hi, n);
    var nn' := nn[..lo] + [n] + nn[hi..];
    forall i | 0 < i < |nn'| ensures !TripleAt(nn', i) {
      var k := if i < lo then i else if i == lo then 0 else i - lo - 1 + hi;
      assert !TripleAt(nn, k) || k == 0;
    }
  }

  /** A bracket with new content of the same control tokens. */
  lemma {:induction false} BracketTidy(b: Node, inner: seq<Node>)
    requires b.Bracket? && TidyNode(b) && Tidy(inner) && NoNewControls(b.nodes, inner)
    ensures TidyNode(Bracket(b.open, b.clos, inner))
  {
  }

  lemma SpliceNodes(nn: seq<Node>, lo: nat, hi: nat, n: Node)
    requires lo <= hi <= |nn|
    ensures var nn' := nn[..lo] + [n] + nn[hi..];
            && forall k | 0 <= k < |nn'| ::
                 nn'[k] == if k < lo then nn[k] else if k == lo then n else nn[k - lo - 1 + hi]
  {
  }

  lemma PairLeaves(nn: seq<Node>, i: nat)
    requires TripleAt(nn, i)
    ensures Leaves(KeyVal(nn[i].ch, nn[i - 1].text, nn[i + 1].text)) == LeavesAll(nn[i - 1..i + 2])
  {
    var j := i - 1;
    assert nn[j..j + 3] == [nn[j]] + [nn[j + 1]] + [nn[j + 2]];
    LeavesAppend([nn[j]], [nn[j + 1]]);
    LeavesAppend([nn[j]] + [nn[j + 1]], [nn[j + 2]]);
    LeavesOne(nn[j]);
    LeavesOne(nn[j + 1]);
    LeavesOne(nn[j + 2]);
  }

  /** Merging a triple: the index that the loop skips afterwards cannot start a new triple. */
  lemma MergeTriple(nn: seq<Node>, i: nat)
    requires TripleAt(nn, i) && NoTriple(nn, i) && SaneAll(nn) && NoLists(nn)
    requires forall k | 0 <= k < |nn| :: PairsDoneIn(nn[k])
    ensures var nn' := nn[..i - 1] + [KeyVal(nn[i].ch, nn[i - 1].text, nn[i + 1].text)] + nn[i + 2..];
            && LeavesAll(nn') == LeavesAll(nn) && NoTriple(nn', i + 1) && SaneAll(nn') && NoLists(nn')
            && forall k | 0 <= k < |nn'| :: PairsDoneIn(nn'[k])
  {
    hide Leaves, LeavesAll, PairsDone, Sane, NoListIn;
    var kv := KeyVal(nn[i].ch, nn[i - 1].text, nn[i + 1].text);
    var nn' := nn[..i - 1] + [kv] + nn[i + 2..];
    PairLeaves(nn, i);
    LeavesSplice(nn, i - 1, i + 2, kv);
    SpliceNodes(nn, i - 1, i + 2, kv);
    PairIsSane(kv);
    forall p | 0 < p < i + 1 && p < |nn'| ensures !TripleAt(nn', p) {
      if p < i - 2 {
        assert TripleAt(nn', p) ==> TripleAt(nn, p);
      }
    }
  }

  lemma {:induction false} PairIsSane(kv: Node)
    requires kv.KeyVal? && IsPairDelim(kv.delim)
    ensures Sane(kv) && NoListIn(kv)
  {
  }

  lemma SetBracket(nn: seq<Node>, k: nat, inner: seq<Node>)
    requires k < |nn| && nn[k].Bracket? && LeavesAll(inner) == LeavesAll(nn[k].nodes)
    requires SaneAll(nn) && SaneAll(inner)
    ensures var nn' := nn[k := Bracket(nn[k].open, nn[k].clos, inner)];
            && LeavesAll(nn') == LeavesAll(nn) && SaneAll(nn')
            && (NoLists(inner) && NoLists(nn) ==> NoLists(nn'))
  {
    var b := Bracket(nn[k].open, nn[k].clos, inner);
    assert nn[k..k + 1] == [nn[k]];
    LeavesOne(nn[k]);
    LeavesSplice(nn, k, k + 1, b);
    assert nn[k := b] == nn[..k] + [b] + nn[k + 1..];
    assert Sane(nn[k]);
  }

  method StructureKeyValue(nodes: seq<Node>) returns (nn: seq<Node>)
    requires SaneAll(nodes) && NoLists(nodes) && Tidy(nodes)
    ensures LeavesAll(nn) == LeavesAll(nodes)
    ensures Formed(nn) && SaneAll(nn) && NoLists(nn) && NoNewControls(nodes, nn) && nn == Paired(nodes)
    decreases nodes
  {
    hide Leaves, LeavesAll, Tidy, PairsDone, SaneAll, NoLists, PairsFrom, Paired;
    nn := nodes;
    for k := 0 to |nn|
      invariant |nn| == |nodes| && nn[k..] == nodes[k..]
      invariant LeavesAll(nn) == LeavesAll(nodes) && SaneAll(nn) && NoLists(nn)
      invariant Tidy(nn) && NoNewControls(nodes, nn)
      invariant forall j | 0 <= j < k :: PairsDoneIn(nn[j]) && nn[j] == PairedIn(nodes[j])
    {
      assert nn[k] == nn[k..][0] == nodes[k];
      NodeFacts(nn, k);
      if nn[k].Bracket? {
        var inner := StructureKeyValue(nodes[k].nodes);
        SetBracket(nn, k, inner);
        SetTidy(nn, k, inner);
        NoNewControlsTrans(nodes, nn, nn[k := Bracket(nn[k].open, nn[k].clos, inner)]);
        nn := nn[k := Bracket(nn[k].open, nn[k].clos, inner)];
      }
    }
    ghost var before := nn;
    PairedBy(nodes, nn);
    nn := MergePairs(nn);
    NoNewControlsTrans(nodes, before, nn);
  }

  lemma {:induction false} PairedBy(nodes: seq<Node>, nn: seq<Node>)
    requires |nn| == |nodes| && forall k | 0 <= k < |nodes| :: nn[k] == PairedIn(nodes[k])
    ensures PairsFrom(nn, 0) == Paired(nodes)
  {
    hide PairedIn, PairsFrom;
    assert nn == InnerPaired(nodes);
  }

  lemma {:induction false} NodeFacts(nn: seq<Node>, k: nat)
    requires SaneAll(nn) && NoLists(nn) && Tidy(nn) && k < |nn|
    ensures if nn[k].Bracket? then SaneAll(nn[k].nodes) && NoLists(nn[k].nodes) && Tidy(nn[k].nodes)
            else PairsDoneIn(nn[k])
  {
    assert Sane(nn[k]) && NoListIn(nn[k]) && TidyNode(nn[k]);
  }

  lemma SetTidy(nn: seq<Node>, k: nat, inner: seq<Node>)
    requires k < |nn| && nn[k].Bracket? && Tidy(nn) && Tidy(inner) && NoNewControls(nn[k].nodes, inner)
    ensures var nn' := nn[k := Bracket(nn[k].open, nn[k].clos, inner)]; Tidy(nn') && NoNewControls(nn, nn')
  {
    var b := Bracket(nn[k].open, nn[k].clos, inner);
    BracketTidy(nn[k], inner);
    TidySplice(nn, k, k + 1, b);
    assert nn[k := b] == nn[..k] + [b] + nn[k + 1..];
  }

  lemma SameControls(nn: seq<Node>)
    ensures NoNewControls(nn, nn)
  {
  }

  lemma MergeTidy(nodes: seq<Node>, nn: seq<Node>, i: nat)
    requires TripleAt(nn, i) && Tidy(nn) && NoNewControls(nodes, nn)
    ensures var nn' := nn[..i - 1] + [KeyVal(nn[i].ch, nn[i - 1].text, nn[i + 1].text)] + nn[i + 2..];
            Tidy(nn') && NoNewControls(nodes, nn')
  {
    var kv := KeyVal(nn[i].ch, nn[i - 1].text, nn[i + 1].text);
    TidySplice(nn, i - 1, i + 2, kv);
    NoNewControlsTrans(nodes, nn, nn[..i - 1] + [kv] + nn[i + 2..]);
  }

  method MergePairs(nodes: seq<Node>) returns (nn: seq<Node>)
    requires SaneAll(nodes) && NoLists(nodes) && Tidy(nodes) && forall k | 0 <= k < |nodes| :: PairsDoneIn(nodes[k])
    ensures LeavesAll(nn) == LeavesAll(nodes)
    ensures Formed(nn) && SaneAll(nn) && NoLists(nn) && NoNewControls(nodes, nn) && nn == PairsFrom(nodes, 0)
  {
    hide Leaves, LeavesAll, SaneAll, NoLists, Tidy, PairsDoneIn, NoNewControls;
    SameControls(nodes);
    nn := nodes;
    var i := 0;
    while i < |nn|
      invariant 0 <= i
      invariant LeavesAll(nn) == LeavesAll(nodes) && SaneAll(nn) && NoLists(nn)
      invariant Tidy(nn) && NoNewControls(nodes, nn)
      invariant NoTriple(nn, i) && PairsFrom(nn, i) == PairsFrom(nodes, 0)
      invariant forall k | 0 <= k < |nn| :: PairsDoneIn(nn[k])
      decreases |nn| - i
    {
      if nn[i].Control? && IsPairDelim(nn[i].ch) && i != 0 && i != |nn| - 1 {
        if nn[i - 1].AlphaNum? && nn[i + 1].AlphaNum? {
          MergeTriple(nn, i);
          MergeTidy(nodes, nn, i);
          nn := nn[..i - 1] + [KeyVal(nn[i].ch, nn[i - 1].text, nn[i + 1].text)] + nn[i + 2..];
        }
      }
      i := i + 1;
    }
  }
}
