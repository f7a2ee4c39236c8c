/** Building a verse: tokenizing, the five structuring passes, and the list of all nodes of the result. */
module Verse {
  import opened Brackets
  import opened KeyValues
  import opened Lines
  import opened ListCuts
  import opened Lists
  import opened Numbers
  import opened Tokenizer
  import opened VerseNodes
  import opened Wrappers

  lemma TokensAreFlat(nn: seq<Node>)
    requires Tokens(nn)
    ensures Flat(nn)
  {
    forall k | 0 <= k < |nn| ensures nn[k].Ws? || nn[k].AlphaNum? || nn[k].Num? || nn[k].Control? {
      assert IsToken(nn[k]);
    }
  }

  /** The tokens that a text is structured from: its own, with all numbers joined. */
  predicate NumberTokens(tokens: seq<Node>, numbers: seq<Node>)
  {
    Flat(numbers) && NumbersDone(numbers) && TextAll(numbers) == TextAll(tokens)
  }

  /**
    The five passes in order. The first one joins numbers, the others only group tokens: their order
    and their text stay. At every level of the final tree no brackets can be matched, no key/value pair
    can be merged, no list delimiter is loose and no line is uncut.
  */
  method Structure(tokens: seq<Node>) returns (nn: seq<Node>, ghost numbers: seq<Node>, ghost listed: seq<Node>)
    requires Flat(tokens)
    ensures numbers == Swept(tokens) && NumberTokens(tokens, numbers) && LeavesAll(nn) == LeavesAll(numbers)
    ensures TextAll(nn) == TextAll(tokens)
    ensures WholeAll(nn) && LinesDone(nn)
    ensures Tidy(nn) && PairsDone(nn) && ListsDone(nn)
    ensures Listed(Paired(BracketsFrom(numbers, 0)), listed) && nn == Lined(listed)
  {
    hide Swept, Lined, Text, TextAll, Leaves, LeavesAll, WholeAll, LinesDone, Tidy, PairsDone, ListsDone,
         BracketsFrom, Paired, Listed;
    nn := ExtractNumbers(tokens);
    numbers := nn;
    LeavesSpellAll(numbers);
    nn := StructureBrackets(nn);
    MatchedIsSane(nn);
    MatchedIsTidy(nn);
    nn := StructureKeyValue(nn);
    nn := StructureLists(nn);
    listed := nn;
    nn := StructureLines(nn);
    LeavesSpellAll(nn);
  }

  predicate IsPrintable(c: char)
  {
    ' ' <= c < 0x7f as char
  }

  function PrintableCount(data: string): nat
  {
    if data == "" then 0 else PrintableCount(data[..|data| - 1]) + if IsPrintable(data[|data| - 1]) then 1 else 0
  }

  lemma PrintableCodes(c: char)
    ensures IsPrintable(c) <==> 32 <= c as int <= 126
  {
  }

  /** At least nine tenths of the characters are printable (rounded down). */
  predicate IsTexty(data: string)
  {
    PrintableCount(data) >= |data| * 9 / 10
  }

  datatype Item = NodeItem(n: Node) | BlockItem(b: Block)

  /** A verse: what was learned, and every node in it for picking at random. */
  datatype Verse = Verse(blocks: seq<Block>, allNodes: seq<Item>)

  function VisitNode(n: Node): seq<Item>
    decreases n, 0
  {
    [NodeItem(n)] +
    match n
    case Bracket(_, _, nodes) => VisitBlock(nodes)
    case KeyVal(_, key, value) => [NodeItem(AlphaNum(key)), NodeItem(AlphaNum(value))]
    case List(_, blocks) => VisitBlocks(blocks)
    case Line(_, nodes) => VisitBlock(nodes)
    case _ => []
  }

  function VisitBlock(nodes: seq<Node>): seq<Item>
    decreases nodes, 1
  {
    [BlockItem(Block(nodes))] + VisitNodes(nodes)
  }

  function VisitNodes(nodes: seq<Node>): seq<Item>
    decreases nodes, 0
  {
    if nodes == [] then [] else VisitNode(nodes[0]) + VisitNodes(nodes[1..])
  }

  function VisitBlocks(blocks: seq<Block>): seq<Item>
    decreases blocks, 0
  {
    if blocks == [] then [] else VisitBlock(blocks[0].nodes) + VisitBlocks(blocks[1..])
  }

  /** What lies directly in a node or block of the tree. */
  function Children(it: Item): seq<Item>
  {
    match it
    case NodeItem(Bracket(_, _, nodes)) => [BlockItem(Block(nodes))]
    case NodeItem(KeyVal(_, key, value)) => [NodeItem(AlphaNum(key)), NodeItem(AlphaNum(value))]
    case NodeItem(List(_, blocks)) => seq(|blocks|, k requires 0 <= k < |blocks| => BlockItem(blocks[k]))
    case NodeItem(Line(_, nodes)) => [BlockItem(Block(nodes))]
    case BlockItem(b) => seq(|b.nodes|, k requires 0 <= k < |b.nodes| => NodeItem(b.nodes[k]))
    case _ => []
  }

  /** With the roots everything below them is listed, and nothing else. */
  ghost predicate Complete(roots: seq<Item>, items: seq<Item>)
  {
    && (forall it | it in roots :: it in items)
    && (forall it, c | it in items && c in Children(it) :: c in items)
    && forall it | it in items && it !in roots :: exists p :: p in items && it in Children(p)
  }

  lemma CompleteJoin(a: seq<Item>, x: seq<Item>, b: seq<Item>, y: seq<Item>)
    requires Complete(a, x) && Complete(b, y)
    ensures Complete(a + b, x + y)
  {
    hide Children;
    forall it | it in x + y && it !in a + b ensures exists p :: p in x + y && it in Children(p) {
      if it in x {
        var p :| p in x && it in Children(p);
        assert p in x + y;
      } else {
        var p :| p in y && it in Children(p);
        assert p in x + y;
      }
    }
  }

  lemma CompleteRoot(root: Item, below: seq<Item>)
    requires Complete(Children(root), below)
    ensures Complete([root], [root] + below)
  {
    hide Children;
    var all := [root] + below;
    forall it | it in all && it !in [root] ensures exists p :: p in all && it in Children(p) {
      if it in Children(root) {
        assert root in all;
      } else {
        var p :| p in below && it in Children(p);
        assert p in all;
      }
    }
  }

  /** The list of all nodes holds exactly the node, and what is anywhere in it. */
  lemma {:induction false} NodeVisited(n: Node)
    ensures Complete([NodeItem(n)], VisitNode(n))
    decreases n, 0
  {
    hide Complete;
    match n
    case Bracket(_, _, nodes) =>
      BlockVisited(nodes);
      CompleteRoot(NodeItem(n), VisitBlock(nodes));
    case KeyVal(_, key, value) =>
      NothingBelow(AlphaNum(key));
      NothingBelow(AlphaNum(value));
      CompleteJoin([NodeItem(AlphaNum(key))], [NodeItem(AlphaNum(key))],
                   [NodeItem(AlphaNum(value))], [NodeItem(AlphaNum(value))]);
      assert Children(NodeItem(n)) == [NodeItem(AlphaNum(key))] + [NodeItem(AlphaNum(value))];
      CompleteRoot(NodeItem(n), [NodeItem(AlphaNum(key)), NodeItem(AlphaNum(value))]);
    case List(_, blocks) =>
      BlocksVisited(blocks);
      CompleteRoot(NodeItem(n), VisitBlocks(blocks));
    case Line(_, nodes) =>
      BlockVisited(nodes);
      CompleteRoot(NodeItem(n), VisitBlock(nodes));
    case _ =>
      NothingBelow(n);
      assert VisitNode(n) == [NodeItem(n)];
  }

  lemma NothingBelow(n: Node)
    requires n.Ws? || n.AlphaNum? || n.Num? || n.Control?
    ensures Complete([NodeItem(n)], [NodeItem(n)])
  {
  }

  lemma {:induction false} BlockVisited(nodes: seq<Node>)
    ensures Complete([BlockItem(Block(nodes))], VisitBlock(nodes))
    decreases nodes, 1
  {
    hide Complete;
    NodesVisited(nodes);
    CompleteRoot(BlockItem(Block(nodes)), VisitNodes(nodes));
  }

  lemma {:induction false} NodesVisited(nodes: seq<Node>)
    ensures Complete(Children(BlockItem(Block(nodes))), VisitNodes(nodes))
    decreases nodes, 0
  {
    if nodes != [] {
      var rest := nodes[1..];
      NodeVisited(nodes[0]);
      NodesVisited(rest);
      assert Children(BlockItem(Block(nodes))) == [NodeItem(nodes[0])] + Children(BlockItem(Block(rest)));
      CompleteJoin([NodeItem(nodes[0])], VisitNode(nodes[0]), Children(BlockItem(Block(rest))), VisitNodes(rest));
    }
  }

  lemma {:induction false} BlocksVisited(blocks: seq<Block>)
    ensures Complete(Children(NodeItem(List(',', blocks))), VisitBlocks(blocks))
    decreases blocks, 0
  {
    if blocks != [] {
      var rest := blocks[1..];
      BlockVisited(blocks[0].nodes);
      BlocksVisited(rest);
      var first := BlockItem(blocks[0]);
      assert Block(blocks[0].nodes) == blocks[0];
      assert Children(NodeItem(List(',', blocks))) == [first] + Children(NodeItem(List(',', rest)));
      CompleteJoin([first], VisitBlock(blocks[0].nodes), Children(NodeItem(List(',', rest))), VisitBlocks(rest));
    }
  }

  method CountPrintable(data: string) returns (printable: nat)
    ensures printable == PrintableCount(data)
  {
    printable := 0;
    for i := 0 to |data|
      invariant printable == PrintableCount(data[..i])
    {
      assert data[..i + 1][..i] == data[..i];
      if IsPrintable(data[i]) {
        printable := printable + 1;
      }
    }
    assert data[..|data|] == data;
  }

  /** What BuildVerse adds to a verse for a text: one block that spells the text without its trailing blanks. */
  predicate Learned(oldv: Option<Verse>, v: Verse, data: string)
  {
    var prior := if oldv.Some? then oldv.value else Verse([], []);
    && |v.blocks| == |prior.blocks| + 1
    && v.blocks[..|prior.blocks|] == prior.blocks
    && var b := v.blocks[|prior.blocks|];
       && TextAll(b.nodes) == StripBlanks(data)
       && WholeAll(b.nodes) && LinesDone(b.nodes)
       && Tidy(b.nodes) && PairsDone(b.nodes) && ListsDone(b.nodes)
       && v.allNodes == prior.allNodes + VisitBlock(b.nodes)
  }

  /** Lossless learning: the verse grows by a block with the text of the input, unless the input is not texty. */
  method BuildVerse(oldv: Option<Verse>, data: string) returns (newv: Option<Verse>)
    ensures !IsTexty(data) ==> newv == oldv
    ensures IsTexty(data) ==> newv.Some? && Learned(oldv, newv.value, data)
  {
    var printable := CountPrintable(data);
    if printable < |data| * 9 / 10 {
      return oldv;
    }
    var blocks, allNodes := [], [];
    if oldv.Some? {
      blocks, allNodes := oldv.value.blocks, oldv.value.allNodes;
    }
    var nn := Tokenize(data);
    TokensAreFlat(nn);
    var tokens := nn;
    ghost var numbers, listed;
    nn, numbers, listed := Structure(tokens);
    newv := Some(Verse(blocks + [Block(nn)], allNodes + VisitBlock(nn)));
  }
}
