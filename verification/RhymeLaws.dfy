/**
  What the generator can write, whatever the draws: the exact language of the leaves, of pairs, lines
  and brackets, and what lists and blocks are put together from.
*/
module RhymeLaws {
  import opened Rhyme
  import opened Verse
  import opened VerseNodes

  ghost predicate CanSay(all: seq<Item>, n: Node, s: string)
  {
    exists draws, rest :: GenNode(all, n, draws) == Out(s, rest)
  }

  ghost predicate BlockCanSay(all: seq<Item>, nodes: seq<Node>, s: string)
  {
    exists draws, rest :: GenBlock(all, nodes, draws) == Out(s, rest)
  }

  // ----- Blanks ------------------------------------------------------------------------

  predicate Blanks(s: string)
  {
    forall k | 0 <= k < |s| :: s[k] == ' ' || s[k] == '\t'
  }

  lemma {:induction false} BlanksOnly(draws: seq<nat>)
    ensures var r := RandBlanks(draws); r.Out? ==> Blanks(r.value)
    decreases |draws|
  {
    var k := Rand(draws, 3);
    if k.Out? && k.value != 0 {
      BlanksOnly(k.rest);
    }
  }

  lemma {:induction false} BlanksPossible(s: string, tail: seq<nat>) returns (draws: seq<nat>)
    requires Blanks(s)
    ensures RandBlanks(draws + tail) == Out(s, tail)
  {
    if s == "" {
      draws := [0];
      Draw1(0, tail, 3);
    } else {
      var more := BlanksPossible(s[1..], tail);
      var k := if s[0] == ' ' then 1 else 2;
      draws := [k] + more;
      assert draws + tail == [k] + (more + tail);
      Draw1(k, more + tail, 3);
      assert s == [s[0]] + s[1..];
    }
  }

  // ----- Words -------------------------------------------------------------------------

  predicate WordChar(c: char)
  {
    c == '_' || '0' <= c <= '9' || 'a' <= c <= 'z' || 'A' <= c <= 'Z'
  }

  predicate RandomWord(s: string)
  {
    |s| < 100 && forall k | 0 <= k < |s| :: WordChar(s[k])
  }

  lemma CharOnly(draws: seq<nat>)
    ensures var r := RandWordChar(draws); r.Out? ==> WordChar(r.value)
  {
  }

  lemma {:induction false} AlphaOnly(len: nat, draws: seq<nat>)
    ensures var r := RandAlpha(len, draws);
            r.Out? ==> |r.value| == len && forall k | 0 <= k < len :: WordChar(r.value[k])
    decreases len
  {
    if len > 0 && RandWordChar(draws).Out? {
      CharOnly(draws);
      AlphaOnly(len - 1, RandWordChar(draws).rest);
    }
  }

  lemma FromPossible(base: char, n: nat, c: char, tail: seq<nat>)
    requires base as int + n <= 128 && base <= c && c as int < base as int + n
    ensures RandFrom(base, n, [c as int - base as int] + tail) == Out(c, tail)
  {
    Draw1(c as int - base as int, tail, n);
  }

  /** The draws for one character of a word. */
  lemma CharPossible(c: char, tail: seq<nat>) returns (draws: seq<nat>)
    requires WordChar(c)
    ensures RandWordChar(draws + tail) == Out(c, tail)
  {
    hide RandFrom;
    if c == '_' {
      draws := [0];
      Draw1(0, tail, 4);
    } else {
      var k, base, n := if '0' <= c <= '9' then 1 else if 'a' <= c <= 'z' then 2 else 3,
                        if '0' <= c <= '9' then '0' else if 'a' <= c <= 'z' then 'a' else 'A',
                        if '0' <= c <= '9' then 10 else 26;
      draws := [k, c as int - base as int];
      assert draws + tail == [k] + ([c as int - base as int] + tail);
      Draw1(k, [c as int - base as int] + tail, 4);
      FromPossible(base, n, c, tail);
    }
  }

  lemma Draw2(j: nat, k: nat, tail: seq<nat>, m: nat, n: nat)
    requires j < m && k < n
    ensures Rand([j, k] + tail, m) == Out(j, [k] + tail) && Rand([k] + tail, n) == Out(k, tail)
  {
    assert [j, k] + tail == [j] + ([k] + tail);
    Draw1(j, [k] + tail, m);
    Draw1(k, tail, n);
  }

  lemma {:induction false} AlphaPossible(s: string, tail: seq<nat>) returns (draws: seq<nat>)
    requires forall k | 0 <= k < |s| :: WordChar(s[k])
    ensures RandAlpha(|s|, draws + tail) == Out(s, tail)
  {
    hide RandWordChar;
    if s == "" {
      draws := [];
      assert draws + tail == tail;
    } else {
      var more := AlphaPossible(s[1..], tail);
      var first := CharPossible(s[0], more + tail);
      draws := first + more;
      assert draws + tail == first + (more + tail);
      assert s == [s[0]] + s[1..];
    }
  }

  /** A word: the one that was learned, or any word of less than 100 characters. */
  predicate WordSays(t: string, s: string)
  {
    s == t || RandomWord(s)
  }

  lemma WordOnly(t: string, draws: seq<nat>)
    ensures var r := GenAlphaNum(t, draws); r.Out? ==> WordSays(t, r.value)
  {
    var k := Rand(draws, 5);
    if k.Out? && k.value == 0 {
      var len := RandLen(k.rest, 4, 20, 100);
      if len.Out? {
        AlphaOnly(len.value, len.rest);
      }
    }
  }

  lemma LenPossible(len: nat, tail: seq<nat>, small: nat, medium: nat, large: nat)
    requires len < large
    ensures RandLen([2, len] + tail, small, medium, large) == Out(len, tail)
  {
    Draw2(2, len, tail, 3, large);
  }

  lemma WordPossible(t: string, s: string, tail: seq<nat>) returns (draws: seq<nat>)
    requires WordSays(t, s)
    ensures GenAlphaNum(t, draws + tail) == Out(s, tail)
  {
    if s == t {
      draws := [1, 0];
      TermDraws(t, tail);
    } else {
      hide RandAlpha;
      var more := AlphaPossible(s, tail);
      var rest := more + tail;
      draws := [0, 2, |s|] + more;
      assert draws + tail == [0] + ([2, |s|] + rest);
      Draw1(0, [2, |s|] + rest, 5);
      LenPossible(|s|, rest, 4, 20, 100);
    }
  }

  // ----- Numbers -----------------------------------------------------------------------

  predicate DigitOf(base: nat, c: char)
  {
    if base == 8 then '0' <= c <= '7'
    else if base == 10 then '0' <= c <= '9'
    else '0' <= c <= '9' || 'a' <= c <= 'f' || 'A' <= c <= 'F'
  }

  predicate DigitsOf(base: nat, s: string)
  {
    forall k | 0 <= k < |s| :: DigitOf(base, s[k])
  }

  function Prefix(base: nat): string
  {
    if base == 8 then "0" else if base == 16 then "0x" else ""
  }

  /** Up to 40 digits in base 8, 10 or 16, with the prefix of the base and perhaps a sign. */
  predicate NumeralOf(base: nat, neg: bool, digits: string, s: string)
  {
    && (base == 8 || base == 10 || base == 16) && 1 <= |digits| <= 40 && DigitsOf(base, digits)
    && s == (if neg then "-" else "") + (Prefix(base) + digits)
  }

  ghost predicate Numeral(s: string)
  {
    exists base, neg, digits :: NumeralOf(base, neg, digits, s)
  }

  ghost predicate NumberSays(t: string, s: string)
  {
    s == t || Numeral(s) || exists a, b :: Numeral(a) && Numeral(b) && (s == a + "." + b || s == a + "e" + b)
  }

  lemma DigitOnly(base: nat, draws: seq<nat>)
    ensures var r := RandDigit(base, draws); r.Out? ==> DigitOf(base, r.value)
  {
  }

  lemma {:induction false} DigitsOnly(base: nat, len: nat, draws: seq<nat>)
    ensures var r := RandDigits(base, len, draws); r.Out? ==> |r.value| == len && DigitsOf(base, r.value)
    decreases len
  {
    hide DigitOf;
    if len > 0 && RandDigit(base, draws).Out? {
      DigitOnly(base, draws);
      DigitsOnly(base, len - 1, RandDigit(base, draws).rest);
    }
  }

  lemma DigitPossible(base: nat, c: char, tail: seq<nat>) returns (draws: seq<nat>)
    requires (base == 8 || base == 10 || base == 16) && DigitOf(base, c)
    ensures RandDigit(base, draws + tail) == Out(c, tail)
  {
    hide RandFrom;
    if base != 16 {
      draws := [c as int - '0' as int];
      FromPossible('0', if base == 8 then 8 else 10, c, tail);
    } else {
      var k, from, n := if '0' <= c <= '9' then 0 else if 'a' <= c <= 'f' then 1 else 2,
                        if '0' <= c <= '9' then '0' else if 'a' <= c <= 'f' then 'a' else 'A',
                        if '0' <= c <= '9' then 10 else 6;
      draws := [k, c as int - from as int];
      assert draws + tail == [k] + ([c as int - from as int] + tail);
      Draw1(k, [c as int - from as int] + tail, 3);
      FromPossible(from, n, c, tail);
    }
  }

  lemma {:induction false} DigitsPossible(base: nat, s: string, tail: seq<nat>) returns (draws: seq<nat>)
    requires (base == 8 || base == 10 || base == 16) && DigitsOf(base, s)
    ensures RandDigits(base, |s|, draws + tail) == Out(s, tail)
  {
    hide RandDigit, DigitOf;
    if s == "" {
      draws := [];
      assert draws + tail == tail;
    } else {
      var more := DigitsPossible(base, s[1..], tail);
      var first := DigitPossible(base, s[0], more + tail);
      draws := first + more;
      assert draws + tail == first + (more + tail);
      assert s == [s[0]] + s[1..];
    }
  }

  lemma NumOnly(draws: seq<nat>)
    ensures var r := RandNum(draws); r.Out? ==> Numeral(r.value)
  {
    hide RandLen, RandDigits;
    var r := RandNum(draws);
    if r.Out? {
      var (b, d) := Rand(draws, 3).Extract();
      var base := if b == 0 then 8 else if b == 1 then 10 else 16;
      LenOnly(d, 4, 16, 40);
      var (len, d1) := RandLen(d, 4, 16, 40).Extract();
      DigitsOnly(base, len + 1, d1);
      var (digits, d2) := RandDigits(base, len + 1, d1).Extract();
      var neg := Rand(d2, 2).value == 0;
      assert NumeralOf(base, neg, digits, r.value);
    }
  }

  lemma LenOnly(draws: seq<nat>, small: nat, medium: nat, large: nat)
    requires small <= large && medium <= large
    ensures var r := RandLen(draws, small, medium, large); r.Out? ==> r.value < large
  {
  }

  lemma NumPossible(s: string, tail: seq<nat>) returns (draws: seq<nat>)
    requires Numeral(s)
    ensures RandNum(draws + tail) == Out(s, tail)
  {
    hide RandLen, RandDigits, DigitsOf;
    var base, neg, digits :| NumeralOf(base, neg, digits, s);
    var b, k, len := if base == 8 then 0 else if base == 10 then 1 else 2, if neg then 0 else 1, |digits| - 1;
    var more := DigitsPossible(base, digits, [k] + tail);
    var rest := more + ([k] + tail);
    draws := [b] + [2, len] + more + [k];
    assert draws + tail == [b] + ([2, len] + rest);
    Draw1(b, [2, len] + rest, 3);
    LenPossible(len, rest, 4, 16, 40);
    Draw1(k, tail, 2);
    assert "" + (Prefix(base) + digits) == Prefix(base) + digits;
  }

  lemma NumberOnly(t: string, draws: seq<nat>)
    ensures var r := GenNum(t, draws); r.Out? ==> NumberSays(t, r.value)
  {
    hide RandNum, Numeral;
    var r := GenNum(t, draws);
    if r.Out? {
      var (k, d) := Rand(draws, 2).Extract();
      if k == 0 {
        assert r.value == t;
      } else {
        var (form, d1) := Rand(d, 3).Extract();
        NumOnly(d1);
        var (a, d2) := RandNum(d1).Extract();
        NumOnly(d2);
        if form == 0 {
          assert r.value == a;
        } else {
          var b := RandNum(d2).value;
          assert r.value == a + (if form == 1 then "." else "e") + b;
          assert Numeral(a) && Numeral(b) && (r.value == a + "." + b || r.value == a + "e" + b);
        }
      }
    }
  }

  lemma NumberPossible(t: string, s: string) returns (draws: seq<nat>)
    requires NumberSays(t, s)
    ensures GenNum(t, draws) == Out(s, [])
  {
    hide RandNum, Numeral;
    if s == t {
      draws := [0, 0];
      TermDraws(t, []);
      assert draws + [] == draws;
    } else if Numeral(s) {
      var num := NumPossible(s, []);
      draws := [1, 0] + num;
      assert num + [] == num;
      Draw2(1, 0, num, 2, 3);
    } else {
      var a, b :| Numeral(a) && Numeral(b) && (s == a + "." + b || s == a + "e" + b);
      var second := NumPossible(b, []);
      var first := NumPossible(a, second);
      var form := if s == a + "." + b then 1 else 2;
      draws := [1, form] + (first + second);
      assert second + [] == second;
      Draw2(1, form, first + second, 2, 3);
    }
  }

  // ----- Other characters --------------------------------------------------------------

  predicate ControlSays(ch: char, s: string)
  {
    s == [ch] || (|s| == 1 && s[0] as int < 128 && (s[0] == '_' || !WordChar(s[0])))
  }

  lemma {:induction false} ControlOnly(ch: char, draws: seq<nat>)
    ensures var r := RandControl(draws); r.Out? ==> ControlSays(ch, r.value)
    decreases |draws|
  {
    var b := Rand(draws, 128);
    if b.Out? && WordChar(b.value as char) && b.value as char != '_' {
      ControlOnly(ch, b.rest);
    }
  }

  // ----- The language of the leaves ----------------------------------------------------

  /** The learned text, or whatever looks like it. */
  ghost predicate LeafSays(n: Node, s: string)
  {
    match n
    case Ws(t) => s == t || Blanks(s)
    case AlphaNum(t) => WordSays(t, s)
    case Num(t, _) => NumberSays(t, s)
    case Control(ch) => ControlSays(ch, s)
    case _ => false
  }

  predicate IsLeaf(n: Node)
  {
    n.Ws? || n.AlphaNum? || n.Num? || n.Control?
  }

  lemma {:induction false} LeafOnly(all: seq<Item>, n: Node, draws: seq<nat>)
    requires IsLeaf(n)
    ensures var r := GenNode(all, n, draws); r.Out? ==> LeafSays(n, r.value)
  {
    hide NumberSays, WordSays, Blanks, GenNum, GenAlphaNum, RandBlanks, RandControl;
    match n
    case Ws(t) =>
      if Rand(draws, 5).Out? {
        BlanksOnly(Rand(draws, 5).rest);
      }
    case AlphaNum(t) => WordOnly(t, draws);
    case Num(t, _) => NumberOnly(t, draws);
    case Control(ch) =>
      if Rand(draws, 10).Out? {
        ControlOnly(ch, Rand(draws, 10).rest);
      }
  }

  lemma LeafPossible(all: seq<Item>, n: Node, s: string)
    requires IsLeaf(n) && LeafSays(n, s)
    ensures CanSay(all, n, s)
  {
    hide NumberSays, WordSays, Blanks, GenNum, GenAlphaNum, RandBlanks;
    match n
    case Ws(t) => WsPossible(all, t, s);
    case AlphaNum(t) =>
      var draws := WordPossible(t, s, []);
      assert GenNode(all, n, draws + []) == Out(s, []);
    case Num(t, _) =>
      var draws := NumberPossible(t, s);
      assert GenNode(all, n, draws) == Out(s, []);
    case Control(ch) => ControlPossible(all, ch, s);
  }

  lemma WsPossible(all: seq<Item>, t: string, s: string)
    requires s == t || Blanks(s)
    ensures CanSay(all, Ws(t), s)
  {
    hide Blanks, RandBlanks;
    if s == t {
      Draw2(1, 0, [], 5, 1);
      assert [1, 0] + [] == [1, 0] && [0] + [] == [0];
      assert GenNode(all, Ws(t), [1, 0]) == Out(s, []);
    } else {
      var blanks := BlanksPossible(s, []);
      assert blanks + [] == blanks;
      Draw1(0, blanks, 5);
      assert GenNode(all, Ws(t), [0] + blanks) == Out(s, []);
    }
  }

  lemma ControlPossible(all: seq<Item>, ch: char, s: string)
    requires ControlSays(ch, s)
    ensures CanSay(all, Control(ch), s)
  {
    if s == [ch] {
      assert GenNode(all, Control(ch), [1]) == Out(s, []);
    } else {
      var b := s[0] as int;
      assert s == [s[0]] && [0, b][1..] == [b];
      assert RandControl([b]) == Out(s, []);
      assert GenNode(all, Control(ch), [0, b]) == Out(s, []);
    }
  }

  /** What a leaf can write: exactly the texts of its kind. */
  lemma LeafLanguage(all: seq<Item>, n: Node, s: string)
    requires IsLeaf(n)
    ensures CanSay(all, n, s) <==> LeafSays(n, s)
  {
    hide LeafSays;
    if CanSay(all, n, s) {
      var draws, rest :| GenNode(all, n, draws) == Out(s, rest);
      LeafOnly(all, n, draws);
    }
    if LeafSays(n, s) {
      LeafPossible(all, n, s);
    }
  }

  // ----- Pairs, lines and brackets -----------------------------------------------------

  lemma PairLanguage(all: seq<Item>, delim: char, key: string, value: string, s: string)
    ensures CanSay(all, KeyVal(delim, key, value), s) <==>
            exists a, b :: WordSays(key, a) && WordSays(value, b) && (s == a + "=" + b || s == a + ":" + b)
  {
    hide WordSays, GenAlphaNum;
    var n := KeyVal(delim, key, value);
    if CanSay(all, n, s) {
      var draws, rest :| GenNode(all, n, draws) == Out(s, rest);
      var d := Rand(draws, 2).rest;
      WordOnly(key, d);
      var (a, d1) := GenAlphaNum(key, d).Extract();
      WordOnly(value, d1);
      var b := GenAlphaNum(value, d1).value;
      assert s == a + "=" + b || s == a + ":" + b;
    }
    if a, b :| WordSays(key, a) && WordSays(value, b) && (s == a + "=" + b || s == a + ":" + b) {
      var second := WordPossible(value, b, []);
      var first := WordPossible(key, a, second);
      assert second + [] == second;
      var k := if s == a + "=" + b then 0 else 1;
      Draw1(k, first + second, 2);
      assert GenNode(all, n, [k] + (first + second)) == Out(s, []);
    }
  }

  lemma LineLanguage(all: seq<Item>, r: bool, nodes: seq<Node>, s: string)
    ensures CanSay(all, Line(r, nodes), s) <==>
            exists t :: BlockCanSay(all, nodes, t) && s == t + if r then "\r\n" else "\n"
  {
    hide GenBlock;
    var n := Line(r, nodes);
    if CanSay(all, n, s) {
      var draws, rest :| GenNode(all, n, draws) == Out(s, rest);
      var t := GenBlock(all, nodes, draws);
      assert BlockCanSay(all, nodes, t.value);
    }
    if t :| BlockCanSay(all, nodes, t) && s == t + if r then "\r\n" else "\n" {
      var draws, rest :| GenBlock(all, nodes, draws) == Out(t, rest);
      assert GenNode(all, n, draws) == Out(s, rest);
    }
  }

  /** The k-th opener and its closer. */
  predicate PairAt(k: nat, open: char, clos: char)
  {
    || (k == 0 && open == '<' && clos == '>') || (k == 1 && open == '[' && clos == ']')
    || (k == 2 && open == '(' && clos == ')') || (k == 3 && open == '{' && clos == '}')
    || (k == 4 && open == '\'' && clos == '\'') || (k == 5 && open == '\"' && clos == '\"')
    || (k == 6 && open == '`' && clos == '`')
  }

  lemma TablePairs(k: nat)
    requires k < 7
    ensures PairAt(k, OPENERS[k], CLOSERS[k])
  {
  }

  /** Around the content: the learned bracket, or any opener with any closer. */
  lemma BracketLanguage(all: seq<Item>, open: char, clos: char, nodes: seq<Node>, s: string)
    ensures CanSay(all, Bracket(open, clos, nodes), s) <==>
            exists t, o, c :: BlockCanSay(all, nodes, t) && s == [o] + t + [c] && Around(open, clos, o, c)
  {
    hide GenBlock, Around;
    if CanSay(all, Bracket(open, clos, nodes), s) {
      BracketOnly(all, open, clos, nodes, s);
    }
    if t, o, c :| BlockCanSay(all, nodes, t) && s == [o] + t + [c] && Around(open, clos, o, c) {
      BracketPossible(all, open, clos, nodes, t, o, c);
    }
  }

  predicate Around(open: char, clos: char, o: char, c: char)
  {
    (o == open && c == clos) || (o in "<[({'\"`" && c in ">])}'\"`")
  }

  lemma BracketOnly(all: seq<Item>, open: char, clos: char, nodes: seq<Node>, s: string)
    requires CanSay(all, Bracket(open, clos, nodes), s)
    ensures exists t, o, c :: BlockCanSay(all, nodes, t) && s == [o] + t + [c] && Around(open, clos, o, c)
  {
    hide GenBlock;
    var n := Bracket(open, clos, nodes);
    var draws, rest :| GenNode(all, n, draws) == Out(s, rest);
    var (k, d) := Rand(draws, 10).Extract();
    if k != 0 {
      var t := GenBlock(all, nodes, d);
      assert BlockCanSay(all, nodes, t.value) && Around(open, clos, open, clos);
    } else {
      var (o, d1) := Rand(d, 7).Extract();
      var (other, d2) := Rand(d1, 5).Extract();
      var (c, d3) := (if other == 0 then Rand(d2, 7) else Out(o, d2)).Extract();
      var t := GenBlock(all, nodes, d3);
      TablePairs(o);
      TablePairs(c);
      assert BlockCanSay(all, nodes, t.value) && Around(open, clos, OPENERS[o], CLOSERS[c]);
    }
  }

  lemma BracketPossible(all: seq<Item>, open: char, clos: char, nodes: seq<Node>, t: string, o: char, c: char)
    requires BlockCanSay(all, nodes, t) && Around(open, clos, o, c)
    ensures CanSay(all, Bracket(open, clos, nodes), [o] + t + [c])
  {
    hide GenBlock;
    var n := Bracket(open, clos, nodes);
    var draws, rest :| GenBlock(all, nodes, draws) == Out(t, rest);
    if o == open && c == clos {
      Draw1(1, draws, 10);
      assert GenNode(all, n, [1] + draws) == Out([o] + t + [c], rest);
    } else {
      var i: nat :| i < 7 && OPENERS[i] == o;
      var j: nat :| j < 7 && CLOSERS[j] == c;
      assert [0, i, 0, j] + draws == [0] + ([i] + ([0] + ([j] + draws)));
      Draw1(0, [i] + ([0] + ([j] + draws)), 10);
      Draw1(i, [0] + ([j] + draws), 7);
      Draw1(0, [j] + draws, 5);
      Draw1(j, draws, 7);
      assert GenNode(all, n, [0, i, 0, j] + draws) == Out([o] + t + [c], rest);
    }
  }

  // ----- Chances -----------------------------------------------------------------------

  /** The number of equally likely ways in which a node can begin. */
  function Sides(n: Node): nat
  {
    match n
    case Ws(_) => 5
    case AlphaNum(_) => 5
    case Num(_, _) => 2
    case KeyVal(_, _, _) => 2
    case List(_, _) => 5
    case _ => 10
  }

  /**
    The first draw decides between exactly so many ways. In one of them blanks, words and other
    characters are random, and in all others they are the learned ones; numbers are learned in one of two.
  */
  lemma {:induction false} Chances(all: seq<Item>, n: Node, k: nat, tail: seq<nat>)
    ensures GenNode(all, n, [k] + tail).Stuck? <== k >= Sides(n)
    ensures 0 < k < Sides(n) && (n.Ws? || n.AlphaNum?) ==> GenNode(all, n, [k] + ([0] + tail)) == Out(n.text, tail)
    ensures k == 0 && n.Num? ==> GenNode(all, n, [k] + ([0] + tail)) == Out(n.text, tail)
    ensures 0 < k < Sides(n) && n.Control? ==> GenNode(all, n, [k] + tail) == Out([n.ch], tail)
  {
    assert ([k] + tail)[0] == k;
    if k < Sides(n) {
      Draw1(k, tail, Sides(n));
      Draw1(k, [0] + tail, Sides(n));
      Draw1(0, tail, 1);
    }
  }

  /** A random length is below one of the three bounds, each with the same chance. */
  lemma LenChances(k: nat, len: nat, tail: seq<nat>, small: nat, medium: nat, large: nat)
    ensures RandLen([k, len] + tail, small, medium, large) ==
            if k < 3 && len < (if k == 0 then small else if k == 1 then medium else large) then Out(len, tail)
               else Stuck
  {
    assert [k, len] + tail == [k] + ([len] + tail);
    assert ([len] + tail)[1..] == tail && ([k] + ([len] + tail))[1..] == [len] + tail;
  }

  /** The same for the other choices: how many sides each die has. */
  lemma {:induction false} DieSides(all: seq<Item>, nodes: seq<Node>, blocks: seq<Block>, t: string, k: nat,
                                    tail: seq<nat>)
    ensures RandTerm(t, [k] + tail).Stuck? <==> k >= 1
    ensures k >= 3 ==> RandBlanks([k] + tail).Stuck? && RandDigit(16, [k] + tail).Stuck? && RandNum([k] + tail).Stuck?
                       && PickBlocks(blocks, [k] + tail).Stuck?
    ensures k >= 4 ==> RandWordChar([k] + tail).Stuck?
    ensures k >= 128 ==> RandControl([k] + tail).Stuck?
    ensures k >= 2 && nodes != [] ==>
              DropNodes(nodes, [k] + tail).Stuck? && RepeatNodes(nodes, [k] + tail).Stuck?
              && SwapNodes(nodes, [k] + tail).Stuck?
    ensures k >= 20 && nodes != [] ==> GenNodes(all, nodes, [k] + tail).Stuck?
  {
    assert ([k] + tail)[0] == k;
  }

  // ----- Lists -------------------------------------------------------------------------

  /** One text of each block in turn, with the delimiter between them. */
  ghost predicate JoinCanSay(all: seq<Item>, delim: char, blocks: seq<Block>, s: string)
    decreases |blocks|
  {
    if blocks == [] then s == ""
    else if |blocks| == 1 then BlockCanSay(all, blocks[0].nodes, s)
    else exists t, more :: BlockCanSay(all, blocks[0].nodes, t) && JoinCanSay(all, delim, blocks[1..], more)
                           && s == t + [delim] + more
  }

  lemma {:induction false} JoinOnly(all: seq<Item>, delim: char, blocks: seq<Block>, draws: seq<nat>)
    ensures var r := GenJoin(all, delim, blocks, draws); r.Out? ==> JoinCanSay(all, delim, blocks, r.value)
    decreases |blocks|
  {
    hide GenBlock;
    if blocks != [] && GenJoin(all, delim, blocks, draws).Out? {
      var (t, d) := GenBlock(all, blocks[0].nodes, draws).Extract();
      assert BlockCanSay(all, blocks[0].nodes, t);
      if |blocks| > 1 {
        JoinOnly(all, delim, blocks[1..], d);
        var more := GenJoin(all, delim, blocks[1..], d).value;
        assert JoinCanSay(all, delim, blocks[1..], more);
      }
    }
  }

  predicate From(chosen: seq<Block>, blocks: seq<Block>)
  {
    forall k | 0 <= k < |chosen| :: chosen[k] in blocks
  }

  lemma {:induction false} PicksOnly(blocks: seq<Block>, draws: seq<nat>)
    ensures var r := PickBlocks(blocks, draws); r.Out? ==> From(r.value, blocks)
    decreases |draws|
  {
    if PickBlocks(blocks, draws).Out? && Rand(draws, 3).value != 0 {
      PicksOnly(blocks, Rand(Rand(draws, 3).rest, |blocks|).rest);
    }
  }

  /** Any blocks of the list can be picked, in any order and number. */
  lemma {:induction false} PicksPossible(blocks: seq<Block>, chosen: seq<Block>, tail: seq<nat>)
      returns (draws: seq<nat>)
    requires From(chosen, blocks)
    ensures PickBlocks(blocks, draws + tail) == Out(chosen, tail)
  {
    if chosen == [] {
      draws := [0];
      Draw1(0, tail, 3);
    } else {
      var more := PicksPossible(blocks, chosen[1..], tail);
      assert chosen[0] in blocks;
      var i: nat :| i < |blocks| && blocks[i] == chosen[0];
      draws := [1, i] + more;
      assert draws + tail == [1, i] + (more + tail);
      Draw2(1, i, more + tail, 3, |blocks|);
      assert chosen == [chosen[0]] + chosen[1..];
    }
  }

  /** A list writes its blocks, or some of them, joined by its own delimiter. */
  lemma {:induction false} ListOnly(all: seq<Item>, delim: char, blocks: seq<Block>, s: string)
    requires CanSay(all, List(delim, blocks), s)
    ensures exists chosen :: From(chosen, blocks) && JoinCanSay(all, delim, chosen, s)
  {
    hide GenJoin, JoinCanSay;
    var draws, rest :| GenNode(all, List(delim, blocks), draws) == Out(s, rest);
    var (k, d) := Rand(draws, 5).Extract();
    PicksOnly(blocks, d);
    var (chosen, d1) := (if k == 0 then PickBlocks(blocks, d) else Out(blocks, d)).Extract();
    JoinOnly(all, delim, chosen, d1);
    assert From(chosen, blocks);
  }

  /** Every choice of blocks gets its turn. */
  lemma {:induction false} ListPossible(all: seq<Item>, delim: char, blocks: seq<Block>, chosen: seq<Block>,
                                        draws: seq<nat>, s: string,
                     rest: seq<nat>)
    requires From(chosen, blocks) && GenJoin(all, delim, chosen, draws) == Out(s, rest)
    ensures CanSay(all, List(delim, blocks), s)
  {
    hide GenJoin;
    var picks := PicksPossible(blocks, chosen, draws);
    Draw1(0, picks + draws, 5);
    assert GenNode(all, List(delim, blocks), [0] + (picks + draws)) == Out(s, rest);
  }

  // ----- Blocks ------------------------------------------------------------------------

  predicate AllIn(a: seq<Node>, b: seq<Node>)
  {
    forall k | 0 <= k < |a| :: a[k] in b
  }

  /** Dropping nodes invents none. */
  lemma {:induction false} DropOnly(nodes: seq<Node>, draws: seq<nat>)
    ensures var r := DropNodes(nodes, draws); r.Out? ==> AllIn(r.value, nodes) && |r.value| <= |nodes|
    decreases |draws|
  {
    if nodes != [] && DropNodes(nodes, draws).Out? && Rand(draws, 2).value == 0 {
      var (i, d) := Rand(Rand(draws, 2).rest, |nodes|).Extract();
      DropOnly(CopyDown(nodes, i), d);
    }
  }

  /** Repeating nodes loses and invents none. */
  lemma {:induction false} RepeatOnly(nodes: seq<Node>, draws: seq<nat>)
    ensures var r := RepeatNodes(nodes, draws); r.Out? ==> AllIn(r.value, nodes) && AllIn(nodes, r.value)
    decreases |draws|
  {
    if nodes != [] && RepeatNodes(nodes, draws).Out? && Rand(draws, 2).value == 0 {
      var (i, d) := Rand(Rand(draws, 2).rest, |nodes|).Extract();
      var next := nodes[..i + 1] + nodes[i..];
      RepeatOnly(next, d);
      assert AllIn(nodes, next) by { assert nodes == nodes[..i] + nodes[i..]; }
    }
  }

  /** Swapping nodes only changes their order. */
  lemma {:induction false} SwapOnly(nodes: seq<Node>, draws: seq<nat>)
    ensures var r := SwapNodes(nodes, draws); r.Out? ==> multiset(r.value) == multiset(nodes)
    decreases |draws|
  {
    if nodes != [] && SwapNodes(nodes, draws).Out? && Rand(draws, 2).value == 0 {
      var (i, d) := Rand(Rand(draws, 2).rest, |nodes|).Extract();
      var (j, d1) := Rand(d, |nodes|).Extract();
      SwapOnly(nodes[i := nodes[j]][j := nodes[i]], d1);
      SwapKeeps(nodes, i, j);
    }
  }

  lemma SwapKeeps(nodes: seq<Node>, i: nat, j: nat)
    requires i < |nodes| && j < |nodes|
    ensures multiset(nodes[i := nodes[j]][j := nodes[i]]) == multiset(nodes)
  {
  }

  lemma MultisetIn(a: seq<Node>, b: seq<Node>)
    requires multiset(a) == multiset(b)
    ensures AllIn(a, b)
  {
    forall k | 0 <= k < |a| ensures a[k] in b {
      assert a[k] in multiset(a);
    }
  }

  /** A text of some item of the verse. */
  ghost predicate AnyCanSay(all: seq<Item>, s: string)
  {
    exists it ::
      it in all && match it case NodeItem(n) => CanSay(all, n, s) case BlockItem(b) => BlockCanSay(all, b.nodes, s)
  }

  /** Each node in turn is skipped, replaced by some item of the verse, or writes a text of its own. */
  ghost predicate NodesCanSay(all: seq<Item>, nodes: seq<Node>, s: string)
  {
    if nodes == [] then s == ""
    else NodesCanSay(all, nodes[1..], s)
         || exists t, more :: s == t + more && NodesCanSay(all, nodes[1..], more)
                              && (CanSay(all, nodes[0], t) || AnyCanSay(all, t))
  }

  lemma {:induction false} NodesOnly(all: seq<Item>, nodes: seq<Node>, draws: seq<nat>)
    ensures var r := GenNodes(all, nodes, draws); r.Out? ==> NodesCanSay(all, nodes, r.value)
    decreases |nodes|
  {
    hide GenNode, GenAny, AnyCanSay;
    if nodes != [] && GenNodes(all, nodes, draws).Out? {
      var (skip, d) := Rand(draws, 20).Extract();
      if skip == 0 {
        NodesOnly(all, nodes[1..], d);
      } else {
        var (other, d1) := Rand(d, 20).Extract();
        AnyOnly(all, d1);
        var (t, d2) := (if other == 0 then GenAny(all, d1) else GenNode(all, nodes[0], d1)).Extract();
        NodesOnly(all, nodes[1..], d2);
        var more := GenNodes(all, nodes[1..], d2).value;
        assert CanSay(all, nodes[0], t) || AnyCanSay(all, t);
        assert NodesCanSay(all, nodes[1..], more);
      }
    }
  }

  lemma {:induction false} AnyOnly(all: seq<Item>, draws: seq<nat>)
    ensures var r := GenAny(all, draws); r.Out? ==> AnyCanSay(all, r.value)
  {
    hide GenNode, GenBlock;
    var r := GenAny(all, draws);
    if r.Out? {
      var (i, d) := Rand(draws, |all|).Extract();
      assert all[i] in all;
      match all[i]
      case NodeItem(n) => assert GenNode(all, n, d) == Out(r.value, r.rest);
      case BlockItem(b) => assert GenBlock(all, b.nodes, d) == Out(r.value, r.rest);
    }
  }

  /** A block writes texts of its own nodes, dropped, repeated and reordered, or of others of the verse. */
  lemma {:induction false} BlockOnly(all: seq<Item>, nodes: seq<Node>, s: string)
    requires BlockCanSay(all, nodes, s)
    ensures exists edited :: AllIn(edited, nodes) && NodesCanSay(all, edited, s)
  {
    hide GenNodes, NodesCanSay, DropNodes, RepeatNodes, SwapNodes;
    var draws, rest :| GenBlock(all, nodes, draws) == Out(s, rest);
    var (k, d) := Rand(draws, 10).Extract();
    DropOnly(nodes, d);
    var (a, d1) := (if k == 0 then DropNodes(nodes, d) else Out(nodes, d)).Extract();
    assert AllIn(a, nodes);
    var (k1, d2) := Rand(d1, 10).Extract();
    RepeatOnly(a, d2);
    var (b, d3) := (if k1 == 0 then RepeatNodes(a, d2) else Out(a, d2)).Extract();
    assert AllIn(b, a);
    var (k2, d4) := Rand(d3, 10).Extract();
    SwapOnly(b, d4);
    var (c, d5) := (if k2 == 0 then SwapNodes(b, d4) else Out(b, d4)).Extract();
    MultisetIn(c, b);
    NodesOnly(all, c, d5);
    assert AllIn(c, nodes);
  }

  /** Rhyme writes a text of one of the blocks that were learned. */
  lemma VerseOnly(v: Verse, draws: seq<nat>)
    ensures var r := GenVerse(v, draws);
            r.Out? ==> exists b :: b in v.blocks && BlockCanSay(v.allNodes, b.nodes, r.value)
  {
    hide GenBlock;
    if GenVerse(v, draws).Out? {
      var (k, d) := Rand(draws, |v.blocks|).Extract();
      assert v.blocks[k] in v.blocks;
    }
  }
}
