/** The first structuring pass: joins words, signs, points and exponents into numbers. */
module Numbers {
  import opened Tokenizer
  import opened VerseNodes
  import opened Wrappers

  predicate Flat(nn: seq<Node>)
  {
    forall i | 0 <= i < |nn| :: nn[i].Ws? || nn[i].AlphaNum? || nn[i].Num? || nn[i].Control?
  }

  predicate IsHexDigit(c: char)
  {
    IsDigit(c) || 'a' <= c <= 'f' || 'A' <= c <= 'F'
  }

  predicate IsHexNum(s: string)
  {
    s != "" && forall i | 0 <= i < |s| :: IsHexDigit(s[i])
  }

  predicate IsDecNum(s: string)
  {
    s != "" && AllDigits(s)
  }

  /** The first position of an 'e'. */
  function ExponentAt(s: string): (r: Option<nat>)
    ensures r.Some? ==> r.value < |s| && s[r.value] == 'e' && 'e' !in s[..r.value]
    ensures r.None? ==> 'e' !in s
  {
    if s == "" then None
    else if s[0] == 'e' then Some(0)
    else
      var k := ExponentAt(s[1..]);
      assert s == [s[0]] + s[1..];
      assert k.Some? ==> s[..k.value + 1] == [s[0]] + s[1..][..k.value];
      if k.None? then None else Some(k.value + 1)
  }

  /** A minus sign belongs to the number behind it, unless a word stands before it that does not end in an exponent. */
  predicate SignAllowed(nn: seq<Node>, i: nat)
    requires i < |nn|
  {
    i == 0 || !nn[i - 1].AlphaNum? || (|nn[i - 1].text| > 1 && nn[i - 1].text[|nn[i - 1].text| - 1] == 'e')
  }

  /** The list after the rule that applies at index i, if one does. */
  function RewriteAt(nn: seq<Node>, i: nat): (r: Option<seq<Node>>)
    requires i < |nn|
    ensures r.Some? ==> |r.value| <= |nn|
  {
    match nn[i]
    case AlphaNum(v) =>
      if |v| < 3 then None
      else if v[0] == '0' && v[1] == 'x' && IsHexNum(v[2..]) then Some(nn[i := Num(v, true)])
      else
        var e := ExponentAt(v);
        if e.None? then None
        else if IsDecNum(v[..e.value]) && IsDecNum(v[e.value + 1..]) then Some(nn[i := Num(v, false)])
        else if e.value == |v| - 1 && i != |nn| - 1 && nn[i + 1].Num? then
          Some(nn[..i] + [Num(v + nn[i + 1].text, false)] + nn[i + 2..])
        else None
    case Control(ch) =>
      if ch == '-' && i != |nn| - 1 && nn[i + 1].Num? && SignAllowed(nn, i) then
        Some(nn[..i] + [Num("-" + nn[i + 1].text, nn[i + 1].hex)] + nn[i + 2..])
      else if ch == '.' && i != 0 && i != |nn| - 1 && nn[i - 1].Num? && nn[i + 1].Num? then
        Some(nn[..i - 1] + [Num(nn[i - 1].text + "." + nn[i + 1].text, false)] + nn[i + 2..])
      else None
    case _ => None
  }

  /** Nodes, and words among them: what every rule makes smaller. */
  function Measure(nn: seq<Node>): nat
  {
    if nn == [] then 0 else 1 + (if nn[0].AlphaNum? then 1 else 0) + Measure(nn[1..])
  }

  lemma {:induction false} MeasureAppend(a: seq<Node>, b: seq<Node>)
    ensures Measure(a + b) == Measure(a) + Measure(b)
  {
    if a == [] {
      assert a + b == b;
    } else {
      assert (a + b)[1..] == a[1..] + b;
      MeasureAppend(a[1..], b);
    }
  }

  lemma {:induction false} MeasureSplice(nn: seq<Node>, lo: nat, hi: nat, t: string, hex: bool)
    requires lo < hi <= |nn| && (hi - lo > 1 || nn[lo].AlphaNum?)
    ensures Measure(nn[..lo] + [Num(t, hex)] + nn[hi..]) < Measure(nn)
  {
    var n := Num(t, hex);
    MeasureAppend(nn[..lo], [n]);
    MeasureAppend(nn[..lo] + [n], nn[hi..]);
    MeasureAppend(nn[..lo], nn[lo..hi]);
    MeasureAppend(nn[..hi], nn[hi..]);
    assert nn[..lo] + nn[lo..hi] == nn[..hi] && nn[..hi] + nn[hi..] == nn;
    assert [n][1..] == [] && Measure([n]) == 1;
    MeasureAtLeast(nn[lo..hi]);
  }

  lemma {:induction false} MeasureAtLeast(nn: seq<Node>)
    ensures Measure(nn) >= |nn|
    ensures nn != [] && nn[0].AlphaNum? ==> Measure(nn) > |nn|
  {
    if nn != [] {
      MeasureAtLeast(nn[1..]);
    }
  }

  /** Every rule replaces a stretch of nodes by one number that spells the same text. */
  lemma RewriteIsSplice(nn: seq<Node>, i: nat) returns (lo: nat, hi: nat, n: Node)
    requires i < |nn| && RewriteAt(nn, i).Some?
    ensures lo < hi <= |nn| && n.Num? && (hi - lo > 1 || nn[lo].AlphaNum?)
    ensures RewriteAt(nn, i).value == nn[..lo] + [n] + nn[hi..]
    ensures Text(n) == TextAll(nn[lo..hi])
  {
    var r := RewriteAt(nn, i).value;
    match nn[i]
    case AlphaNum(v) =>
      lo, n := i, r[i];
      if |r| == |nn| {
        hi := i + 1;
        assert nn[lo..hi] == [nn[i]];
        TextOne(nn[i]);
        assert r == nn[..lo] + [n] + nn[hi..];
      } else {
        hi := i + 2;
        TextTwo(nn, i);
      }
    case Control(ch) =>
      hi := i + 2;
      if ch == '-' {
        lo, n := i, r[i];
        TextTwo(nn, i);
      } else {
        lo, n := i - 1, r[i - 1];
        TextThree(nn, i - 1);
      }
  }

  lemma TextTwo(nn: seq<Node>, i: nat)
    requires i + 2 <= |nn|
    ensures TextAll(nn[i..i + 2]) == Text(nn[i]) + Text(nn[i + 1])
  {
    assert nn[i..i + 2] == [nn[i]] + [nn[i + 1]];
    TextAppend([nn[i]], [nn[i + 1]]);
    TextOne(nn[i]);
    TextOne(nn[i + 1]);
  }

  lemma TextThree(nn: seq<Node>, i: nat)
    requires i + 3 <= |nn|
    ensures TextAll(nn[i..i + 3]) == Text(nn[i]) + Text(nn[i + 1]) + Text(nn[i + 2])
  {
    assert nn[i..i + 3] == nn[i..i + 2] + [nn[i + 2]];
    TextAppend(nn[i..i + 2], [nn[i + 2]]);
    TextTwo(nn, i);
    TextOne(nn[i + 2]);
  }

  /** A rule keeps the text and the flatness of the list, and makes it smaller. */
  lemma {:induction false} RewriteEffect(nn: seq<Node>, i: nat)
    requires i < |nn| && RewriteAt(nn, i).Some?
    ensures var r := RewriteAt(nn, i).value;
            TextAll(r) == TextAll(nn) && (Flat(nn) ==> Flat(r)) && Measure(r) < Measure(nn)
  {
    hide RewriteAt, Text, TextAll, Measure;
    var lo, hi, n := RewriteIsSplice(nn, i);
    TextSplice(nn, lo, hi, n);
    MeasureSplice(nn, lo, hi, n.text, n.hex);
    assert n == Num(n.text, n.hex);
  }

  // ----- Which stretches are joined ----------------------------------------------------

  /** All characters of s are among those of the table. */
  predicate Over(s: string, table: string)
  {
    forall i | 0 <= i < |s| :: s[i] in table
  }

  const DECIMAL: string := "0123456789"
  const HEX: string := "0123456789abcdefABCDEF"

  lemma DigitTables(c: char)
    ensures IsDigit(c) <==> c in DECIMAL
    ensures IsHexDigit(c) <==> c in HEX
  {
    if '0' <= c <= '9' {
      assert c == DECIMAL[c as int - '0' as int] == HEX[c as int - '0' as int];
    }
    if 'a' <= c <= 'f' {
      assert c == HEX[c as int - 'a' as int + 10];
    }
    if 'A' <= c <= 'F' {
      assert c == HEX[c as int - 'A' as int + 16];
    }
  }

  /** 0x and hexadecimal digits. */
  predicate HexForm(v: string)
  {
    |v| > 2 && v[..2] == "0x" && Over(v[2..], HEX)
  }

  /** Digits, an e and digits. */
  predicate ExponentForm(v: string)
  {
    exists k :: 0 < k < |v| - 1 && v[k] == 'e' && Over(v[..k], DECIMAL) && Over(v[k + 1..], DECIMAL)
  }

  /** A word of two or more characters in front of its only e. */
  predicate OpenExponent(v: string)
  {
    |v| > 2 && v[|v| - 1] == 'e' && 'e' !in v[..|v| - 1]
  }

  lemma HexWords(v: string)
    ensures HexForm(v) <==> |v| >= 3 && v[0] == '0' && v[1] == 'x' && IsHexNum(v[2..])
  {
    hide IsHexDigit;
    forall c: char ensures IsHexDigit(c) <==> c in HEX {
      DigitTables(c);
    }
    assert |v| >= 2 ==> (v[..2] == "0x" <==> v[0] == '0' && v[1] == 'x');
    assert |v| >= 2 ==> (IsHexNum(v[2..]) <==> |v| > 2 && Over(v[2..], HEX));
  }

  lemma DecimalWords(v: string)
    ensures IsDecNum(v) <==> v != "" && Over(v, DECIMAL)
  {
    hide IsDigit;
    forall c: char ensures IsDigit(c) <==> c in DECIMAL {
      DigitTables(c);
    }
  }

  lemma DecimalHasNoExponent(v: string)
    requires Over(v, DECIMAL)
    ensures 'e' !in v
  {
  }

  lemma {:induction false} FirstExponent(v: string, k: nat)
    requires k < |v| && v[k] == 'e' && 'e' !in v[..k]
    ensures ExponentAt(v) == Some(k)
  {
    if k > 0 {
      assert v[0] == v[..k][0];
      assert v[1..][..k - 1] == v[..k][1..];
      FirstExponent(v[1..], k - 1);
    }
  }

  lemma ExponentWords(v: string)
    requires |v| >= 3
    ensures var e := ExponentAt(v); ExponentForm(v) <==> e.Some? && IsDecNum(v[..e.value]) && IsDecNum(v[e.value + 1..])
  {
    hide IsDecNum, Over, ExponentAt;
    var e := ExponentAt(v);
    forall k | 0 < k < |v| - 1 && v[k] == 'e' && Over(v[..k], DECIMAL) && Over(v[k + 1..], DECIMAL)
      ensures e == Some(k) && IsDecNum(v[..k]) && IsDecNum(v[k + 1..])
    {
      DecimalHasNoExponent(v[..k]);
      FirstExponent(v, k);
      DecimalWords(v[..k]);
      DecimalWords(v[k + 1..]);
    }
    if e.Some? {
      DecimalWords(v[..e.value]);
      DecimalWords(v[e.value + 1..]);
    }
  }

  lemma OpenWords(v: string)
    ensures OpenExponent(v) <==> |v| >= 3 && ExponentAt(v) == Some(|v| - 1)
  {
    hide ExponentAt;
    var e := ExponentAt(v);
    if |v| >= 1 && v[|v| - 1] == 'e' && e.Some? && e.value < |v| - 1 {
      assert v[..|v| - 1][e.value] == 'e';
    }
  }

  /**
    The rules at index i: a hexadecimal word and a word with an exponent become numbers; a word that
    ends in its only e takes the number behind it, a minus sign too unless it stands behind a word
    that does not end in e (or is only that), and a point takes the numbers on both sides.
  */
  lemma JoinsExactly(nn: seq<Node>, i: nat)
    requires i < |nn|
    ensures var n := nn[i]; var next := if i + 1 < |nn| then nn[i + 1] else n;
            var numberNext := i + 1 < |nn| && nn[i + 1].Num?;
            RewriteAt(nn, i) ==
              if n.AlphaNum? && HexForm(n.text) then Some(nn[..i] + [Num(n.text, true)] + nn[i + 1..])
              else if n.AlphaNum? && ExponentForm(n.text) then Some(nn[..i] + [Num(n.text, false)] + nn[i + 1..])
              else if n.AlphaNum? && OpenExponent(n.text) && numberNext then
                Some(nn[..i] + [Num(n.text + next.text, false)] + nn[i + 2..])
              else if n == Control('-') && numberNext && (i > 0 && nn[i - 1].AlphaNum? ==>
                  |nn[i - 1].text| >= 2 && nn[i - 1].text[|nn[i - 1].text| - 1..] == "e") then
                Some(nn[..i] + [Num("-" + next.text, next.hex)] + nn[i + 2..])
              else if n == Control('.') && i > 0 && nn[i - 1].Num? && numberNext then
                Some(nn[..i - 1] + [Num(nn[i - 1].text + "." + next.text, false)] + nn[i + 2..])
              else None
  {
    if nn[i].AlphaNum? {
      var v := nn[i].text;
      HexWords(v);
      OpenWords(v);
      if |v| >= 3 {
        ExponentWords(v);
      }
      hide HexForm, ExponentForm, OpenExponent, IsHexNum, IsDecNum, ExponentAt;
      assert forall b :: nn[i := b] == nn[..i] + [b] + nn[i + 1..];
    }
  }

  // ----- The sweeps --------------------------------------------------------------------

  /** No rule applies anywhere. */
  predicate NumbersDone(nn: seq<Node>)
  {
    forall i | 0 <= i < |nn| :: RewriteAt(nn, i).None?
  }

  /** One sweep from index i on: each rule changes the list under the sweep, which goes on behind that index. */
  function SweptFrom(nn: seq<Node>, i: nat): seq<Node>
    decreases |nn| - i
  {
    if i >= |nn| then nn
    else
      match RewriteAt(nn, i)
      case Some(r) => SweptFrom(r, i + 1)
      case None => SweptFrom(nn, i + 1)
  }

  lemma SweepStep(nn: seq<Node>, i: nat)
    requires i < |nn|
    ensures SweptFrom(nn, i) == SweptFrom(if RewriteAt(nn, i).Some? then RewriteAt(nn, i).value else nn, i + 1)
  {
  }

  lemma SweepDone(nn: seq<Node>, i: nat)
    requires i >= |nn|
    ensures SweptFrom(nn, i) == nn
  {
  }

  /** A sweep that changes the list makes it smaller; one that does not has found no rule. */
  lemma {:induction false} SweepEffect(nn: seq<Node>, i: nat)
    ensures var r := SweptFrom(nn, i);
            if r == nn then forall k | i <= k < |nn| :: RewriteAt(nn, k).None?
            else Measure(r) < Measure(nn)
    decreases |nn| - i
  {
    hide RewriteAt, Measure;
    if i < |nn| {
      match RewriteAt(nn, i)
      case Some(r) =>
        RewriteEffect(nn, i);
        SweepEffect(r, i + 1);
      case None => SweepEffect(nn, i + 1);
    }
  }

  /** Sweeps until one changes nothing. */
  function Swept(nn: seq<Node>): seq<Node>
    decreases Measure(nn)
  {
    SweepEffect(nn, 0);
    var r := SweptFrom(nn, 0);
    if r == nn then nn else Swept(r)
  }

  /** How a number may be spelled: digits and the forms above, put together by signs, points and exponents. */
  predicate IsNumber(s: string)
    decreases |s|
  {
    || (s != "" && Over(s, DECIMAL))
    || HexForm(s)
    || ExponentForm(s)
    || (s != "" && s[0] == '-' && IsNumber(s[1..]))
    || (exists k :: 0 < k < |s| && s[k] == '.' && IsNumber(s[..k]) && IsNumber(s[k + 1..]))
    || (exists k :: 2 < k < |s| && OpenExponent(s[..k]) && IsNumber(s[k..]))
  }

  predicate Spelled(nn: seq<Node>)
  {
    forall n | n in nn && n.Num? :: IsNumber(n.text)
  }

  lemma {:induction false} RewriteSpelled(nn: seq<Node>, i: nat)
    requires i < |nn| && Spelled(nn) && RewriteAt(nn, i).Some?
    ensures Spelled(RewriteAt(nn, i).value)
  {
    JoinsExactly(nn, i);
    hide RewriteAt;
    var r := RewriteAt(nn, i).value;
    forall n | n in r && n.Num? ensures IsNumber(n.text) {
      if n !in nn {
        JoinSpelled(nn, i, n);
      }
    }
  }

  lemma {:induction false} JoinSpelled(nn: seq<Node>, i: nat, n: Node)
    requires i < |nn| && Spelled(nn) && RewriteAt(nn, i).Some?
    requires n in RewriteAt(nn, i).value && n.Num? && n !in nn
    ensures IsNumber(n.text)
  {
    JoinsExactly(nn, i);
    hide RewriteAt, HexForm, ExponentForm, OpenExponent;
    var s := n.text;
    if nn[i] == Control('-') {
      assert s[1..] == nn[i + 1].text;
    } else if nn[i] == Control('.') {
      var k := |nn[i - 1].text|;
      EmptyIsNone();
      assert s[..k] == nn[i - 1].text && s[k + 1..] == nn[i + 1].text;
    } else if !HexForm(nn[i].text) && !ExponentForm(nn[i].text) {
      var k := |nn[i].text|;
      EmptyIsNone();
      assert s[..k] == nn[i].text && s[k..] == nn[i + 1].text;
    }
  }

  lemma EmptyIsNone()
    ensures !IsNumber("") && forall v | OpenExponent(v) :: |v| > 2
  {
  }

  /** Only what is spelled like a number becomes one. */
  lemma {:induction false} NumbersSpelled(nn: seq<Node>)
    requires Spelled(nn)
    ensures Spelled(Swept(nn))
    decreases Measure(nn)
  {
    hide Spelled, RewriteAt, Measure;
    SweepEffect(nn, 0);
    SweepSpelled(nn, 0);
    if SweptFrom(nn, 0) != nn {
      NumbersSpelled(SweptFrom(nn, 0));
    }
  }

  lemma {:induction false} SweepSpelled(nn: seq<Node>, i: nat)
    requires Spelled(nn)
    ensures Spelled(SweptFrom(nn, i))
    decreases |nn| - i
  {
    hide Spelled, RewriteAt;
    if i < |nn| {
      match RewriteAt(nn, i)
      case Some(r) =>
        RewriteSpelled(nn, i);
        SweepSpelled(r, i + 1);
      case None => SweepSpelled(nn, i + 1);
    }
  }

  /**
    Sweeps over the list until a sweep changes nothing. The list is changed under the sweep, which
    then goes on behind the place of the change. Terminates with the same text and no rule left to apply.
  */
  method ExtractNumbers(tokens: seq<Node>) returns (nn: seq<Node>)
    requires Flat(tokens)
    ensures nn == Swept(tokens)
    ensures TextAll(nn) == TextAll(tokens)
    ensures Flat(nn) && NumbersDone(nn)
  {
    hide Text, TextAll, Measure, Flat, SweptFrom;
    nn := tokens;
    var changed := true;
    while changed
      invariant Swept(nn) == Swept(tokens)
      invariant TextAll(nn) == TextAll(tokens) && Flat(nn)
      invariant !changed ==> NumbersDone(nn) && Swept(nn) == nn
      decreases Measure(nn), changed
    {
      changed := false;
      ghost var before := nn;
      var i := 0;
      while i < |nn|
        invariant 0 <= i
        invariant SweptFrom(nn, i) == SweptFrom(before, 0)
        invariant TextAll(nn) == TextAll(tokens) && Flat(nn)
        invariant if changed then Measure(nn) < Measure(before) else nn == before
        invariant !changed ==> i <= |nn| && forall k | 0 <= k < i :: RewriteAt(nn, k).None?
        decreases |nn| - i
      {
        SweepStep(nn, i);
        match nn[i] {
          case AlphaNum(v) =>
            if |v| >= 3 {
              if v[0] == '0' && v[1] == 'x' && IsHexNum(v[2..]) {
                RewriteEffect(nn, i);
                nn := nn[i := Num(v, true)];
                changed := true;
              } else {
                var e := ExponentAt(v);
                if e.Some? {
                  if IsDecNum(v[..e.value]) && IsDecNum(v[e.value + 1..]) {
                    RewriteEffect(nn, i);
                    nn := nn[i := Num(v, false)];
                    changed := true;
                  } else if e.value == |v| - 1 && i != |nn| - 1 && nn[i + 1].Num? {
                    RewriteEffect(nn, i);
                    nn := nn[..i] + [Num(v + nn[i + 1].text, false)] + nn[i + 2..];
                    changed := true;
                  }
                }
              }
            }
          case Control(ch) =>
            if ch == '-' && i != |nn| - 1 && nn[i + 1].Num? && SignAllowed(nn, i) {
              RewriteEffect(nn, i);
              nn := nn[..i] + [Num("-" + nn[i + 1].text, nn[i + 1].hex)] + nn[i + 2..];
              changed := true;
            } else if ch == '.' && i != 0 && i != |nn| - 1 && nn[i - 1].Num? && nn[i + 1].Num? {
              RewriteEffect(nn, i);
              nn := nn[..i - 1] + [Num(nn[i - 1].text + "." + nn[i + 1].text, false)] + nn[i + 2..];
              changed := true;
            }
          case _ =>
        }
        i := i + 1;
      }
      SweepDone(nn, i);
    }
  }
}
