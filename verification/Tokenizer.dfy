/** The tokenizer: a state machine over characters that cuts a text into words, blanks and control characters. */
module Tokenizer {
  import opened VerseNodes

  predicate IsLetter(c: char)
  {
    'a' <= c <= 'z' || 'A' <= c <= 'Z' || c == '_'
  }

  predicate IsDigit(c: char)
  {
    '0' <= c <= '9'
  }

  predicate IsBlank(c: char)
  {
    c == ' ' || c == '\t'
  }

  predicate IsWord(c: char)
  {
    IsLetter(c) || IsDigit(c)
  }

  /** The three classes of characters by their codes; all other characters are tokens of their own. */
  lemma CharacterCodes(c: char)
    ensures IsLetter(c) <==> 65 <= c as int <= 90 || c as int == 95 || 97 <= c as int <= 122
    ensures IsDigit(c) <==> 48 <= c as int <= 57
    ensures IsBlank(c) <==> c as int == 9 || c as int == 32
  {
  }

  predicate AllDigits(s: string)
  {
    forall i | 0 <= i < |s| :: IsDigit(s[i])
  }

  predicate AllWord(s: string)
  {
    forall i | 0 <= i < |s| :: IsWord(s[i])
  }

  predicate AllBlank(s: string)
  {
    forall i | 0 <= i < |s| :: IsBlank(s[i])
  }

  /** A token: a nonempty run of blanks, a nonempty word (a number if it has digits only), or another character. */
  predicate IsToken(n: Node)
  {
    match n
    case Ws(t) => t != "" && AllBlank(t)
    case AlphaNum(t) => t != "" && AllWord(t) && !AllDigits(t)
    case Num(t, hex) => t != "" && AllDigits(t) && !hex
    case Control(ch) => !IsWord(ch) && !IsBlank(ch)
    case _ => false
  }

  /** Two tokens that may stand next to each other: neither two runs of blanks nor two words. */
  predicate Separate(a: Node, b: Node)
  {
    !(a.Ws? && b.Ws?) && !((a.AlphaNum? || a.Num?) && (b.AlphaNum? || b.Num?))
  }

  /** Tokens are as long as possible. */
  predicate Tokens(nn: seq<Node>)
  {
    (forall i | 0 <= i < |nn| :: IsToken(nn[i])) && (forall i | 0 < i < |nn| :: Separate(nn[i - 1], nn[i]))
  }

  /** A text without its trailing run of blanks. */
  function StripBlanks(s: string): string
  {
    if s != "" && IsBlank(s[|s| - 1]) then StripBlanks(s[..|s| - 1]) else s
  }

  lemma {:induction false} StripRun(s: string, n: nat)
    requires n <= |s| && AllBlank(s[n..]) && (n > 0 ==> !IsBlank(s[n - 1]))
    ensures StripBlanks(s) == s[..n]
    decreases |s|
  {
    if |s| == n {
      assert s[..n] == s;
    } else {
      var t := s[..|s| - 1];
      assert IsBlank(s[n..][|s| - 1 - n]);
      assert forall i | 0 <= i < |t[n..]| :: t[n..][i] == s[n..][i];
      StripRun(t, n);
      assert t[..n] == s[..n];
    }
  }

  /** Nothing is lost exactly if the text does not end in a blank; the text "a " shows the loss. */
  lemma {:induction false} LosslessExactly(s: string)
    ensures StripBlanks(s) <= s
    ensures StripBlanks(s) == s <==> s == "" || !IsBlank(s[|s| - 1])
    ensures StripBlanks("a ") == "a"
    decreases |s|
  {
    if s != "" && IsBlank(s[|s| - 1]) {
      LosslessExactly(s[..|s| - 1]);
    }
    var a := "a ";
    assert a[..1] == "a" && StripBlanks(a[..1]) == "a";
  }

  datatype State = InControl | InWs | InAlpha | InNum

  /** The token under construction: the text from start to i. */
  predicate Pending(state: State, run: string)
  {
    match state
    case InControl => run == ""
    case InWs => run != "" && AllBlank(run)
    case InAlpha => run != "" && AllWord(run) && !AllDigits(run)
    case InNum => run != "" && AllDigits(run)
  }

  function Finish(state: State, run: string): Node
    requires state != InControl
  {
    match state case InWs => Ws(run) case InAlpha => AlphaNum(run) case InNum => Num(run, false)
  }

  predicate CanFollow(nn: seq<Node>, state: State)
  {
    nn != [] ==> if state == InControl then nn[|nn| - 1].Control? else Separate(nn[|nn| - 1], Finish(state, ""))
  }

  lemma {:induction false} AppendToken(nn: seq<Node>, n: Node)
    requires Tokens(nn) && IsToken(n) && (nn != [] ==> Separate(nn[|nn| - 1], n))
    ensures Tokens(nn + [n]) && TextAll(nn + [n]) == TextAll(nn) + Text(n)
  {
    TextAppend(nn, [n]);
    TextOne(n);
  }

  /** Emitting the finished run; what may follow it is a run of another kind. */
  lemma {:induction false} EmitRun(nn: seq<Node>, state: State, run: string)
    requires Tokens(nn) && CanFollow(nn, state) && state != InControl && Pending(state, run)
    ensures var nn' := nn + [Finish(state, run)];
            && Tokens(nn') && TextAll(nn') == TextAll(nn) + run
            && (state == InWs ==> CanFollow(nn', InAlpha) && CanFollow(nn', InNum))
            && (state != InWs ==> CanFollow(nn', InWs))
            && forall c | !IsWord(c) && !IsBlank(c) :: Separate(Finish(state, run), Control(c))
  {
    AppendToken(nn, Finish(state, run));
  }

  lemma {:induction false} EmitControl(nn: seq<Node>, c: char)
    requires Tokens(nn) && !IsWord(c) && !IsBlank(c)
    ensures var nn' := nn + [Control(c)];
            Tokens(nn') && TextAll(nn') == TextAll(nn) + [c] && CanFollow(nn', InControl)
  {
    AppendToken(nn, Control(c));
  }

  lemma FollowControl(nn: seq<Node>, state: State)
    requires CanFollow(nn, InControl)
    ensures CanFollow(nn, state)
  {
  }

  lemma ExtendRun(state: State, run: string, c: char, next: State)
    requires Pending(state, run)
    requires if state == InControl || (state == InWs) != (next == InWs) then false
             else if IsLetter(c) then next == InAlpha
             else if IsDigit(c) then next == state && state != InWs
             else IsBlank(c) && next == InWs
    ensures Pending(next, run + [c])
  {
    var s := run + [c];
    assert s[|run|] == c && forall i | 0 <= i < |run| :: s[i] == run[i];
    assert forall i | 0 <= i < |s| :: s[i] == if i < |run| then run[i] else c;
    match state
    case InAlpha =>
      var k :| 0 <= k < |run| && !IsDigit(run[k]);
      assert !IsDigit(s[k]);
    case InNum => assert next == InAlpha ==> !IsDigit(s[|run|]);
    case _ =>
  }

  lemma StartRun(c: char, state: State)
    requires (state == InAlpha && IsLetter(c)) || (state == InNum && IsDigit(c)) || (state == InWs && IsBlank(c))
    ensures Pending(state, [c])
  {
    if state == InAlpha {
      assert !IsDigit([c][0]);
    }
  }

  lemma Slices(data: string, start: nat, i: nat)
    requires start <= i < |data|
    ensures data[..i + 1] == data[..i] + [data[i]] && data[start..i + 1] == data[start..i] + [data[i]]
    ensures data[i..i + 1] == [data[i]] && data[..start] + data[start..i] == data[..i]
  {
  }

  /**
    The tokens of a text. They spell the text without its trailing blanks (a final run of blanks is
    never emitted), and every word and every run of blanks is as long as it can be.
  */
  method Tokenize(data: string) returns (res: seq<Node>)
    ensures TextAll(res) == StripBlanks(data)
    ensures Tokens(res)
  {
    hide Tokens, TextAll, CanFollow, Pending, StripBlanks, Text, AllBlank, Separate, IsToken;
    res := [];
    var state := InControl;
    var start, i := 0, 0;
    Nothing();
    while i < |data|
      invariant 0 <= start <= i <= |data|
      invariant Tokens(res) && CanFollow(res, state)
      invariant state != InControl ==> Pending(state, data[start..i])
      invariant TextAll(res) == if state == InControl then data[..i] else data[..start]
      invariant state == InWs && start > 0 ==> !IsBlank(data[start - 1])
      invariant state != InWs && i > 0 ==> !IsBlank(data[i - 1])
    {
      var c := data[i];
      ghost var run := data[start..i];
      Slices(data, start, i);
      if IsLetter(c) {
        match state {
          case InControl =>
            StartRun(c, InAlpha);
            FollowControl(res, InAlpha);
            start, state := i, InAlpha;
          case InWs =>
            EmitRun(res, state, run);
            StartRun(c, InAlpha);
            res := res + [Ws(data[start..i])];
            start, state := i, InAlpha;
          case InAlpha =>
            ExtendRun(state, run, c, InAlpha);
          case InNum =>
            ExtendRun(state, run, c, InAlpha);
            NumIsWord(res);
            state := InAlpha;
        }
      } else if IsDigit(c) {
        match state {
          case InControl =>
            StartRun(c, InNum);
            FollowControl(res, InNum);
            start, state := i, InNum;
          case InWs =>
            EmitRun(res, state, run);
            StartRun(c, InNum);
            res := res + [Ws(data[start..i])];
            start, state := i, InNum;
          case InAlpha =>
            ExtendRun(state, run, c, InAlpha);
          case InNum =>
            ExtendRun(state, run, c, InNum);
        }
      } else if IsBlank(c) {
        match state {
          case InControl =>
            StartRun(c, InWs);
            FollowControl(res, InWs);
            start, state := i, InWs;
          case InWs =>
            ExtendRun(state, run, c, InWs);
          case InAlpha =>
            EmitRun(res, state, run);
            StartRun(c, InWs);
            res := res + [AlphaNum(data[start..i])];
            start, state := i, InWs;
          case InNum =>
            EmitRun(res, state, run);
            StartRun(c, InWs);
            res := res + [Num(data[start..i], false)];
            start, state := i, InWs;
        }
      } else {
        match state {
          case InControl =>
          case InWs =>
            EmitRun(res, state, run);
            res := res + [Ws(data[start..i])];
          case InAlpha =>
            EmitRun(res, state, run);
            res := res + [AlphaNum(data[start..i])];
          case InNum =>
            EmitRun(res, state, run);
            res := res + [Num(data[start..i], false)];
        }
        state := InControl;
        EmitControl(res, c);
        res := res + [Control(c)];
      }
      i := i + 1;
    }
    assert data[..i] == data;
    assert data[..start] + data[start..] == data && data[start..i] == data[start..];
    match state {
      case InControl => StripAll(data, i);
      case InWs =>
        WsIsBlank(data[start..]);
        StripRun(data, start);
      case InAlpha =>
        StripAll(data, i);
        EmitRun(res, state, data[start..]);
        res := res + [AlphaNum(data[start..])];
      case InNum =>
        StripAll(data, i);
        EmitRun(res, state, data[start..]);
        res := res + [Num(data[start..], false)];
    }
  }

  lemma Nothing()
    ensures Tokens([]) && TextAll([]) == "" && CanFollow([], InControl)
  {
  }

  lemma NumIsWord(nn: seq<Node>)
    requires CanFollow(nn, InNum)
    ensures CanFollow(nn, InAlpha)
  {
  }

  lemma WsIsBlank(run: string)
    requires Pending(InWs, run)
    ensures AllBlank(run)
  {
  }

  lemma {:induction false} StripAll(data: string, n: nat)
    requires n == |data| && (n > 0 ==> !IsBlank(data[n - 1]))
    ensures StripBlanks(data) == data
  {
  }

  // ----- The tokens are determined by the text -----------------------------------------

  predicate SameClass(n: Node, c: char)
  {
    match n
    case Ws(_) => IsBlank(c)
    case AlphaNum(_) => IsWord(c)
    case Num(_, _) => IsWord(c)
    case _ => false
  }

  lemma {:induction false} FirstChar(nn: seq<Node>)
    requires Tokens(nn) && nn != []
    ensures Text(nn[0]) != "" && TextAll(nn)[0] == Text(nn[0])[0]
  {
    assert IsToken(nn[0]);
  }

  /** The first token reaches up to the first character that cannot belong to it. */
  lemma {:induction false} FirstTokenMaximal(nn: seq<Node>)
    requires Tokens(nn) && nn != []
    ensures var k := |Text(nn[0])|; k < |TextAll(nn)| ==> !SameClass(nn[0], TextAll(nn)[k])
  {
    var rest := nn[1..];
    assert IsToken(nn[0]);
    if rest != [] {
      assert Tokens(rest) by {
        assert forall i | 0 <= i < |rest| :: rest[i] == nn[i + 1];
      }
      FirstChar(rest);
      assert Separate(nn[0], nn[1]) && IsToken(nn[1]);
      assert TextAll(nn)[|Text(nn[0])|] == Text(nn[1])[0];
    }
  }

  lemma {:induction false} TokenChars(n: Node)
    requires IsToken(n)
    ensures n.Control? ==> |Text(n)| == 1
    ensures !n.Control? ==> forall j | 0 <= j < |Text(n)| :: SameClass(n, Text(n)[j])
  {
  }

  /** Two token sequences that spell the same text start with the same token. */
  lemma {:induction false} SameFirst(a: seq<Node>, b: seq<Node>)
    requires Tokens(a) && Tokens(b) && a != [] && b != [] && TextAll(a) == TextAll(b)
    ensures a[0] == b[0]
  {
    var x, y, s := Text(a[0]), Text(b[0]), TextAll(a);
    FirstChar(a);
    FirstChar(b);
    assert IsToken(a[0]) && IsToken(b[0]);
    TokenChars(a[0]);
    TokenChars(b[0]);
    assert x == s[..|x|] && y == s[..|y|];
    assert |x| < |y| ==> s[|x|] == y[|x|] && SameClass(b[0], s[|x|]);
    assert |y| < |x| ==> s[|y|] == x[|y|] && SameClass(a[0], s[|y|]);
    FirstTokenMaximal(a);
    FirstTokenMaximal(b);
    assert |x| == |y|;
  }

  /** Tokenizing is one-to-one: the tokens of a text are the only token sequence that spells it. */
  lemma {:induction false} TokensUnique(a: seq<Node>, b: seq<Node>)
    requires Tokens(a) && Tokens(b) && TextAll(a) == TextAll(b)
    ensures a == b
  {
    if a == [] {
      if b != [] {
        FirstChar(b);
      }
    } else if b == [] {
      FirstChar(a);
    } else {
      SameFirst(a, b);
      var a', b' := a[1..], b[1..];
      assert forall i | 0 <= i < |a'| :: a'[i] == a[i + 1];
      assert forall i | 0 <= i < |b'| :: b'[i] == b[i + 1];
      assert TextAll(a') == TextAll(a)[|Text(a[0])|..] && TextAll(b') == TextAll(b)[|Text(b[0])|..];
      TokensUnique(a', b');
      assert a == [a[0]] + a' && b == [b[0]] + b';
    }
  }
}
