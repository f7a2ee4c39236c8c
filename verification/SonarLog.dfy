/**
  The sonar log: comparisons are serialized by the instrumented program, reserved and written
  concurrently into a shared region, and parsed by the fuzzer.
*/
module SonarLog {
  import opened Arith
  import opened Cover
  import opened LittleEndian
  import opened SonarEval
  import opened SonarFlags
  import opened Wrappers

  const HDR_LEN: nat := 6
  const MAX_LEN: nat := 20
  const REGION_SIZE: nat := 0x10_0000

  // ----- Records -----------------------------------------------------------------------

  datatype Record = Record(id: nat, v1: seq<Byte>, v2: seq<Byte>)

  predicate RecordOk(r: Record)
  {
    r.id < 0x1_0000_0000 && |r.v1| <= MAX_LEN && |r.v2| <= MAX_LEN
  }

  function Encode(r: Record): (s: seq<Byte>)
    requires RecordOk(r)
    ensures |s| == HDR_LEN + |r.v1| + |r.v2|
  {
    ToLE(r.id, 4) + [|r.v1|, |r.v2|] + r.v1 + r.v2
  }

  /**
    What the memory that the data word of an interface points to holds when it is read as a string
    header: a string that is too long, a short one, or none that can be read without a fault.
  */
  datatype Header = TooLong | Readable(bytes: seq<Byte>) | Unreadable

  /**
    An operand of a comparison: a number of some width, a string, a byte array of 1 to 20 bytes, a
    value of a named string type, or anything else.
  */
  datatype Operand =
    | Number(width: nat, signed: bool, x: int)
    | Str(s: seq<Byte>)
    | ByteArray(s: seq<Byte>)
    | NamedStr(s: seq<Byte>)
    | Other(header: Header)

  predicate OperandOk(v: Operand)
  {
    match v
    case Number(width, signed, x) =>
      && (width == 1 || width == 2 || width == 4 || width == 8)
      && if signed then 0 <= 2 * x + Pow256(width) < 2 * Pow256(width) else 0 <= x < Pow256(width)
    case ByteArray(s) => 1 <= |s| <= MAX_LEN
    case Other(Readable(s)) => |s| <= MAX_LEN
    case _ => true
  }

  datatype Serialized = Skipped | Bytes(bytes: seq<Byte>, signed: bool, isString: bool) | Unserializable

  /** The low bytes of a number, in two's complement. */
  function NumberBytes(width: nat, x: int): (s: seq<Byte>)
    requires 0 <= x + Pow256(width) && x < Pow256(width)
    ensures |s| == width
  {
    ToLE(if x < 0 then x + Pow256(width) else x, width)
  }

  /** Next to a string, a value of any other type is taken for one of a named string type, whatever it is. */
  function Serialize(v: Operand, other: Operand): (r: Serialized)
    requires OperandOk(v)
    ensures r.Bytes? ==> |r.bytes| <= MAX_LEN
  {
    match v
    case Number(width, signed, x) => Bytes(NumberBytes(width, x), signed, false)
    case Str(s) => if |s| > MAX_LEN then Skipped else Bytes(s, false, true)
    case ByteArray(s) => Bytes(s, false, true)
    case NamedStr(s) => if other.Str? && |s| <= MAX_LEN then Bytes(s, false, true) else Skipped
    case Other(header) =>
      if !other.Str? || header.TooLong? then Skipped
      else if header.Unreadable? then Unserializable
      else Bytes(header.bytes, false, true)
  }

  function SetFlag(id: nat, bit: Byte, on: bool): nat
    requires bit > 0
  {
    if on && id / bit % 2 == 0 then id + bit else id
  }

  /** What comes of a report: nothing, a record in the log, or a fault of the reporting function. */
  datatype Report = Silent | Logged(record: Record) | Fault

  /** The record of a comparison; the sign of a constant operand does not count. */
  function MakeRecord(v1: Operand, v2: Operand, id: nat): Report
    requires OperandOk(v1) && OperandOk(v2) && id < 0x1_0000_0000
  {
    match Serialize(v1, v2)
    case Skipped => Silent
    case Unserializable => Fault
    case Bytes(b1, signed1, isString1) =>
      match Serialize(v2, v1)
      case Skipped => Silent
      case Unserializable => Fault
      case Bytes(b2, signed2, isString2) =>
        var signed := (signed1 && id / SONAR_CONST1 % 2 == 0) || (signed2 && id / SONAR_CONST2 % 2 == 0);
        Logged(Record(SetFlag(SetFlag(id, SONAR_SIGNED, signed), SONAR_STRING, isString1 || isString2), b1, b2))
  }

  /**
    Reporting a comparison faults exactly if a value that is no string and has no readable header
    meets a string, which must not be too long if it is the first operand.
  */
  lemma FaultsExactly(v1: Operand, v2: Operand, id: nat)
    requires OperandOk(v1) && OperandOk(v2) && id < 0x1_0000_0000
    ensures MakeRecord(v1, v2, id) == Fault <==>
            || (v1 == Other(Unreadable) && v2.Str?)
            || (v1.Str? && |v1.s| <= MAX_LEN && v2 == Other(Unreadable))
  {
    hide SetFlag;
  }

  // ----- What a record says ------------------------------------------------------------

  /** Strings, byte arrays and values of named string types; next to a string anything else with a header, too. */
  predicate IsText(v: Operand)
  {
    !v.Number?
  }

  /** Next to the other operand, the value can be written down. */
  predicate Writable(v: Operand, other: Operand)
  {
    match v
    case Number(_, _, _) => true
    case Str(s) => |s| <= 20
    case ByteArray(_) => true
    case NamedStr(s) => other.Str? && |s| <= 20
    case Other(header) => other.Str? && header.Readable?
  }

  /** The bytes are those of the string, or encode the number at its own width and sign. */
  predicate Says(bytes: seq<Byte>, v: Operand)
  {
    match v
    case Number(width, signed, x) =>
      |bytes| == width && bytes != [] && x == if signed then TwosComplement(bytes) else FromLE(bytes)
    case Str(s) => bytes == s
    case ByteArray(s) => bytes == s
    case NamedStr(s) => bytes == s
    case Other(header) => header.Readable? && bytes == header.bytes
  }

  lemma SerializeSays(v: Operand, other: Operand)
    requires OperandOk(v)
    ensures var r := Serialize(v, other);
            && (r.Bytes? <==> Writable(v, other))
            && (r.Bytes? ==> Says(r.bytes, v) && r.isString == IsText(v) && r.signed == (v.Number? && v.signed))
  {
    if v.Number? {
      NumberRecovered(v);
    }
  }

  lemma FlagsSet(id: nat, signed: bool, isString: bool)
    requires id / 16 % 4 == 0
    ensures var f := SetFlag(SetFlag(id, SONAR_SIGNED, signed), SONAR_STRING, isString);
            && f % 16 == id % 16 && f / 64 == id / 64
            && (f / 16 % 2 == 1 <==> signed) && (f / 32 % 2 == 1 <==> isString)
  {
    var q, r := id / 64, id % 64;
    var h, low := id / 16, id % 16;
    assert id == 16 * h + low && h == 4 * (h / 4) + h % 4;
    DivModUnique(id, 64, h / 4, low);
    assert r == low;
    var s, t := if signed then 1 else 0, if isString then 1 else 0;
    TypeBits(q, r, 0, 0);
    TypeBits(q, r, s, 0);
    TypeBits(q, r, s, t);
    hide SetFlag;
    SetClear(id, 16, signed);
    SetClear(id + 16 * s, 32, isString);
  }

  lemma SetClear(id: nat, bit: Byte, on: bool)
    requires bit > 0 && id / bit % 2 == 0
    ensures SetFlag(id, bit, on) == id + if on then bit else 0
  {
  }

  lemma TypeBits(q: nat, r: nat, s: nat, t: nat)
    requires r < 16 && s < 2 && t < 2
    ensures var f := 64 * q + r + 16 * s + 32 * t;
            f % 16 == r && f / 64 == q && f / 16 % 2 == s && f / 32 % 2 == t
  {
    var f := 64 * q + r + 16 * s + 32 * t;
    DivModUnique(f, 64, q, r + 16 * s + 32 * t);
    DivModUnique(f, 16, 4 * q + s + 2 * t, r);
    DivModUnique(f, 32, 2 * q + t, r + 16 * s);
    DivModUnique(4 * q + s + 2 * t, 2, 2 * q + t, s);
    DivModUnique(2 * q + t, 2, q, t);
  }

  /**
    The record of a comparison whose id has no type flags yet: there is one exactly if both operands
    can be written down. It keeps operator, site and constant flags, says bit by bit what the operands
    are, is marked as text if one of them is, and as signed if a signed operand is not constant.
  */
  lemma RecordMeans(v1: Operand, v2: Operand, id: nat)
    requires OperandOk(v1) && OperandOk(v2) && id < 0x1_0000_0000 && id / 16 % 4 == 0
    ensures var r := MakeRecord(v1, v2, id);
            && (r.Logged? <==> Writable(v1, v2) && Writable(v2, v1))
            && (r.Logged? ==>
                  && r.record.id % 16 == id % 16 && r.record.id / 64 == id / 64
                  && (r.record.id / 32 % 2 == 1 <==> IsText(v1) || IsText(v2))
                  && (r.record.id / 16 % 2 == 1 <==>
                        (v1.Number? && v1.signed && id / 64 % 2 == 0) || (v2.Number? && v2.signed && id / 128 % 2 == 0))
                  && Says(r.record.v1, v1) && Says(r.record.v2, v2))
  {
    hide SetFlag, Writable, Says, Serialize, OperandOk;
    SerializeSays(v1, v2);
    SerializeSays(v2, v1);
    var s1, s2 := Serialize(v1, v2), Serialize(v2, v1);
    if s1.Bytes? && s2.Bytes? {
      FlagsSet(id, (s1.signed && id / 64 % 2 == 0) || (s2.signed && id / 128 % 2 == 0), s1.isString || s2.isString);
    }
  }

  /** A number is recovered from its bytes at its own width. */
  lemma NumberRecovered(v: Operand)
    requires OperandOk(v) && v.Number?
    ensures var s := NumberBytes(v.width, v.x);
            |s| == v.width && s != [] && v.x == if v.signed then TwosComplement(s) else FromLE(s)
  {
    var p := Pow256(v.width);
    var s := NumberBytes(v.width, v.x);
    RoundTrip(if v.x < 0 then v.x + p else v.x, v.width);
    HalfRange(s);
  }

  // ----- Parsing -----------------------------------------------------------------------

  datatype Sample = Sample(site: nat, flags: Byte, v1: seq<Byte>, v2: seq<Byte>)

  function SampleOf(r: Record): Sample
  {
    Sample(r.id / 256, r.id % 256, r.v1, r.v2)
  }

  /** The samples in a log, before trimming; None stands for the fatal error on corrupted data. */
  function Parse(s: seq<Byte>): Option<seq<Sample>>
    decreases |s|
  {
    if |s| <= HDR_LEN then Some([])
    else
      var id, n1, n2 := FromLE(s[..4]), s[4], s[5];
      var body := s[HDR_LEN..];
      if n1 > MAX_LEN || n2 > MAX_LEN || |body| < n1 + n2 then None
      else
        var rest := Parse(body[n1 + n2..]);
        if rest.None? then None
        else Some([Sample(id / 256, id % 256, body[..n1], body[n1..n1 + n2])] + rest.value)
  }

  /** Removes a common tail of 0x00 and 0xff bytes, as if the shorter operand were filled up with zeros. */
  function Trim(v1: seq<Byte>, v2: seq<Byte>): (r: (seq<Byte>, seq<Byte>))
    ensures r.0 <= v1 && r.1 <= v2
    decreases |v1| + |v2|
  {
    if v1 == [] && v2 == [] then (v1, v2)
    else
      var i := if |v2| > |v1| then |v2| - 1 else |v1| - 1;
      var c1 := if i < |v1| then v1[i] else 0;
      var c2 := if i < |v2| then v2[i] else 0;
      if (c1 == 0 || c1 == 255) && (c2 == 0 || c2 == 255) then
        Trim(if i < |v1| then v1[..i] else v1, if i < |v2| then v2[..i] else v2)
      else (v1, v2)
  }

  // What is trimmed: the longest common tail of filler bytes.

  predicate Filler(b: Byte)
  {
    b == 0 || b == 255
  }

  /** A byte of an operand that is filled up with zeros. */
  function At(v: seq<Byte>, i: int): Byte
  {
    if 0 <= i < |v| then v[i] else 0
  }

  function Longer(v1: seq<Byte>, v2: seq<Byte>): nat
  {
    if |v2| > |v1| then |v2| else |v1|
  }

  function Front(v: seq<Byte>, n: nat): seq<Byte>
  {
    if n < |v| then v[..n] else v
  }

  /** a and b are what is left of v1 and v2 without their longest common tail of filler bytes. */
  predicate Trimmed(v1: seq<Byte>, v2: seq<Byte>, a: seq<Byte>, b: seq<Byte>)
  {
    var n := Longer(a, b);
    && a == Front(v1, n) && b == Front(v2, n)
    && (forall i | n <= i < Longer(v1, v2) :: Filler(At(v1, i)) && Filler(At(v2, i)))
    && (n > 0 ==> !(Filler(At(v1, n - 1)) && Filler(At(v2, n - 1))))
  }

  lemma {:induction false} TrimIsLongestTail(v1: seq<Byte>, v2: seq<Byte>)
    ensures Trimmed(v1, v2, Trim(v1, v2).0, Trim(v1, v2).1)
    decreases |v1| + |v2|
  {
    hide Trim, Trimmed;
    TrimStep(v1, v2);
    var n := Longer(v1, v2);
    if n > 0 && Filler(At(v1, n - 1)) && Filler(At(v2, n - 1)) {
      var w1, w2 := Front(v1, n - 1), Front(v2, n - 1);
      TrimIsLongestTail(w1, w2);
      var (a, b) := Trim(w1, w2);
      OneMoreTrimmed(v1, v2, a, b);
    } else {
      NothingTrimmed(v1, v2);
    }
  }

  lemma TrimStep(v1: seq<Byte>, v2: seq<Byte>)
    ensures var n := Longer(v1, v2);
            Trim(v1, v2) == if n > 0 && Filler(At(v1, n - 1)) && Filler(At(v2, n - 1))
                            then Trim(Front(v1, n - 1), Front(v2, n - 1)) else (v1, v2)
  {
  }

  lemma NothingTrimmed(v1: seq<Byte>, v2: seq<Byte>)
    requires var n := Longer(v1, v2); n > 0 ==> !(Filler(At(v1, n - 1)) && Filler(At(v2, n - 1)))
    ensures Trimmed(v1, v2, v1, v2)
  {
  }

  lemma OneMoreTrimmed(v1: seq<Byte>, v2: seq<Byte>, a: seq<Byte>, b: seq<Byte>)
    requires var n := Longer(v1, v2);
             && n > 0 && Filler(At(v1, n - 1)) && Filler(At(v2, n - 1))
             && Trimmed(Front(v1, n - 1), Front(v2, n - 1), a, b)
    ensures Trimmed(v1, v2, a, b)
  {
    var n := Longer(v1, v2) - 1;
    var w1, w2, k := Front(v1, n), Front(v2, n), Longer(a, b);
    assert forall i | 0 <= i < n :: At(w1, i) == At(v1, i) && At(w2, i) == At(v2, i);
    assert forall i | k <= i < n :: At(w1, i) == At(v1, i);
    assert Longer(w1, w2) == n;
  }

  /** Nothing else is left by any such trimming. */
  lemma TrimmedIsUnique(v1: seq<Byte>, v2: seq<Byte>, a: seq<Byte>, b: seq<Byte>, c: seq<Byte>, d: seq<Byte>)
    requires Trimmed(v1, v2, a, b) && Trimmed(v1, v2, c, d)
    ensures a == c && b == d
  {
    var m, n := Longer(a, b), Longer(c, d);
    var i: int, j: int := m - 1, n - 1;
    assert Longer(a, b) <= Longer(v1, v2) && Longer(c, d) <= Longer(v1, v2);
    assert n <= i ==> Filler(At(v1, i)) && Filler(At(v2, i));
    assert m <= j ==> Filler(At(v1, j)) && Filler(At(v2, j));
  }

  function TrimSample(s: Sample): Sample
  {
    if HasFlag(s.flags, SONAR_STRING) then s else var (a, b) := Trim(s.v1, s.v2); s.(v1 := a, v2 := b)
  }

  function TrimAll(samples: seq<Sample>): (r: seq<Sample>)
    ensures |r| == |samples|
  {
    seq(|samples|, k requires 0 <= k < |samples| => TrimSample(samples[k]))
  }

  /** Every sample is of a site in the table. */
  predicate InTable(samples: seq<Sample>, sites: nat)
  {
    forall k | 0 <= k < |samples| :: samples[k].site < sites
  }

  /** The trimmed samples of the log; None if the log is corrupted, or names a site that is not in the table. */
  method ParseSonarData(data: seq<Byte>, sites: nat) returns (res: Option<seq<Sample>>)
    ensures res.Some? <==> Parse(data).Some? && InTable(Parse(data).value, sites)
    ensures res.Some? ==> res == Some(TrimAll(Parse(data).value))
  {
    hide FromLE, Parse, TrimSample, TrimAll;
    var sonar: seq<Byte>, samples: seq<Sample> := data, [];
    ghost var raw: seq<Sample> := [];
    ParseStart(data);
    while |sonar| > HDR_LEN
      invariant samples == TrimAll(raw)
      invariant Leads(data, raw, sonar) && InTable(raw, sites)
      decreases |sonar|
    {
      ParseMore(data, raw, sonar);
      var id := FromLE(sonar[..4]);
      var n1, n2 := sonar[4], sonar[5];
      sonar := sonar[HDR_LEN..];
      if n1 > MAX_LEN || n2 > MAX_LEN || |sonar| < n1 + n2 {
        return None;
      }
      var sample := Sample(id / 256, id % 256, sonar[..n1], sonar[n1..n1 + n2]);
      sonar := sonar[n1 + n2..];
      var trimmed := TrimLoop(sample);
      if sample.site >= sites {
        OutOfTable(data, raw + [sample], sonar, sites);
        return None;
      }
      TrimAppend(raw, sample);
      raw := raw + [sample];
      samples := samples + [trimmed];
    }
    ParseEnd(data, raw, sonar);
    return Some(samples);
  }

  /** The samples found so far, followed by those in the rest, are the samples of the whole log. */
  ghost predicate Leads(data: seq<Byte>, raw: seq<Sample>, rest: seq<Byte>)
  {
    if Parse(rest).None? then Parse(data).None? else Parse(data) == Some(raw + Parse(rest).value)
  }

  lemma {:induction false} OutOfTable(data: seq<Byte>, raw: seq<Sample>, rest: seq<Byte>, sites: nat)
    requires Leads(data, raw, rest) && raw != [] && raw[|raw| - 1].site >= sites
    ensures Parse(data).Some? ==> !InTable(Parse(data).value, sites)
  {
    assert Parse(rest).Some? ==> (raw + Parse(rest).value)[|raw| - 1] == raw[|raw| - 1];
  }

  lemma ParseStart(data: seq<Byte>)
    ensures Leads(data, [], data) && TrimAll([]) == []
  {
    assert Parse(data).Some? ==> [] + Parse(data).value == Parse(data).value;
  }

  lemma {:induction false} ParseMore(data: seq<Byte>, raw: seq<Sample>, s: seq<Byte>)
    requires |s| > HDR_LEN && Leads(data, raw, s)
    ensures var id, n1, n2 := FromLE(s[..4]), s[4], s[5];
            var body := s[HDR_LEN..];
            if n1 > MAX_LEN || n2 > MAX_LEN || |body| < n1 + n2 then Parse(data).None?
            else Leads(data, raw + [Sample(id / 256, id % 256, body[..n1], body[n1..n1 + n2])], body[n1 + n2..])
  {
    hide FromLE;
    var id, n1, n2 := FromLE(s[..4]), s[4], s[5];
    var body := s[HDR_LEN..];
    if !(n1 > MAX_LEN || n2 > MAX_LEN || |body| < n1 + n2) {
      var sample := Sample(id / 256, id % 256, body[..n1], body[n1..n1 + n2]);
      var rest := Parse(body[n1 + n2..]);
      assert rest.Some? ==> raw + ([sample] + rest.value) == (raw + [sample]) + rest.value;
    }
  }

  lemma {:induction false} ParseEnd(data: seq<Byte>, raw: seq<Sample>, s: seq<Byte>)
    requires |s| <= HDR_LEN && Leads(data, raw, s)
    ensures Parse(data) == Some(raw)
  {
    assert raw + [] == raw;
  }

  lemma TrimAppend(samples: seq<Sample>, s: Sample)
    ensures TrimAll(samples + [s]) == TrimAll(samples) + [TrimSample(s)]
  {
  }

  /** Strings stay as they are; numbers lose their longest common tail of 0x00 and 0xff bytes. */
  method TrimLoop(s: Sample) returns (r: Sample)
    ensures r == TrimSample(s)
    ensures r.site == s.site && r.flags == s.flags
    ensures if HasFlag(s.flags, SONAR_STRING) then r == s else Trimmed(s.v1, s.v2, r.v1, r.v2)
  {
    hide Trim, Trimmed, HasFlag;
    TrimIsLongestTail(s.v1, s.v2);
    r := s;
    if !HasFlag(s.flags, SONAR_STRING) {
      var v1, v2 := s.v1, s.v2;
      while |v1| > 0 || |v2| > 0
        invariant Trim(v1, v2) == Trim(s.v1, s.v2)
        decreases |v1| + |v2|
      {
        TrimStep(v1, v2);
        var i := |v1| - 1;
        if |v2| > |v1| {
          i := |v2| - 1;
        }
        var c1, c2: Byte := 0, 0;
        if i < |v1| {
          c1 := v1[i];
        }
        if i < |v2| {
          c2 := v2[i];
        }
        if !((c1 == 0 || c1 == 255) && (c2 == 0 || c2 == 255)) {
          break;
        }
        if i < |v1| {
          v1 := v1[..i];
        }
        if i < |v2| {
          v2 := v2[..i];
        }
      }
      TrimStep(v1, v2);
      r := s.(v1 := v1, v2 := v2);
    }
  }

  // ----- Parsing what was written ------------------------------------------------------

  predicate RecordsOk(rs: seq<Record>)
  {
    forall k | 0 <= k < |rs| :: RecordOk(rs[k])
  }

  function Concat(rs: seq<Record>): seq<Byte>
    requires RecordsOk(rs)
  {
    if rs == [] then [] else Encode(rs[0]) + Concat(rs[1..])
  }

  predicate Blank(r: Record)
  {
    r.v1 == [] && r.v2 == []
  }

  /** What the parser gets out of a complete log: everything, but not a last record with two empty operands. */
  function Parsed(rs: seq<Record>): (r: seq<Sample>)
  {
    if rs == [] || (|rs| == 1 && Blank(rs[0])) then [] else [SampleOf(rs[0])] + Parsed(rs[1..])
  }

  lemma EncodeLayout(r: Record, rest: seq<Byte>)
    requires RecordOk(r)
    ensures var s := Encode(r) + rest;
            && FromLE(s[..4]) == r.id && s[4] == |r.v1| && s[5] == |r.v2|
            && var body := s[HDR_LEN..];
               && |body| == |r.v1| + |r.v2| + |rest|
               && body[..|r.v1|] == r.v1 && body[|r.v1|..|r.v1| + |r.v2|] == r.v2 && body[|r.v1| + |r.v2|..] == rest
  {
    var s := Encode(r) + rest;
    var h := ToLE(r.id, 4);
    SmallPowers();
    RoundTrip(r.id, 4);
    assert s == h + ([|r.v1|, |r.v2|] + r.v1 + r.v2 + rest);
    assert s[..4] == h;
    assert s[HDR_LEN..] == r.v1 + r.v2 + rest;
  }

  /** Parsing the records of a log in order: each comes back with its site, flags and operands. */
  lemma {:induction false} ParseConcat(rs: seq<Record>)
    requires RecordsOk(rs)
    ensures Parse(Concat(rs)) == Some(Parsed(rs))
  {
    if rs != [] {
      var r, rest := rs[0], Concat(rs[1..]);
      ParseConcat(rs[1..]);
      EncodeLayout(r, rest);
      if |rs| == 1 {
        assert rs[1..] == [];
      } else {
        assert |rest| >= HDR_LEN by { assert Concat(rs[1..]) == Encode(rs[1]) + Concat(rs[1..][1..]); }
      }
      hide Encode, FromLE, Concat;
      ParseStep(r, Encode(r) + rest, rest, rs);
    }
  }

  lemma {:induction false} ParseStep(r: Record, s: seq<Byte>, rest: seq<Byte>, rs: seq<Record>)
    requires RecordOk(r) && rs != [] && rs[0] == r && |s| == HDR_LEN + |r.v1| + |r.v2| + |rest|
    requires FromLE(s[..4]) == r.id && s[4] == |r.v1| && s[5] == |r.v2|
    requires var body := s[HDR_LEN..];
             body[..|r.v1|] == r.v1 && body[|r.v1|..|r.v1| + |r.v2|] == r.v2 && body[|r.v1| + |r.v2|..] == rest
    requires Parse(rest) == Some(Parsed(rs[1..])) && (|rs| == 1 <==> rest == [])
    ensures Parse(s) == Some(Parsed(rs))
  {
    hide FromLE;
  }

  /** A log is accepted exactly if it is a concatenation of records and at most a header's length of other bytes. */
  ghost predicate IsLog(s: seq<Byte>)
  {
    exists rs, rest :: IsLogOf(s, rs, rest)
  }

  predicate IsLogOf(s: seq<Byte>, rs: seq<Record>, rest: seq<Byte>)
  {
    RecordsOk(rs) && |rest| <= HDR_LEN && s == Concat(rs) + rest
  }

  lemma {:induction false} ParseAccepts(s: seq<Byte>)
    ensures Parse(s).Some? <==> IsLog(s)
  {
    if Parse(s).Some? {
      var rs, rest := AcceptedLog(s);
      assert IsLogOf(s, rs, rest);
    }
    if IsLog(s) {
      var rs, rest :| IsLogOf(s, rs, rest);
      LogAccepted(rs, rest);
    }
  }

  lemma {:induction false} AcceptedLog(s: seq<Byte>) returns (rs: seq<Record>, rest: seq<Byte>)
    requires Parse(s).Some?
    ensures IsLogOf(s, rs, rest)
    decreases |s|
  {
    if |s| <= HDR_LEN {
      rs, rest := [], s;
    } else {
      ParseHead(s);
      FirstRecord(s);
      hide *;
      var r, tail := HeadOf(s), TailOf(s);
      var more, rest' := AcceptedLog(tail);
      rs, rest := [r] + more, rest';
      LogOfMore(s, r, more, rest);
    }
  }

  function HeadOf(s: seq<Byte>): Record
    requires |s| > HDR_LEN && |s| >= HDR_LEN + s[4] + s[5]
  {
    var body, n1: nat, n2: nat := s[HDR_LEN..], s[4], s[5];
    Record(FromLE(s[..4]), body[..n1], body[n1..n1 + n2])
  }

  function TailOf(s: seq<Byte>): seq<Byte>
    requires |s| > HDR_LEN && |s| >= HDR_LEN + s[4] + s[5]
  {
    var n1: nat, n2: nat := s[4], s[5];
    s[HDR_LEN..][n1 + n2..]
  }

  lemma {:induction false} ParseHead(s: seq<Byte>)
    requires |s| > HDR_LEN && Parse(s).Some?
    ensures s[4] <= MAX_LEN && s[5] <= MAX_LEN && |s| >= HDR_LEN + s[4] + s[5]
    ensures Parse(TailOf(s)).Some? && |TailOf(s)| < |s|
  {
    hide FromLE;
  }

  lemma {:induction false} LogOfMore(s: seq<Byte>, r: Record, more: seq<Record>, rest: seq<Byte>)
    requires RecordOk(r) && RecordsOk(more) && |rest| <= HDR_LEN && s == Encode(r) + (Concat(more) + rest)
    ensures IsLogOf(s, [r] + more, rest)
  {
    hide Encode;
    var rs := [r] + more;
    assert rs[1..] == more;
    assert Concat(rs) == Encode(r) + Concat(more);
  }

  lemma FirstRecord(s: seq<Byte>)
    requires |s| > HDR_LEN && s[4] <= MAX_LEN && s[5] <= MAX_LEN && |s| >= HDR_LEN + s[4] + s[5]
    ensures RecordOk(HeadOf(s)) && s == Encode(HeadOf(s)) + TailOf(s)
  {
    var n1, n2 := s[4], s[5];
    var body := s[HDR_LEN..];
    FromLEBound(s[..4]);
    SmallPowers();
    Reencoded(s[..4]);
    hide FromLE, Pow256, ToLE;
    assert s == s[..4] + [n1, n2] + body;
    assert body == body[..n1] + body[n1..n1 + n2] + body[n1 + n2..];
  }

  /** Encoding a decoded byte string gives it back. */
  lemma {:induction false} Reencoded(s: seq<Byte>)
    ensures ToLE(FromLE(s), |s|) == s
  {
    if s != [] {
      Reencoded(s[1..]);
      DivModUnique(FromLE(s), 256, FromLE(s[1..]), s[0]);
    }
  }

  lemma {:induction false} LogAccepted(rs: seq<Record>, rest: seq<Byte>)
    requires RecordsOk(rs) && |rest| <= HDR_LEN
    ensures Parse(Concat(rs) + rest).Some?
  {
    if rs == [] {
      assert [] + rest == rest;
    } else {
      var tail := Concat(rs[1..]) + rest;
      LogAccepted(rs[1..], rest);
      assert Concat(rs) + rest == Encode(rs[0]) + tail;
      EncodeLayout(rs[0], tail);
    }
  }

  /**
    The parsed samples are those of all records exactly if the last record is not empty on both
    sides; otherwise the last is missing.
  */
  lemma {:induction false} ParsedIsAll(rs: seq<Record>)
    ensures var all := seq(|rs|, k requires 0 <= k < |rs| => SampleOf(rs[k]));
            Parsed(rs) == if rs != [] && Blank(rs[|rs| - 1]) then all[..|rs| - 1] else all
  {
    if rs != [] && !(|rs| == 1 && Blank(rs[0])) {
      ParsedIsAll(rs[1..]);
    }
  }

  /** For instance, a comparison of two empty strings at site 0 is lost when it is reported last. */
  lemma LostRecord()
    ensures var r := Record(SONAR_STRING, [], []);
            MakeRecord(Str([]), Str([]), 0) == Logged(r) && Parse(Concat([r])) == Some([])
  {
    var r := Record(SONAR_STRING, [], []);
    assert [r][1..] == [];
    assert |Concat([r])| == HDR_LEN;
  }

  // ----- From operands to verdict ------------------------------------------------------

  lemma FlagBits(id: nat, signed: bool)
    requires id / 16 % 2 == 0 && id / 32 % 2 == 0
    ensures var f := SetFlag(id, SONAR_SIGNED, signed);
            && f % 256 % 8 == id % 8 && f / 256 == id / 256
            && (f % 256 / 16 % 2 == 1 <==> signed) && f % 256 / 32 % 2 == 0
  {
    var h, l := id / 64, id % 64;
    assert l < 16 by {
      DivModUnique(id, 16, 4 * h + l / 16, l % 16);
      DivModUnique(id, 32, 2 * h + l / 32, l % 32);
      LowBits(l);
    }
    SetSigned(h, l, signed);
  }

  lemma SetSigned(h: nat, l: nat, signed: bool)
    requires l < 16
    ensures var id := 64 * h + l;
            var f := SetFlag(id, SONAR_SIGNED, signed);
            && f % 256 % 8 == id % 8 && f / 256 == id / 256
            && (f % 256 / 16 % 2 == 1 <==> signed) && f % 256 / 32 % 2 == 0
  {
    DivModUnique(64 * h + l, 16, 4 * h, l);
    assert (64 * h + l) / 16 % 2 == 0;
    FlagParts(h, l);
    if signed {
      FlagParts(h, l + 16);
      DivModUnique(l + 16, 8, l / 8 + 2, l % 8);
    }
  }

  lemma LowBits(l: nat)
    requires l < 64
    ensures l / 16 % 2 == 0 && l / 32 % 2 == 0 ==> l < 16
  {
  }

  /** The parts of an id whose low six bits are m. */
  lemma FlagParts(h: nat, m: nat)
    requires m < 32
    ensures var f := 64 * h + m;
            f % 256 % 8 == m % 8 && f % 8 == m % 8 && f / 256 == h / 4 && f % 256 / 16 % 2 == m / 16
              && f % 256 / 32 % 2 == 0
  {
    var q, k := h / 4, h % 4;
    var f, w := 64 * h + m, 64 * k + m;
    DivModUnique(f, 256, q, w);
    DivModUnique(f, 8, 8 * h + m / 8, m % 8);
    DivModUnique(w, 8, 8 * k + m / 8, m % 8);
    DivModUnique(w, 16, 4 * k + m / 16, m % 16);
    DivModUnique(w, 32, 2 * k, m);
  }

  /**
    The way of a comparison of two numbers of one type, at least one of them not constant, up to the
    trimming of its sample: what is serialized, recorded and read means the comparison of the values.
  */
  lemma ReportedComparison(v1: Operand, v2: Operand, id: nat)
    requires OperandOk(v1) && OperandOk(v2) && v1.Number? && v2.Number? && v1.width == v2.width
             && v1.signed == v2.signed
    requires id < 0x1_0000_0000 && id / 16 % 2 == 0 && id / 32 % 2 == 0
    requires !(id / SONAR_CONST1 % 2 == 1 && id / SONAR_CONST2 % 2 == 1)
    ensures var r := MakeRecord(v1, v2, id);
            && r.Logged? && SampleOf(r.record).site == id / 256
            && r.record.v1 == NumberBytes(v1.width, v1.x) && r.record.v2 == NumberBytes(v2.width, v2.x)
            && !HasFlag(SampleOf(r.record).flags, SONAR_STRING)
            && (HasFlag(SampleOf(r.record).flags, SONAR_SIGNED) <==> v1.signed)
            && SampleOf(r.record).flags % 8 == id % 8
            && Meaning(SampleOf(r.record).flags, r.record.v1, r.record.v2) == CompareInts(id % 8, v1.x, v2.x)
  {
    NumberRecovered(v1);
    NumberRecovered(v2);
    FlagBits(id, v1.signed);
  }

  // ----- What trimming does to a verdict -----------------------------------------------

  /** The value of an operand in a comparison. */
  function Value(signed: bool, v: seq<Byte>): int
    requires v != []
  {
    if signed then TwosComplement(v) else FromLE(v)
  }

  /**
    Cutting both operands down to n bytes keeps their order: something is left, and the tails that
    are cut off either are equal, with equal signs left if the comparison is signed, or are ordered
    as what is left of the operands.
  */
  predicate KeepsOrder(signed: bool, v1: seq<Byte>, v2: seq<Byte>, n: nat)
    requires |v1| == |v2| && n <= |v1|
  {
    n > 0 && (n == |v1| ||
      var a, b, s, t := v1[..n], v2[..n], Value(signed, v1[n..]), Value(signed, v2[n..]);
      if s == t then signed ==> Negative(a) == Negative(b)
      else if s < t then Value(signed, a) < Value(signed, b)
      else Value(signed, b) < Value(signed, a))
  }

  predicate SameOrder(x: int, y: int, x': int, y': int)
  {
    (x < y <==> x' < y') && (x == y <==> x' == y')
  }

  lemma {:induction false} SplitOrder(n: nat, a: nat, b: nat, s: int, t: int)
    requires a < Pow256(n) && b < Pow256(n)
    ensures a + Place(n, s) < b + Place(n, t) <==> s < t || (s == t && a < b)
    ensures a + Place(n, s) == b + Place(n, t) <==> s == t && a == b
  {
    if s < t {
      StepUp(Pow256(n), s, t);
    } else if t < s {
      StepUp(Pow256(n), t, s);
    }
  }

  lemma StepUp(p: nat, s: int, t: int)
    requires s < t
    ensures p * s + p <= p * t
  {
    assert p * (t - s - 1) >= 0;
    assert p * (t - s - 1) == p * t - p * s - p;
  }

  /** The value of an operand from its low bytes and the value of the rest. */
  lemma {:induction false} SplitValue(signed: bool, v: seq<Byte>, n: nat)
    requires n < |v|
    ensures Value(signed, v) == FromLE(v[..n]) + Place(n, Value(signed, v[n..]))
    ensures FromLE(v[..n]) < Pow256(n)
  {
    hide Place, Pow256, FromLE;
    FromLESplit(v, n);
    FromLEBound(v[..n]);
    var tail := v[n..];
    assert |tail| == |v| - n && tail[|tail| - 1] == v[|v| - 1];
    if signed && Negative(v) {
      PlaceDifference(n, FromLE(tail), |tail|);
      assert n + |tail| == |v|;
    }
  }

  lemma CutOrder(signed: bool, v1: seq<Byte>, v2: seq<Byte>, n: nat)
    requires |v1| == |v2| && 0 < n <= |v1|
    ensures SameOrder(Value(signed, v1), Value(signed, v2), Value(signed, v1[..n]), Value(signed, v2[..n]))
            <==> KeepsOrder(signed, v1, v2, n)
  {
    if n == |v1| {
      assert v1[..n] == v1 && v2[..n] == v2;
    } else {
      SplitValue(signed, v1, n);
      SplitValue(signed, v2, n);
      HalfRange(v1[..n]);
      HalfRange(v2[..n]);
      hide FromLE, Pow256, Place;
      SplitOrder(n, FromLE(v1[..n]), FromLE(v2[..n]), Value(signed, v1[n..]), Value(signed, v2[n..]));
    }
  }

  lemma VerdictOfNumbers(flags: Byte, op: nat, v1: seq<Byte>, v2: seq<Byte>)
    requires !HasFlag(flags, SONAR_STRING) && |v1| == |v2| <= 8 && op < 6
    ensures Meaning(WithOp(flags, op), v1, v2) ==
            if v1 == [] then Some(false)
            else CompareInts(op, Value(HasFlag(flags, SONAR_SIGNED), v1), Value(HasFlag(flags, SONAR_SIGNED), v2))
  {
    hide WithOp, TwosComplement, FromLE, HasFlag, CompareInts;
  }

  predicate SameVerdict(flags: Byte, op: nat, v1: seq<Byte>, v2: seq<Byte>, a: seq<Byte>, b: seq<Byte>)
    requires op < 8
  {
    Meaning(WithOp(flags, op), a, b) == Meaning(WithOp(flags, op), v1, v2)
  }

  lemma VerdictsFollowOrder(x: int, y: int, x': int, y': int)
    ensures SameOrder(x, y, x', y') <==> forall op | 0 <= op < 6 :: CompareInts(op, x, y) == CompareInts(op, x', y')
  {
    if forall op | 0 <= op < 6 :: CompareInts(op, x, y) == CompareInts(op, x', y') {
      assert CompareInts(0, x, y) == CompareInts(0, x', y');
      assert CompareInts(2, x, y) == CompareInts(2, x', y');
    }
  }

  /**
    Trimming keeps the verdicts of all six operators on two numbers of one width exactly if it leaves
    something of them and keeps their order.
  */
  lemma {:induction false} TrimKeepsVerdicts(flags: Byte, v1: seq<Byte>, v2: seq<Byte>)
    requires !HasFlag(flags, SONAR_STRING) && 1 <= |v1| == |v2| <= 8
    ensures var (a, b) := Trim(v1, v2);
            && |a| == |b| <= |v1|
            && (KeepsOrder(HasFlag(flags, SONAR_SIGNED), v1, v2, |a|) <==>
                forall op | 0 <= op < 6 :: SameVerdict(flags, op, v1, v2, a, b))
  {
    TrimIsLongestTail(v1, v2);
    hide Trim, WithOp, KeepsOrder, TwosComplement, FromLE, HasFlag, Meaning, Value, CompareInts;
    var signed := HasFlag(flags, SONAR_SIGNED);
    var (a, b) := Trim(v1, v2);
    var n := |a|;
    assert |a| == |b| <= |v1| && a == v1[..n] && b == v2[..n];
    if n == 0 {
      NothingLeft(flags, v1, v2, a, b);
    } else {
      forall op | 0 <= op < 6
        ensures SameVerdict(flags, op, v1, v2, a, b) <==>
                CompareInts(op, Value(signed, v1), Value(signed, v2))
                  == CompareInts(op, Value(signed, a), Value(signed, b))
      {
        VerdictOfNumbers(flags, op, v1, v2);
        VerdictOfNumbers(flags, op, a, b);
      }
      CutOrder(signed, v1, v2, n);
      VerdictsFollowOrder(Value(signed, v1), Value(signed, v2), Value(signed, a), Value(signed, b));
    }
  }

  lemma NothingLeft(flags: Byte, v1: seq<Byte>, v2: seq<Byte>, a: seq<Byte>, b: seq<Byte>)
    requires !HasFlag(flags, SONAR_STRING) && 1 <= |v1| == |v2| <= 8 && a == b == []
    ensures !KeepsOrder(HasFlag(flags, SONAR_SIGNED), v1, v2, 0)
    ensures !forall op | 0 <= op < 6 :: SameVerdict(flags, op, v1, v2, a, b)
  {
    hide WithOp, TwosComplement, FromLE, HasFlag, Meaning;
    VerdictOfNumbers(flags, 0, v1, v2);
    VerdictOfNumbers(flags, 1, v1, v2);
    VerdictOfNumbers(flags, 0, a, b);
    VerdictOfNumbers(flags, 1, a, b);
    assert !(SameVerdict(flags, 0, v1, v2, a, b) && SameVerdict(flags, 1, v1, v2, a, b));
  }

  /**
    The whole way, trimming included: where trimming keeps the order, evaluating gives the
    comparison of the values.
  */
  lemma EvaluatedComparison(v1: Operand, v2: Operand, id: nat)
    requires OperandOk(v1) && OperandOk(v2) && v1.Number? && v2.Number? && v1.width == v2.width
             && v1.signed == v2.signed
    requires id < 0x1_0000_0000 && id / 16 % 2 == 0 && id / 32 % 2 == 0 && id % 8 < 6
    requires !(id / SONAR_CONST1 % 2 == 1 && id / SONAR_CONST2 % 2 == 1)
    requires var w1, w2 := NumberBytes(v1.width, v1.x), NumberBytes(v2.width, v2.x);
             |Trim(w1, w2).0| <= v1.width && KeepsOrder(v1.signed, w1, w2, |Trim(w1, w2).0|)
    ensures var r := MakeRecord(v1, v2, id);
            r.Logged? && var s := TrimSample(SampleOf(r.record));
                       Meaning(s.flags, s.v1, s.v2) == CompareInts(id % 8, v1.x, v2.x)
  {
    ReportedComparison(v1, v2, id);
    var r := MakeRecord(v1, v2, id).record;
    var f := SampleOf(r).flags;
    TrimKeepsVerdicts(f, r.v1, r.v2);
    hide Trim, KeepsOrder, Meaning, NumberBytes, MakeRecord;
    assert WithOp(f, f % 8) == f;
    var (a, b) := Trim(r.v1, r.v2);
    assert SameVerdict(f, f % 8, r.v1, r.v2, a, b);
  }

  /** Trimming may change the verdict: of the int8 values 0 and -1 nothing is left, so 0 > -1 evaluates to false. */
  lemma TrimmedAway()
    ensures var r := MakeRecord(Number(1, true, 0), Number(1, true, -1), 3);
            r.Logged? && var s := TrimSample(SampleOf(r.record));
                       && s.v1 == s.v2 == [] && Meaning(s.flags, s.v1, s.v2) == Some(false)
                       && Meaning(SampleOf(r.record).flags, r.record.v1, r.record.v2) == CompareInts(3, 0, -1)
                         == Some(true)
  {
    assert Pow256(1) == 256 * Pow256(0);
    var x, y := Number(1, true, 0), Number(1, true, -1);
    ReportedComparison(x, y, 3);
    assert NumberBytes(1, 0) == [0] && NumberBytes(1, -1) == [255];
    TrimIsLongestTail([0], [255]);
  }

  // ----- Concurrent writers ------------------------------------------------------------

  /** A reserved stretch of the region: its record, and how many of its bytes have been copied. */
  datatype Slot = Slot(record: Record, copied: nat)

  /**
    A goroutine in Sonar: outside, with a record and about to load the position, with the position
    loaded, or copying into its slot.
  */
  datatype Writer = Outside | Ready(record: Record) | HasPos(record: Record, pos: nat) | Copying(slot: nat)

  datatype State = State(
    pos: nat,
    region: seq<Byte>,
    writers: map<nat, Writer>,
    slots: seq<Slot>      // the reservations, in order
  )

  datatype Step =
    | Call(t: nat, record: Record)
    | LoadPos(t: nat)
    | Swap(t: nat)        // compare and swap: reserves, or goes back to loading
    | GiveUp(t: nat)      // the region is full
    | CopyByte(t: nat)
    | Leave(t: nat)

  predicate Init(s: State)
  {
    s.pos == 0 && s.slots == [] && |s.region| == REGION_SIZE && forall t | t in s.writers :: s.writers[t].Outside?
  }

  predicate Next(s: State, s': State, step: Step)
  {
    step.t in s.writers && var w := s.writers[step.t];
    match step
    case Call(t, r) => w.Outside? && RecordOk(r) && s' == s.(writers := s.writers[t := Ready(r)])
    case LoadPos(t) => w.Ready? && s' == s.(writers := s.writers[t := HasPos(w.record, s.pos)])
    case Swap(t) =>
      && w.HasPos? && RecordOk(w.record) && w.pos + |Encode(w.record)| <= |s.region|
      && s' == if s.pos == w.pos
               then s.(pos := w.pos + |Encode(w.record)|, slots := s.slots + [Slot(w.record, 0)],
                       writers := s.writers[t := Copying(|s.slots|)])
               else s.(writers := s.writers[t := Ready(w.record)])
    case GiveUp(t) =>
      && w.HasPos? && RecordOk(w.record) && w.pos + |Encode(w.record)| > |s.region|
      && s' == s.(writers := s.writers[t := Outside])
    case CopyByte(t) =>
      && w.Copying? && w.slot < |s.slots| && SlotsOk(s.slots)
      && var k, at := s.slots[w.slot].copied, Offset(s.slots, w.slot);
         && k < SlotLen(s.slots[w.slot]) && at + k < |s.region|
         && s' == s.(region := s.region[at + k := Encode(s.slots[w.slot].record)[k]],
                     slots := s.slots[w.slot := s.slots[w.slot].(copied := k + 1)])
    case Leave(t) =>
      && w.Copying? && w.slot < |s.slots| && SlotsOk(s.slots) && s.slots[w.slot].copied == SlotLen(s.slots[w.slot])
      && s' == s.(writers := s.writers[t := Outside])
  }

  predicate SlotsOk(slots: seq<Slot>)
  {
    forall j | 0 <= j < |slots| :: RecordOk(slots[j].record)
  }

  function SlotLen(slot: Slot): nat
    requires RecordOk(slot.record)
  {
    |Encode(slot.record)|
  }

  /** Where a reservation starts: behind all earlier ones. */
  function Offset(slots: seq<Slot>, j: nat): nat
    requires SlotsOk(slots) && j <= |slots|
  {
    if j == 0 then 0 else Offset(slots, j - 1) + SlotLen(slots[j - 1])
  }

  /** The copied part of a slot is in the region. */
  predicate Written(s: State, j: nat)
    requires SlotsOk(s.slots) && j < |s.slots|
  {
    var at, slot := Offset(s.slots, j), s.slots[j];
    && slot.copied <= SlotLen(slot) && at + SlotLen(slot) <= |s.region|
    && s.region[at..at + slot.copied] == Encode(slot.record)[..slot.copied]
  }

  /** A slot that is not complete has a writer. */
  predicate Owned(s: State, j: nat)
    requires SlotsOk(s.slots) && j < |s.slots|
  {
    s.slots[j].copied < SlotLen(s.slots[j]) ==> exists t :: t in s.writers && s.writers[t] == Copying(j)
  }

  /**
    What every step keeps: the reservations lie one behind the other and fill the region up to the
    position, every slot holds what has been copied, no two writers share a slot.
  */
  predicate Inv(s: State)
  {
    && SlotsOk(s.slots) && s.pos == Offset(s.slots, |s.slots|) && s.pos <= |s.region|
    && (forall j | 0 <= j < |s.slots| :: Written(s, j) && Owned(s, j))
    && (forall t | t in s.writers && s.writers[t].Copying? :: s.writers[t].slot < |s.slots|)
    && (forall t, u | t in s.writers && u in s.writers && s.writers[t].Copying? && s.writers[t] == s.writers[u] ::
      t == u)
  }

  lemma {:induction false} OffsetOrder(slots: seq<Slot>, j: nat, k: nat)
    requires SlotsOk(slots) && j < k <= |slots|
    ensures Offset(slots, j) + SlotLen(slots[j]) <= Offset(slots, k)
    decreases k
  {
    hide Encode, SlotLen;
    if k > j + 1 {
      OffsetOrder(slots, j, k - 1);
    }
  }

  /** Every byte below the position belongs to exactly one reservation. */
  lemma {:induction false} ReservationsTile(slots: seq<Slot>, x: nat, n: nat) returns (j: nat)
    requires SlotsOk(slots) && n <= |slots| && x < Offset(slots, n)
    ensures j < n && Offset(slots, j) <= x < Offset(slots, j) + SlotLen(slots[j])
    ensures forall k | 0 <= k < |slots| && Offset(slots, k) <= x < Offset(slots, k) + SlotLen(slots[k]) :: k == j
    decreases n
  {
    hide Encode;
    if x >= Offset(slots, n - 1) {
      j := n - 1;
      forall k | 0 <= k < |slots| && Offset(slots, k) <= x < Offset(slots, k) + SlotLen(slots[k]) ensures k == j {
        if k < j {
          OffsetOrder(slots, k, j);
        } else if j < k {
          OffsetOrder(slots, j, k);
        }
      }
    } else {
      j := ReservationsTile(slots, x, n - 1);
    }
  }

  lemma {:induction false} OffsetSame(a: seq<Slot>, b: seq<Slot>, n: nat)
    requires SlotsOk(a) && SlotsOk(b) && n <= |a| && n <= |b|
    requires forall j | 0 <= j < n :: a[j].record == b[j].record
    ensures Offset(a, n) == Offset(b, n)
    decreases n
  {
    if n > 0 {
      OffsetSame(a, b, n - 1);
    }
  }

  lemma NextInv(s: State, s': State, step: Step)
    requires Inv(s) && Next(s, s', step)
    ensures Inv(s')
  {
    match step
    case Swap(t) => SwapInv(s, s', t);
    case CopyByte(t) => CopyInv(s, s', t);
    case _ => QuietInv(s, s', step);
  }

  lemma QuietInv(s: State, s': State, step: Step)
    requires Inv(s) && Next(s, s', step) && !step.Swap? && !step.CopyByte?
    ensures Inv(s')
  {
    hide Encode, Offset;
    forall j | 0 <= j < |s.slots| ensures Written(s', j) && Owned(s', j) {
      assert Written(s, j) && Owned(s, j);
      SameWritten(s, s', j);
      StillOwned(s, s', step.t, j);
    }
  }

  lemma SameWritten(s: State, s': State, j: nat)
    requires SlotsOk(s.slots) && s'.slots == s.slots && s'.region == s.region && j < |s.slots| && Written(s, j)
    ensures Written(s', j)
  {
  }

  /** A step of a writer that is not in the middle of this slot leaves it owned. */
  lemma StillOwned(s: State, s': State, t: nat, j: nat)
    requires SlotsOk(s.slots) && SlotsOk(s'.slots) && j < |s.slots| && j < |s'.slots| && s.slots[j] == s'.slots[j]
             && Owned(s, j)
    requires t in s.writers && s'.writers.Keys == s.writers.Keys && forall u | u in s.writers && u != t ::
               s'.writers[u] == s.writers[u]
    requires s.writers[t] == Copying(j) ==> s.slots[j].copied == SlotLen(s.slots[j])
    ensures Owned(s', j)
  {
    if s.slots[j].copied < SlotLen(s.slots[j]) {
      var u :| u in s.writers && s.writers[u] == Copying(j);
      assert s'.writers[u] == Copying(j);
    }
  }

  lemma SwapInv(s: State, s': State, t: nat)
    requires Inv(s) && Next(s, s', Swap(t))
    ensures Inv(s')
  {
    hide Encode;
    if s.pos == s.writers[t].pos {
      ReserveInv(s, s', t);
    } else {
      forall j | 0 <= j < |s.slots| ensures Written(s', j) && Owned(s', j) {
        assert Written(s, j) && Owned(s, j);
        StillOwned(s, s', t, j);
      }
    }
  }

  /** A successful swap: the new reservation lies behind all others. */
  lemma ReserveInv(s: State, s': State, t: nat)
    requires Inv(s) && Next(s, s', Swap(t)) && s.pos == s.writers[t].pos
    ensures Inv(s')
  {
    var r, n := s.writers[t].record, |s.slots|;
    assert s'.slots[n] == Slot(r, 0) && s'.writers[t] == Copying(n);
    OffsetSame(s.slots, s'.slots, n);
    assert Offset(s'.slots, n + 1) == Offset(s'.slots, n) + SlotLen(s'.slots[n]);
    hide Encode, Offset, SlotLen, Written, Owned;
    forall j | 0 <= j < |s'.slots| ensures Written(s', j) && Owned(s', j) {
      if j < n {
        EarlierSlot(s, s', t, j);
      } else {
        NewSlot(s', n, t, s.pos);
      }
    }
  }

  lemma EarlierSlot(s: State, s': State, t: nat, j: nat)
    requires Inv(s) && Next(s, s', Swap(t)) && s.pos == s.writers[t].pos && j < |s.slots|
    ensures SlotsOk(s'.slots) && Written(s', j) && Owned(s', j)
  {
    hide Encode;
    assert Written(s, j) && Owned(s, j);
    OffsetSame(s.slots, s'.slots, j);
    StillOwned(s, s', t, j);
  }

  lemma {:induction false} NewSlot(s: State, n: nat, t: nat, pos: nat)
    requires SlotsOk(s.slots) && n < |s.slots| && s.slots[n].copied == 0 && t in s.writers && s.writers[t] == Copying(n)
    requires Offset(s.slots, n) == pos && pos + SlotLen(s.slots[n]) <= |s.region|
    ensures Written(s, n) && Owned(s, n)
  {
    hide Encode, Offset;
    assert s.region[pos..pos + 0] == Encode(s.slots[n].record)[..0];
  }

  lemma CopyInv(s: State, s': State, t: nat)
    requires Inv(s) && Next(s, s', CopyByte(t))
    ensures Inv(s')
  {
    var i := s.writers[t].slot;
    OffsetSame(s.slots, s'.slots, |s.slots|);
    assert Written(s, i);
    forall j | 0 <= j < |s.slots| ensures Written(s', j) && Owned(s', j) {
      assert Written(s, j) && Owned(s, j);
      OffsetSame(s.slots, s'.slots, j);
      if j == i {
        CopyOwn(s, s', t);
      } else {
        if j < i {
          OffsetOrder(s.slots, j, i);
        } else {
          OffsetOrder(s.slots, i, j);
        }
        CopyOther(s, s', t, j);
        StillOwned(s, s', t, j);
      }
    }
  }

  lemma CopyOwn(s: State, s': State, t: nat)
    requires Inv(s) && Next(s, s', CopyByte(t))
    requires SlotsOk(s'.slots) && Offset(s'.slots, s.writers[t].slot) == Offset(s.slots, s.writers[t].slot)
    ensures Written(s', s.writers[t].slot) && Owned(s', s.writers[t].slot)
  {
    hide Encode, Offset;
    var i := s.writers[t].slot;
    assert Written(s, i);
    var at, k, e := Offset(s.slots, i), s.slots[i].copied, Encode(s.slots[i].record);
    assert |e| == SlotLen(s.slots[i]);
    assert e[..k + 1] == e[..k] + [e[k]];
    assert s'.region[at..at + k] == s.region[at..at + k];
    assert s'.region[at..at + k + 1] == s'.region[at..at + k] + [e[k]];
    assert s'.writers[t] == Copying(i);
  }

  lemma {:induction false} CopyOther(s: State, s': State, t: nat, j: nat)
    requires Inv(s) && Next(s, s', CopyByte(t)) && j < |s.slots| && j != s.writers[t].slot
    requires SlotsOk(s'.slots) && Offset(s'.slots, j) == Offset(s.slots, j)
    requires var i := s.writers[t].slot;
             if j < i then Offset(s.slots, j) + SlotLen(s.slots[j]) <= Offset(s.slots, i)
             else Offset(s.slots, i) + SlotLen(s.slots[i]) <= Offset(s.slots, j)
    ensures Written(s', j)
  {
    hide Encode, Offset;
    assert Written(s, j);
    var at, n := Offset(s.slots, j), s.slots[j].copied;
    assert s'.slots[j] == s.slots[j];
    assert s'.region[at..at + n] == s.region[at..at + n];
  }

  predicate IsRun(run: seq<State>, steps: seq<Step>)
  {
    |run| == |steps| + 1 && Init(run[0]) && forall i | 0 <= i < |steps| :: Next(run[i], run[i + 1], steps[i])
  }

  lemma {:induction false} RunInv(run: seq<State>, steps: seq<Step>, i: nat)
    requires IsRun(run, steps) && i < |run|
    ensures Inv(run[i]) && |run[i].region| == REGION_SIZE
    decreases i
  {
    hide Inv;
    if i == 0 {
      assert Inv(run[0]) by { InitInv(run[0]); }
    } else {
      RunInv(run, steps, i - 1);
      assert Next(run[i - 1], run[i - 1 + 1], steps[i - 1]);
      NextInv(run[i - 1], run[i], steps[i - 1]);
    }
  }

  lemma InitInv(s: State)
    requires Init(s)
    ensures Inv(s)
  {
  }

  function Records(slots: seq<Slot>): (r: seq<Record>)
    ensures |r| == |slots|
  {
    seq(|slots|, k requires 0 <= k < |slots| => slots[k].record)
  }

  lemma {:induction false} ConcatAppend(rs: seq<Record>, r: Record)
    requires RecordsOk(rs) && RecordOk(r)
    ensures RecordsOk(rs + [r]) && Concat(rs + [r]) == Concat(rs) + Encode(r)
  {
    hide Encode;
    var all := rs + [r];
    assert RecordsOk(all);
    if rs == [] {
      assert all == [r] && all[1..] == [];
      assert Concat(all) == Encode(all[0]) + Concat(all[1..]);
    } else {
      assert all[1..] == rs[1..] + [r];
      ConcatAppend(rs[1..], r);
      assert Concat(all) == Encode(all[0]) + Concat(all[1..]);
      assert Concat(rs) == Encode(rs[0]) + Concat(rs[1..]);
    }
  }

  lemma RecordsPrefix(rs: seq<Record>, n: nat)
    requires 0 < n <= |rs|
    ensures rs[..n] == rs[..n - 1] + [rs[n - 1]]
  {
  }

  /** When the first n slots are complete, the region starts with their records. */
  lemma {:induction false} RegionHolds(s: State, n: nat)
    requires Inv(s) && n <= |s.slots| && forall j | 0 <= j < n :: s.slots[j].copied == SlotLen(s.slots[j])
    ensures RecordsOk(Records(s.slots)[..n]) && Offset(s.slots, n) <= |s.region|
    ensures s.region[..Offset(s.slots, n)] == Concat(Records(s.slots)[..n])
    decreases n
  {
    hide Encode, Concat;
    var rs := Records(s.slots);
    if n == 0 {
      NothingWritten();
      assert rs[..0] == [];
    } else {
      RegionHolds(s, n - 1);
      assert Written(s, n - 1);
      ConcatAppend(rs[..n - 1], rs[n - 1]);
      RecordsPrefix(rs, n);
      var at, e := Offset(s.slots, n - 1), Encode(rs[n - 1]);
      assert SlotLen(s.slots[n - 1]) == |e|;
      assert e[..|e|] == e;
      Glue(s.region, at, at + |e|);
    }
  }

  lemma Glue(s: seq<Byte>, a: nat, b: nat)
    requires a <= b <= |s|
    ensures s[..b] == s[..a] + s[a..b]
  {
  }

  lemma NothingWritten()
    ensures Concat([]) == []
  {
  }

  /**
    In every interleaving of calls, once no writer is in the middle of copying, the log holds exactly
    the reserved records in reservation order, and parsing it gives them all back, except for a last
    record that is empty on both sides.
  */
  lemma LogIsComplete(run: seq<State>, steps: seq<Step>, i: nat)
    requires IsRun(run, steps) && i < |run|
    requires forall t | t in run[i].writers :: !run[i].writers[t].Copying?
    ensures var s := run[i];
            var rs := Records(s.slots);
            && s.pos <= |s.region| && RecordsOk(rs)
            && s.region[..s.pos] == Concat(rs)
            && Parse(s.region[..s.pos]) == Some(Parsed(rs))
  {
    RunInv(run, steps, i);
    var s := run[i];
    forall j | 0 <= j < |s.slots| ensures s.slots[j].copied == SlotLen(s.slots[j]) {
      assert Owned(s, j) && Written(s, j);
    }
    RegionHolds(s, |s.slots|);
    assert Records(s.slots)[..|s.slots|] == Records(s.slots);
    ParseConcat(Records(s.slots));
  }

  // ----- Every writer can go on --------------------------------------------------------

  /**
    A writer's record has at most 20 bytes on either side, and the position it has loaded is not
    ahead of the log's.
  */
  predicate WriterOk(s: State, w: Writer)
  {
    match w
    case Ready(r) => RecordOk(r)
    case HasPos(r, pos) => RecordOk(r) && pos <= s.pos
    case _ => true
  }

  predicate WritersOk(s: State)
  {
    forall t | t in s.writers :: WriterOk(s, s.writers[t])
  }

  lemma WritersKept(s: State, s': State, step: Step)
    requires WritersOk(s) && Next(s, s', step)
    ensures WritersOk(s') && s.pos <= s'.pos && s'.writers.Keys == s.writers.Keys
  {
    hide Encode, RecordOk, SlotsOk, Offset, SlotLen;
    forall t | t in s'.writers ensures WriterOk(s', s'.writers[t]) {
      assert WriterOk(s, s.writers[t]);
    }
  }

  lemma {:induction false} RunWriters(run: seq<State>, steps: seq<Step>, i: nat)
    requires IsRun(run, steps) && i < |run|
    ensures WritersOk(run[i])
    decreases i
  {
    hide Next;
    if i > 0 {
      RunWriters(run, steps, i - 1);
      assert Next(run[i - 1], run[i - 1 + 1], steps[i - 1]);
      WritersKept(run[i - 1], run[i], steps[i - 1]);
    }
  }

  /** What the writer itself does next. */
  function OwnStep(s: State, t: nat): Step
    requires Inv(s) && WritersOk(s) && t in s.writers && !s.writers[t].Outside?
  {
    assert WriterOk(s, s.writers[t]);
    match s.writers[t]
    case Ready(_) => LoadPos(t)
    case HasPos(r, pos) => if pos + |Encode(r)| <= |s.region| then Swap(t) else GiveUp(t)
    case Copying(j) => if s.slots[j].copied < SlotLen(s.slots[j]) then CopyByte(t) else Leave(t)
  }

  lemma Enabled(s: State, t: nat) returns (s': State)
    requires Inv(s) && WritersOk(s) && t in s.writers && !s.writers[t].Outside?
    ensures Next(s, s', OwnStep(s, t))
  {
    hide Encode, RecordOk, Offset;
    assert WriterOk(s, s.writers[t]);
    match s.writers[t]
    case Ready(r) => s' := s.(writers := s.writers[t := HasPos(r, s.pos)]);
    case HasPos(r, pos) =>
      if pos + |Encode(r)| > |s.region| {
        s' := s.(writers := s.writers[t := Outside]);
      } else if s.pos == pos {
        s' := s.(pos := pos + |Encode(r)|, slots := s.slots + [Slot(r, 0)], writers :=
          s.writers[t := Copying(|s.slots|)]);
      } else {
        s' := s.(writers := s.writers[t := Ready(r)]);
      }
    case Copying(j) =>
      assert Written(s, j);
      var k := s.slots[j].copied;
      if k < SlotLen(s.slots[j]) {
        s' := s.(region := s.region[Offset(s.slots, j) + k := Encode(s.slots[j].record)[k]],
                 slots := s.slots[j := s.slots[j].(copied := k + 1)]);
      } else {
        s' := s.(writers := s.writers[t := Outside]);
      }
  }

  /**
    In every interleaving a writer can always take a step of its own, whatever the others do. It gives
    up only if its record does not fit behind the log, and a swap fails only because another writer
    has reserved in between.
  */
  lemma NeverStuck(run: seq<State>, steps: seq<Step>, i: nat, t: nat)
    requires IsRun(run, steps) && i < |run| && t in run[i].writers && !run[i].writers[t].Outside?
    ensures var s := run[i];
            exists step: Step, s' :: step.t == t && !step.Call? && Next(s, s', step)
    ensures i < |steps| && steps[i] == GiveUp(t) ==>
              var w := run[i].writers[t];
              w.HasPos? && RecordOk(w.record) && run[i].pos + |Encode(w.record)| > |run[i].region|
    ensures i < |steps| && steps[i] == Swap(t) && run[i + 1].writers[t].Ready? ==> run[i].writers[t].pos < run[i].pos
  {
    RunInv(run, steps, i);
    RunWriters(run, steps, i);
    var s := run[i];
    var s' := Enabled(s, t);
    assert OwnStep(s, t).t == t && !OwnStep(s, t).Call?;
    assert WriterOk(s, s.writers[t]);
    assert i < |steps| ==> Next(run[i], run[i + 1], steps[i]);
  }
}
