/** Little-endian byte strings. */
module LittleEndian {
  import opened Cover

  function Pow256(k: nat): (p: nat)
    ensures p > 0
  {
    if k == 0 then 1 else 256 * Pow256(k - 1)
  }

  /** The number that a byte string encodes. */
  function FromLE(s: seq<Byte>): nat
  {
    if s == [] then 0 else s[0] + 256 * FromLE(s[1..])
  }

  /** The k low bytes of a number. */
  function ToLE(x: nat, k: nat): (s: seq<Byte>)
    ensures |s| == k
    decreases k
  {
    if k == 0 then [] else [x % 256] + ToLE(x / 256, k - 1)
  }

  /** Encoding in k bytes loses nothing below 256^k. */
  lemma {:induction false} RoundTrip(x: nat, k: nat)
    requires x < Pow256(k)
    ensures FromLE(ToLE(x, k)) == x
    decreases k
  {
    if k > 0 {
      RoundTrip(x / 256, k - 1);
      assert ToLE(x, k)[1..] == ToLE(x / 256, k - 1);
    }
  }

  lemma {:induction false} FromLEBound(s: seq<Byte>)
    ensures FromLE(s) < Pow256(|s|)
  {
    if s != [] {
      FromLEBound(s[1..]);
    }
  }

  /** Appending a byte adds it at the top. */
  lemma {:induction false} FromLEAppend(s: seq<Byte>, b: Byte)
    ensures FromLE(s + [b]) == FromLE(s) + Pow256(|s|) * b
  {
    if s == [] {
      assert [b][1..] == [];
      assert Pow256(0) * b == b;
    } else {
      assert (s + [b])[1..] == s[1..] + [b];
      FromLEAppend(s[1..], b);
      assert Pow256(|s|) * b == 256 * (Pow256(|s| - 1) * b);
    }
  }

  lemma {:induction false} Pow256Add(j: nat, k: nat)
    ensures Pow256(j + k) == Pow256(j) * Pow256(k)
  {
    if k > 0 {
      Pow256Add(j, k - 1);
      assert Pow256(k) == 256 * Pow256(k - 1) && Pow256(j + k) == 256 * Pow256(j + k - 1);
      hide Pow256;
      TimesAssociate(256, Pow256(j), Pow256(k - 1));
      TimesAssociate(Pow256(j), 256, Pow256(k - 1));
    }
  }

  /** x shifted up by n bytes. */
  function Place(n: nat, x: int): int
  {
    Pow256(n) * x
  }

  lemma PlaceMore(n: nat, x: int)
    requires n > 0
    ensures Place(n, x) == 256 * Place(n - 1, x)
  {
    TimesAssociate(256, Pow256(n - 1), x);
  }

  lemma PlaceDifference(n: nat, x: int, m: nat)
    ensures Place(n, x - Pow256(m)) == Place(n, x) - Pow256(n + m)
  {
    Pow256Add(n, m);
    hide Pow256;
    Distribute(Pow256(n), x, Pow256(m));
  }

  lemma Distribute(p: int, x: int, q: int)
    ensures p * (x - q) == p * x - p * q
  {
  }

  /** The low n bytes, and the others above them. */
  lemma {:induction false} FromLESplit(s: seq<Byte>, n: nat)
    requires n <= |s|
    ensures FromLE(s) == FromLE(s[..n]) + Place(n, FromLE(s[n..]))
  {
    if n == 0 {
      assert s[0..] == s;
    } else {
      var t := s[1..];
      FromLESplit(t, n - 1);
      assert t[..n - 1] == s[..n][1..] && t[n - 1..] == s[n..];
      assert FromLE(s) == s[0] + 256 * FromLE(t) && FromLE(s[..n]) == s[0] + 256 * FromLE(t[..n - 1]);
      PlaceMore(n, FromLE(s[n..]));
      hide Place, FromLE;
    }
  }

  lemma TimesAssociate(a: int, b: int, c: int)
    ensures a * (b * c) == (a * b) * c
  {
  }

  lemma SmallPowers()
    ensures Pow256(4) == 0x1_0000_0000 && Pow256(8) == 0x1_0000_0000_0000_0000
  {
    assert Pow256(2) == 65536;
    assert Pow256(3) == 256 * Pow256(2);
    assert Pow256(4) == 256 * Pow256(3);
    assert Pow256(5) == 256 * Pow256(4);
    assert Pow256(6) == 256 * Pow256(5);
    assert Pow256(7) == 256 * Pow256(6);
  }
}
