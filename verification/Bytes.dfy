/** Bytes, 64-bit machine integers, and searching a byte string. */
module Bytes {
  import opened Wrappers

  type byte = x: int | 0 <= x < 256
  type bytes = seq<byte>

  const TWO_63: int := 0x8000_0000_0000_0000
  const TWO_64: int := 0x1_0000_0000_0000_0000

  /** The bytes of a text in ASCII. */
  function Ascii(s: string): (r: bytes)
    ensures |r| == |s| && forall i :: 0 <= i < |s| ==> r[i] == s[i] as int % 256
  {
    seq(|s|, i requires 0 <= i < |s| => s[i] as int % 256)
  }

  /** "PACK", which every packfile starts with. */
  const PACK: bytes := [0x50, 0x41, 0x43, 0x4b]

  /** The low 64 bits of x: what Go's uint64 keeps. */
  function Low64(x: int): (r: nat)
    ensures r < TWO_64
  {
    x % 0x1_0000_0000_0000_0000
  }

  /** The signed 64-bit integer with the low 64 bits of x: what Go's int and int64 keep. */
  function Wrap64(x: int): (r: int)
    ensures -TWO_63 <= r < TWO_63
    ensures -TWO_63 <= x < TWO_63 ==> r == x
  {
    var low := Low64(x);
    if low < TWO_63 then low else low - TWO_64
  }

  lemma Wrap64Linear(a: int, k: int, b: int)
    ensures Wrap64(k * Wrap64(a) + b) == Wrap64(k * a + b)
  {
    var q := (a - Wrap64(a)) / 0x1_0000_0000_0000_0000;
    assert a == Wrap64(a) + q * 0x1_0000_0000_0000_0000;
    calc {
      k * a + b;
      k * (Wrap64(a) + q * 0x1_0000_0000_0000_0000) + b;
      k * Wrap64(a) + b + (k * q) * 0x1_0000_0000_0000_0000;
    }
    Low64Shift(k * Wrap64(a) + b, k * q);
  }

  lemma Low64Shift(x: int, q: int)
    ensures Low64(x + q * 0x1_0000_0000_0000_0000) == Low64(x)
  {
    assert x == (x / 0x1_0000_0000_0000_0000) * 0x1_0000_0000_0000_0000 + Low64(x);
  }

  lemma Low64Add(x: int, y: int)
    ensures Low64(Low64(x) + y) == Low64(x + y)
  {
    var r, q := Low64(x), x / 0x1_0000_0000_0000_0000;
    assert x + y == r + y + q * 0x1_0000_0000_0000_0000;
    Low64Shift(r + y, q);
  }

  lemma Slices<T>(a: seq<T>, b: seq<T>, c: seq<T>)
    ensures (a + b + c)[|a|..] == b + c
    ensures (a + b + c)[|a|..|a| + |b|] == b
    ensures (a + b + c)[|a| + |b|..] == c
  {}

  lemma Split<T>(s: seq<T>, a: nat, b: nat)
    requires a <= b <= |s|
    ensures s[a..] == s[a..b] + s[b..]
  {}

  /** a + (h + m + z) + r, cut after each of its parts. */
  lemma Parts<T>(a: seq<T>, h: seq<T>, m: seq<T>, z: seq<T>, r: seq<T>)
    ensures a + (h + m + z) + r == a + h + (m + z + r)
    ensures a + (h + m + z) + r == (a + h) + m + (z + r)
    ensures a + (h + m + z) + r == (a + h + m) + z + r
  {}

  lemma Assoc<T>(a: seq<T>, b: seq<T>, c: seq<T>)
    ensures a + (b + c) == a + b + c
  {}

  /** c & 0x7f */
  function Low7(c: byte): (r: nat)
    ensures r < 128
  {
    if c < 128 then c else c - 128
  }

  /** v shifted left by 7k bits. */
  function Shl7(v: nat, k: nat): nat {
    if k == 0 then v else 128 * Shl7(v, k - 1)
  }

  /** The first position of b in s, as bytes.IndexByte finds it. */
  function IndexOf(s: bytes, b: byte): (r: Option<nat>)
    ensures r.None? ==> b !in s
    ensures r.Some? ==> r.value < |s| && s[r.value] == b && b !in s[..r.value]
  {
    if s == [] then None
    else if s[0] == b then Some(0)
    else match IndexOf(s[1..], b)
      case None => None
      case Some(i) =>
        assert s[..i + 1] == [s[0]] + s[1..][..i];
        Some(i + 1)
  }

  lemma {:induction false} IndexOfFirst(a: bytes, b: byte, rest: bytes)
    requires b !in a
    ensures IndexOf(a + [b] + rest, b) == Some(|a|)
  {
    var s := a + [b] + rest;
    if a == [] {
      assert s[0] == b;
    } else {
      assert s[0] == a[0];
      assert s[1..] == a[1..] + [b] + rest;
      IndexOfFirst(a[1..], b, rest);
    }
  }

  // ----- big-endian numbers -----

  function BigEndian(bs: bytes): nat {
    if bs == [] then 0 else BigEndian(bs[..|bs| - 1]) * 256 + bs[|bs| - 1]
  }

  function EncodeBigEndian(n: nat, k: nat): (bs: bytes)
    ensures |bs| == k
  {
    if k == 0 then [] else EncodeBigEndian(n / 256, k - 1) + [n % 256]
  }

  function Pow16(k: nat): nat {
    if k == 0 then 1 else 16 * Pow16(k - 1)
  }

  function Pow256(k: nat): nat {
    if k == 0 then 1 else 256 * Pow256(k - 1)
  }

  lemma {:induction false} BigEndianInverse(n: nat, k: nat)
    requires n < Pow256(k)
    ensures BigEndian(EncodeBigEndian(n, k)) == n
  {
    if k > 0 {
      BigEndianInverse(n / 256, k - 1);
      var bs := EncodeBigEndian(n / 256, k - 1);
      assert (bs + [n % 256])[..k - 1] == bs;
    }
  }
}
