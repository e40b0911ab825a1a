/**
 * The three variable-length integer codes of a packfile (pack.go, delta.go): the delta size,
 * the object header, and the offset of an OFS delta. All three end at the first byte below 128.
 */
module Varints {
  import opened Wrappers
  import opened Bytes

  /** How many bytes up to and including the first one without the continuation bit. */
  function TermLen(data: bytes): (r: Option<nat>)
    ensures r.Some? ==> 0 < r.value <= |data| && Terminated(data[..r.value])
    ensures r.None? ==> forall i :: 0 <= i < |data| ==> data[i] >= 128
  {
    if data == [] then None
    else if data[0] < 128 then Some(1)
    else match TermLen(data[1..])
      case None => None
      case Some(n) =>
        assert data[..n + 1] == [data[0]] + data[1..][..n];
        Some(n + 1)
  }

  /** Exactly the last byte has no continuation bit. */
  predicate Terminated(bs: bytes) {
    && bs != []
    && bs[|bs| - 1] < 128
    && forall i :: 0 <= i < |bs| - 1 ==> bs[i] >= 128
  }

  lemma {:induction false} TermLenUnique(bs: bytes, rest: bytes)
    requires Terminated(bs)
    ensures TermLen(bs + rest) == Some(|bs|)
  {
    assert (bs + rest)[0] == bs[0];
    if |bs| > 1 {
      assert (bs + rest)[1..] == bs[1..] + rest;
      TermLenUnique(bs[1..], rest);
    }
  }

  lemma {:induction false} TermLenAfter(bs: bytes, rest: bytes)
    requires forall i :: 0 <= i < |bs| ==> bs[i] >= 128
    ensures TermLen(bs + rest).Some? ==> TermLen(bs + rest).value > |bs|
  {
    if bs != [] {
      assert (bs + rest)[0] == bs[0];
      assert (bs + rest)[1..] == bs[1..] + rest;
      TermLenAfter(bs[1..], rest);
    }
  }

  lemma VarintEnds(data: bytes, start: nat, end: nat)
    requires start < end <= |data| && data[end - 1] < 128
    requires forall i :: start <= i < end - 1 ==> data[i] >= 128
    ensures TermLen(data[start..]) == Some(end - start)
  {
    assert data[start..] == data[start..end] + data[end..];
    TermLenUnique(data[start..end], data[end..]);
  }

  lemma Endless(data: bytes, start: nat)
    requires start <= |data|
    requires forall i :: start <= i < |data| ==> data[i] >= 128
    ensures TermLen(data[start..]).None?
  {
    assert data[start..] + [] == data[start..];
    TermLenAfter(data[start..], []);
  }

  // ----- little-endian base 128 (delta sizes, and the tail of an object header) -----

  function Leb(bs: bytes): nat {
    if bs == [] then 0 else Low7(bs[0]) + 128 * Leb(bs[1..])
  }

  lemma {:induction false} LebSnoc(bs: bytes, c: byte)
    ensures Leb(bs + [c]) == Leb(bs) + Shl7(Low7(c), |bs|)
  {
    if bs == [] {
      assert bs + [c] == [c];
      assert Leb([c][1..]) == 0;
    } else {
      assert (bs + [c])[1..] == bs[1..] + [c];
      LebSnoc(bs[1..], c);
    }
  }

  function EncodeLeb(n: nat): (bs: bytes)
    ensures Terminated(bs)
    ensures Leb(bs) == n
  {
    if n < 128 then
      assert Leb([n][1..]) == 0;
      [n]
    else
      var rest := EncodeLeb(n / 128);
      assert ([n % 128 + 128] + rest)[1..] == rest;
      [n % 128 + 128] + rest
  }

  lemma {:induction false} EncodeLebLength(n: nat, k: nat)
    requires 0 < k && n < Shl7(1, k)
    ensures |EncodeLeb(n)| <= k
  {
    if n >= 128 {
      assert k > 1 by { assert Shl7(1, 1) == 128; }
      EncodeLebLength(n / 128, k - 1);
    }
  }

  lemma NineDigits()
    ensures Shl7(1, 9) == TWO_63
  {
    assert Shl7(1, 3) == 128 * 128 * 128;
    assert Shl7(1, 6) == 128 * 128 * 128 * Shl7(1, 3);
  }

  /** readDeltaVarint: at most ten bytes, and the sum wraps like a 64-bit int. */
  function DeltaVarint(data: bytes, pos: nat): (r: Option<(int, nat)>)
    requires pos <= |data|
    ensures r.Some? ==> pos < r.value.1 <= |data|
  {
    match TermLen(data[pos..])
    case None => None
    case Some(n) => if n > 10 then None else Some((LebInt(data[pos..pos + n]), pos + n))
  }

  function LebInt(bs: bytes): int {
    Wrap64(Leb(bs))
  }

  lemma DeltaVarintSound(data: bytes, pos: nat)
    requires pos <= |data| && DeltaVarint(data, pos).Some?
    ensures var (v, end) := DeltaVarint(data, pos).value;
            Terminated(data[pos..end]) && end - pos <= 10 && LebInt(data[pos..end]) == v
  {
    var n := TermLen(data[pos..]).value;
    assert data[pos..][..n] == data[pos..pos + n];
  }

  /** What any terminated string reads as, overlong ones included. */
  lemma DeltaVarintAt(before: bytes, bs: bytes, rest: bytes)
    requires Terminated(bs)
    ensures DeltaVarint(before + bs + rest, |before|)
         == if |bs| > 10 then None else Some((LebInt(bs), |before| + |bs|))
  {
    Slices(before, bs, rest);
    TermLenUnique(bs, rest);
  }

  method ReadDeltaVarint(data: bytes, start: nat) returns (r: Option<(int, nat)>)
    requires start <= |data|
    ensures r == DeltaVarint(data, start)
  {
    var pos, accum, k := start, 0, 0;
    assert accum == Wrap64(Leb(data[start..pos]));
    hide Leb, Wrap64, TermLen, Terminated;
    while true
      invariant pos == start + k <= |data| && k <= 10
      invariant forall i :: start <= i < pos ==> data[i] >= 128
      invariant accum == Wrap64(Leb(data[start..pos]))
      decreases |data| - pos
    {
      if pos >= |data| || 7 * k >= 64 {
        LongVarint(data, start, pos);
        return None;
      }
      var c := data[pos];
      accum := LebStep(data[start..pos], c, k, accum);
      assert data[start..pos + 1] == data[start..pos] + [c];
      pos := pos + 1;
      if c < 128 {
        VarintEnds(data, start, pos);
        return Some((accum, pos));
      }
      k := k + 1;
    }
  }

  /** accum | (c & 0x7f) << 7k; the new bits lie above all earlier ones, so the "or" is a sum. */
  method LebStep(ghost seen: bytes, c: byte, k: nat, accum: int) returns (accum': int)
    requires k == |seen| && accum == Wrap64(Leb(seen))
    ensures accum' == Wrap64(Leb(seen + [c]))
  {
    LebSnoc(seen, c);
    Wrap64Linear(Leb(seen), 1, Shl7(Low7(c), k));
    accum' := Wrap64(accum + Shl7(Low7(c), k));
  }

  lemma LongVarint(data: bytes, start: nat, pos: nat)
    requires start <= pos <= |data|
    requires forall i :: start <= i < pos ==> data[i] >= 128
    requires pos == |data| || pos - start == 10
    ensures DeltaVarint(data, start).None?
  {
    assert data[start..] == data[start..pos] + data[pos..];
    TermLenAfter(data[start..pos], data[pos..]);
  }

  /** Any size below 2^63 written in base 128 is read back, whatever follows it. */
  lemma DeltaVarintRoundTrip(before: bytes, n: nat, rest: bytes)
    requires n < TWO_63
    ensures DeltaVarint(before + EncodeLeb(n) + rest, |before|) == Some((n, |before| + |EncodeLeb(n)|))
  {
    NineDigits();
    EncodeLebLength(n, 9);
    DeltaVarintAt(before, EncodeLeb(n), rest);
  }

  // ----- object header: three type bits, then the size, four bits first -----

  function HeaderSize(bs: bytes): nat
    requires bs != []
  {
    bs[0] % 16 + 16 * Leb(bs[1..])
  }

  /** decodePackObjectHeader: (type, size, next position). The sum is kept modulo 2^64. */
  function ObjectHeader(pack: bytes, pos: nat): (r: Option<(nat, nat, nat)>)
    requires pos <= |pack|
    ensures r.Some? ==> r.value.0 < 8 && pos < r.value.2 <= |pack|
  {
    match TermLen(pack[pos..])
    case None => None
    case Some(n) =>
      var size := Low64(HeaderSize(pack[pos..pos + n]));
      if size >= TWO_63 then None else Some((pack[pos] / 16 % 8, size, pos + n))
  }

  method DecodeObjectHeader(pack: bytes, start: nat) returns (r: Option<(nat, nat, nat)>)
    requires start <= |pack|
    ensures r == ObjectHeader(pack, start)
  {
    var pos := start;
    if pos >= |pack| {
      return None;
    }
    var c := pack[pos];
    pos := pos + 1;
    var objType := c / 16 % 8;
    var accum: nat := c % 16;
    var k := 0;
    ghost var size: nat := accum;
    assert pack[start..pos] == [c];
    assert [c][1..] == [] && HeaderSize([c]) == c % 16;
    hide HeaderSize, Leb, TermLen;
    while c >= 128
      invariant pos == start + k + 1 <= |pack|
      invariant c == pack[pos - 1]
      invariant forall i :: start <= i < pos - 1 ==> pack[i] >= 128
      invariant size == HeaderSize(pack[start..pos]) && accum == Low64(size)
      decreases |pack| - pos
    {
      if pos >= |pack| {
        Endless(pack, start);
        return None;
      }
      c := pack[pos];
      accum, size := HeaderStep(pack[start..pos], c, accum, size, k);
      assert pack[start..pos + 1] == pack[start..pos] + [c];
      pos := pos + 1;
      k := k + 1;
    }
    VarintEnds(pack, start, pos);
    if accum >= TWO_63 {
      return None;
    }
    return Some((objType, accum, pos));
  }

  /** One more size byte. A shift by 64 or more leaves nothing of a uint64; so does the remainder. */
  method HeaderStep(ghost bs: bytes, c: byte, accum: nat, ghost size: nat, k: nat)
    returns (accum': nat, ghost size': nat)
    requires k == |bs| - 1
    requires size == HeaderSize(bs) && accum == Low64(size)
    ensures size' == HeaderSize(bs + [c]) && accum' == Low64(size')
  {
    HeaderSnoc(bs, c);
    var more := 16 * Shl7(Low7(c), k);
    Low64Add(size, more);
    accum', size' := Low64(accum + more), size + more;
  }

  lemma HeaderSnoc(bs: bytes, c: byte)
    requires bs != []
    ensures HeaderSize(bs + [c]) == HeaderSize(bs) + 16 * Shl7(Low7(c), |bs| - 1)
  {
    var tail := bs[1..];
    assert (bs + [c])[1..] == tail + [c];
    assert (bs + [c])[0] == bs[0];
    LebSnoc(tail, c);
  }

  function EncodeHeader(objType: nat, size: nat): (bs: bytes)
    requires objType < 8
    ensures Terminated(bs)
  {
    if size < 16 then [objType * 16 + size]
    else [128 + objType * 16 + size % 16] + EncodeLeb(size / 16)
  }

  /** What any terminated string reads as, overlong ones included. */
  lemma ObjectHeaderAt(before: bytes, bs: bytes, rest: bytes)
    requires Terminated(bs)
    ensures ObjectHeader(before + bs + rest, |before|)
         == var size := Low64(HeaderSize(bs));
            if size >= TWO_63 then None else Some((bs[0] / 16 % 8, size, |before| + |bs|))
  {
    Slices(before, bs, rest);
    TermLenUnique(bs, rest);
    assert (before + bs + rest)[|before|] == bs[0];
  }

  lemma ObjectHeaderRoundTrip(before: bytes, objType: nat, size: nat, rest: bytes)
    requires objType < 8 && size < TWO_63
    ensures ObjectHeader(before + EncodeHeader(objType, size) + rest, |before|)
         == Some((objType, size, |before| + |EncodeHeader(objType, size)|))
  {
    ObjectHeaderAt(before, EncodeHeader(objType, size), rest);
    HeaderValue(objType, size);
  }

  lemma HeaderValue(objType: nat, size: nat)
    requires objType < 8
    ensures HeaderSize(EncodeHeader(objType, size)) == size
    ensures EncodeHeader(objType, size)[0] / 16 % 8 == objType
  {
    var bs := EncodeHeader(objType, size);
    if size < 16 {
      assert Leb(bs[1..]) == 0;
    } else {
      assert bs[1..] == EncodeLeb(size / 16);
    }
  }

  // ----- OFS delta offsets: big-endian, plus one at every continuation -----

  /** The running value after continuation bytes: each adds its seven bits and then one. */
  function OfsPrefix(bs: bytes): nat {
    if bs == [] then 0
    else OfsPrefix(bs[..|bs| - 1]) * 128 + Low7(bs[|bs| - 1]) + 1
  }

  function OfsValue(bs: bytes): nat
    requires bs != []
  {
    OfsPrefix(bs[..|bs| - 1]) * 128 + Low7(bs[|bs| - 1])
  }

  /** decodeOFSDelta: (offset as an int64, next position). */
  function OfsDelta(pack: bytes, pos: nat): (r: Option<(int, nat)>)
    requires pos <= |pack|
    ensures r.Some? ==> pos < r.value.1 <= |pack| && -TWO_63 <= r.value.0 < TWO_63
  {
    match TermLen(pack[pos..])
    case None => None
    case Some(n) => Some((Wrap64(OfsValue(pack[pos..pos + n])), pos + n))
  }

  method DecodeOfsDelta(pack: bytes, start: nat) returns (r: Option<(int, nat)>)
    requires start <= |pack|
    ensures r == OfsDelta(pack, start)
  {
    var pos, offset := start, 0;
    assert offset == Wrap64(OfsPrefix(pack[start..pos]));
    hide OfsPrefix, OfsValue, Wrap64, TermLen, Terminated;
    while true
      invariant start <= pos <= |pack|
      invariant forall i :: start <= i < pos ==> pack[i] >= 128
      invariant offset == Wrap64(OfsPrefix(pack[start..pos]))
      decreases |pack| - pos
    {
      if pos >= |pack| {
        Endless(pack, start);
        return None;
      }
      var c := pack[pos];
      ghost var seen := pack[start..pos];
      offset := OfsStep(seen, c, offset);
      assert pack[start..pos + 1] == seen + [c];
      pos := pos + 1;
      if c < 128 {
        VarintEnds(pack, start, pos);
        return Some((offset, pos));
      }
      OfsCarry(seen, c);
      offset := Wrap64(offset + 1);
    }
  }

  /** offset << 7 | c & 0x7f, on an int64. */
  method OfsStep(ghost seen: bytes, c: byte, offset: int) returns (offset': int)
    requires offset == Wrap64(OfsPrefix(seen))
    ensures offset' == Wrap64(OfsValue(seen + [c]))
  {
    assert (seen + [c])[..|seen|] == seen;
    Wrap64Linear(OfsPrefix(seen), 128, Low7(c));
    offset' := Wrap64(128 * offset + Low7(c));
  }

  lemma OfsCarry(seen: bytes, c: byte)
    ensures Wrap64(Wrap64(OfsValue(seen + [c])) + 1) == Wrap64(OfsPrefix(seen + [c]))
  {
    Wrap64Linear(OfsValue(seen + [c]), 1, 1);
  }

  function EncodeOfsPrefix(n: nat): (bs: bytes)
    ensures OfsPrefix(bs) == n
    ensures forall i :: 0 <= i < |bs| ==> bs[i] >= 128
  {
    if n == 0 then []
    else
      var bs := EncodeOfsPrefix((n - 1) / 128);
      var c: byte := (n - 1) % 128 + 128;
      assert (bs + [c])[..|bs|] == bs;
      bs + [c]
  }

  function EncodeOfs(n: nat): (bs: bytes)
    ensures Terminated(bs)
    ensures OfsValue(bs) == n
  {
    var bs := EncodeOfsPrefix(n / 128);
    assert (bs + [n % 128])[..|bs|] == bs;
    bs + [n % 128]
  }

  lemma {:induction false} OfsPrefixInjective(a: bytes, b: bytes)
    requires forall i :: 0 <= i < |a| ==> a[i] >= 128
    requires forall i :: 0 <= i < |b| ==> b[i] >= 128
    requires OfsPrefix(a) == OfsPrefix(b)
    ensures a == b
    decreases |a|
  {
    if a != [] && b != [] {
      var a', b' := a[..|a| - 1], b[..|b| - 1];
      assert OfsPrefix(a') == OfsPrefix(b') && Low7(a[|a| - 1]) == Low7(b[|b| - 1]);
      OfsPrefixInjective(a', b');
      assert a == a' + [a[|a| - 1]] && b == b' + [b[|b| - 1]];
    }
  }

  lemma OfsInjective(a: bytes, b: bytes)
    requires Terminated(a) && Terminated(b) && OfsValue(a) == OfsValue(b)
    ensures a == b
  {
    hide OfsPrefix;
    var a', b' := a[..|a| - 1], b[..|b| - 1];
    assert OfsPrefix(a') == OfsPrefix(b') && a[|a| - 1] == b[|b| - 1];
    OfsPrefixInjective(a', b');
    assert a == a' + [a[|a| - 1]] && b == b' + [b[|b| - 1]];
  }

  /** Every natural number has exactly one terminated byte string: EncodeOfs and OfsValue are inverse. */
  lemma OfsBijection(n: nat, bs: bytes)
    requires Terminated(bs)
    ensures OfsValue(bs) == n <==> bs == EncodeOfs(n)
  {
    if OfsValue(bs) == n {
      OfsInjective(bs, EncodeOfs(n));
    }
  }

  /**
   * Every terminated string is the one encoding of some natural number, and the machine decoder reads it
   * as that number wrapped to 64 bits. Below 2^63 it therefore undoes the encoder, and only the encoding
   * of n is read as n.
   */
  lemma OfsDeltaExact(before: bytes, bs: bytes, rest: bytes, n: int)
    requires Terminated(bs)
    ensures OfsDelta(before + bs + rest, |before|) == Some((n, |before| + |bs|)) <==>
              exists m: nat :: bs == EncodeOfs(m) && Wrap64(m) == n
    ensures 0 <= n < TWO_63 && OfsValue(bs) < TWO_63 ==>
              (OfsDelta(before + bs + rest, |before|) == Some((n, |before| + |bs|)) <==> bs == EncodeOfs(n))
  {
    Slices(before, bs, rest);
    TermLenUnique(bs, rest);
    var m := OfsValue(bs);
    OfsBijection(m, bs);
    assert bs == EncodeOfs(m);
    forall k: nat | bs == EncodeOfs(k)
      ensures k == m
    {
      OfsBijection(k, bs);
    }
  }
}
