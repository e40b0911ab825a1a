/** pkt-line framing (pktline.go): four hex digits of length, counting themselves, then the payload. */
module PktLine {
  import opened Wrappers
  import opened Bytes

  const PKT_MAX_LEN := 65535

  /** Lengths 0, 1 and 2 carry no payload; the reader reports all three as a flush. */
  datatype Frame = Control(code: nat) | Data(payload: bytes)

  datatype PktError = Truncated | Malformed | InvalidLength | TooLarge

  function HexDigit(d: nat): byte
    requires d < 16
  {
    if d < 10 then 0x30 + d else 0x61 + (d - 10)
  }

  function HexValue(c: byte): (r: Option<nat>)
    ensures r.Some? ==> r.value < 16
  {
    if 0x30 <= c <= 0x39 then Some(c - 0x30)
    else if 0x61 <= c <= 0x66 then Some(c - 0x61 + 10)
    else if 0x41 <= c <= 0x46 then Some(c - 0x41 + 10)
    else None
  }

  /** strconv.ParseUint in base 16: the value of all-hex digits, in either case. */
  function ParseHex(bs: bytes): Option<nat> {
    if bs == [] then Some(0)
    else match (ParseHex(bs[..|bs| - 1]), HexValue(bs[|bs| - 1]))
      case (Some(v), Some(d)) => Some(16 * v + d)
      case _ => None
  }

  /** The k low hex digits of n, in lower case: fmt's %04x for k = 4 and n below 65536. */
  function FormatHex(n: nat, k: nat): (bs: bytes)
    ensures |bs| == k
    ensures forall i :: 0 <= i < |bs| ==> HexValue(bs[i]).Some?
  {
    if k == 0 then [] else FormatHex(n / 16, k - 1) + [HexDigit(n % 16)]
  }

  lemma {:induction false} ParseFormatHex(n: nat, k: nat)
    requires n < Pow16(k)
    ensures ParseHex(FormatHex(n, k)) == Some(n)
  {
    if k > 0 {
      ParseFormatHex(n / 16, k - 1);
      assert FormatHex(n, k)[..k - 1] == FormatHex(n / 16, k - 1);
    }
  }

  predicate Sendable(f: Frame) {
    match f
    case Control(code) => code <= 2
    case Data(payload) => |payload| <= 65531
  }

  function Write(f: Frame): bytes
    requires Sendable(f)
  {
    match f
    case Control(code) => FormatHex(code, 4)
    case Data(payload) => FormatHex(|payload| + 4, 4) + payload
  }

  /** pktRead: the frame at pos and the position after it. */
  function Read(src: bytes, pos: nat): (r: Result<(Frame, nat), PktError>)
    ensures r.Ok? ==> pos < r.value.1 <= |src| && Sendable(r.value.0)
  {
    if pos > |src| || |src| - pos < 4 then Err(Truncated)
    else match ParseHex(src[pos..pos + 4])
      case None => Err(Malformed)
      case Some(n) =>
        FourDigits(src[pos..pos + 4]);
        if n <= 2 then Ok((Control(n), pos + 4))
        else if n < 4 || n > |src| - pos then Err(InvalidLength)
        else Ok((Data(src[pos + 4..pos + n]), pos + n))
  }

  lemma {:induction false} ParseHexBound(bs: bytes)
    requires ParseHex(bs).Some?
    ensures ParseHex(bs).value < Pow16(|bs|)
  {
    if bs != [] {
      ParseHexBound(bs[..|bs| - 1]);
    }
  }

  lemma FourDigits(bs: bytes)
    requires |bs| == 4
    ensures ParseHex(bs).Some? ==> ParseHex(bs).value <= PKT_MAX_LEN
  {
    if ParseHex(bs).Some? {
      ParseHexBound(bs);
      assert Pow16(2) == 256;
    }
  }

  /** A written frame is read back, whatever surrounds it. */
  lemma ReadWrite(before: bytes, f: Frame, rest: bytes)
    requires Sendable(f)
    ensures Read(before + Write(f) + rest, |before|) == Ok((f, |before| + |Write(f)|))
  {
    var n := if f.Control? then f.code else |f.payload| + 4;
    var head := FormatHex(n, 4);
    var body := if f.Control? then [] else f.payload;
    ParseFormatHex4(n);
    hide ParseHex, FormatHex;
    var src := before + Write(f) + rest;
    assert Write(f) == head + body;
    FrameParts(before, head, body, rest);
    assert src[|before|..|before| + 4] == head;
    assert src[|before| + 4..|before| + 4 + |body|] == body;
  }

  lemma ParseFormatHex4(n: nat)
    requires n <= PKT_MAX_LEN
    ensures ParseHex(FormatHex(n, 4)) == Some(n)
  {
    assert Pow16(4) == 65536 by { assert Pow16(2) == 256; }
    ParseFormatHex(n, 4);
  }

  lemma FrameParts(before: bytes, head: bytes, body: bytes, rest: bytes)
    ensures var src := before + (head + body) + rest;
            && src[|before|..|before| + |head|] == head
            && src[|before| + |head|..|before| + |head| + |body|] == body
  {
    Assoc(before, head, body);
    Assoc(before + head, body, rest);
    Assoc(before, head, body + rest);
    Slices(before, head, body + rest);
    Slices(before + head, body, rest);
  }

  method PktRead(src: bytes, pos: nat) returns (r: Result<(Frame, nat), PktError>)
    ensures r == Read(src, pos)
  {
    hide ParseHex;
    if pos > |src| || |src| - pos < 4 {
      return Err(Truncated);
    }
    var lineLen := ParseHex(src[pos..pos + 4]);
    if lineLen.None? {
      return Err(Malformed);
    }
    if lineLen.value <= 2 {
      return Ok((Control(lineLen.value), pos + 4));
    }
    if lineLen.value < 4 || lineLen.value > |src| - pos {
      return Err(InvalidLength);
    }
    var payloadStart, payloadEnd := pos + 4, pos + lineLen.value;
    return Ok((Data(src[payloadStart..payloadEnd]), payloadEnd));
  }

  /** pktWrite, appending to dst. */
  method PktWrite(dst: bytes, data: bytes) returns (r: Result<bytes, PktError>)
    ensures r == if Sendable(Data(data)) then Ok(dst + Write(Data(data))) else Err(TooLarge)
  {
    if |data| > PKT_MAX_LEN - 4 {
      return Err(TooLarge);
    }
    var total := |data| + 4;
    if total > PKT_MAX_LEN {
      return Err(TooLarge);
    }
    var out := dst + FormatHex(total, 4);
    Assoc(dst, FormatHex(total, 4), data);
    return Ok(out + data);
  }

  method PktFlush(dst: bytes) returns (out: bytes)
    ensures out == dst + Write(Control(0))
  {
    assert FormatHex(0, 2) == [0x30, 0x30];
    assert FormatHex(0, 4) == [0x30, 0x30, 0x30, 0x30];
    return dst + [0x30, 0x30, 0x30, 0x30];
  }

  // ----- digit by digit -----

  /** The character stands for the value, in either case. */
  predicate Digit(c: byte, v: nat) {
    v < 16 && (c == Ascii("0123456789abcdef")[v] || c == Ascii("0123456789ABCDEF")[v])
  }

  lemma DigitValue(c: byte, v: nat)
    ensures HexValue(c) == Some(v) <==> Digit(c, v)
  {
    var low, high := "0123456789abcdef", "0123456789ABCDEF";
    if v < 16 {
      assert low[v] as int == (if v < 10 then 48 + v else 87 + v);
      assert high[v] as int == (if v < 10 then 48 + v else 55 + v);
    }
  }

  /** Whatever follows four digits is read by the number that they spell. */
  lemma ReadDigits(head: bytes, v: seq<nat>, rest: bytes)
    requires |head| == |v| == 4 && forall i :: 0 <= i < 4 ==> Digit(head[i], v[i])
    ensures var n := 4096 * v[0] + 256 * v[1] + 16 * v[2] + v[3];
            Read(head + rest, 0) ==
              if n <= 2 then Ok((Control(n), 4))
              else if n == 3 || n > 4 + |rest| then Err(InvalidLength)
              else Ok((Data(rest[..n - 4]), n))
  {
    hide Digit, HexValue;
    forall i | 0 <= i < 4
      ensures HexValue(head[i]) == Some(v[i])
    {
      DigitValue(head[i], v[i]);
    }
    var src := head + rest;
    assert src[0..4] == head;
    assert head[..3][..2][..1][..0] == [];
    assert ParseHex(head[..1]) == Some(v[0]);
    assert ParseHex(head[..2]) == Some(16 * v[0] + v[1]) by { assert head[..2][..1] == head[..1]; }
    assert ParseHex(head[..3]) == Some(256 * v[0] + 16 * v[1] + v[2]) by { assert head[..3][..2] == head[..2]; }
    var n := 4096 * v[0] + 256 * v[1] + 16 * v[2] + v[3];
    assert ParseHex(head) == Some(n);
    if 4 <= n <= |src| {
      assert src[4..n] == rest[..n - 4];
    }
  }

  /** A character among the four that is no digit is refused. */
  lemma BadDigit(src: bytes, i: nat)
    requires i < 4 <= |src| && forall v: nat :: !Digit(src[i], v)
    ensures Read(src, 0) == Err(Malformed)
  {
    hide Digit, HexValue;
    if HexValue(src[i]).Some? {
      DigitValue(src[i], HexValue(src[i]).value);
    }
    assert src[0..4][i] == src[i];
    NoNumber(src[0..4], i);
  }

  lemma {:induction false} NoNumber(bs: bytes, i: nat)
    requires i < |bs| && HexValue(bs[i]).None?
    ensures ParseHex(bs).None?
  {
    hide HexValue;
    if i < |bs| - 1 {
      NoNumber(bs[..|bs| - 1], i);
    }
  }

  // ----- streams of frames -----

  predicate AllSendable(fs: seq<Frame>) {
    forall i :: 0 <= i < |fs| ==> Sendable(fs[i])
  }

  function WriteAll(fs: seq<Frame>): bytes
    requires AllSendable(fs)
  {
    if fs == [] then [] else Write(fs[0]) + WriteAll(fs[1..])
  }

  function ReadAll(src: bytes, pos: nat): Result<seq<Frame>, PktError>
    requires pos <= |src|
    decreases |src| - pos
  {
    if pos == |src| then Ok([])
    else match Read(src, pos)
      case Err(e) => Err(e)
      case Ok((f, next)) =>
        match ReadAll(src, next)
        case Err(e) => Err(e)
        case Ok(fs) => Ok([f] + fs)
  }

  /** Reading undoes any sequence of writes and flushes. */
  lemma {:induction false} ReadAllWriteAll(before: bytes, fs: seq<Frame>)
    requires AllSendable(fs)
    ensures ReadAll(before + WriteAll(fs), |before|) == Ok(fs)
    decreases |fs|
  {
    hide Read, Write, Sendable;
    if fs != [] {
      var w, more := Write(fs[0]), WriteAll(fs[1..]);
      ReadWrite(before, fs[0], more);
      Assoc(before, w, more);
      WriteLength(fs[0]);
      ReadAllWriteAll(before + w, fs[1..]);
      assert fs == [fs[0]] + fs[1..];
    }
  }

  lemma WriteLength(f: Frame)
    requires Sendable(f)
    ensures |Write(f)| >= 4 && HexValue(Write(f)[0]).Some?
  {}
}
