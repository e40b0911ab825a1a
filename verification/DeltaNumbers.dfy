/**
 * Copy commands written from numbers (delta.go): an encoder starts from an offset and a size and may leave
 * out bytes that are zero; the interpreter copies from that offset and of that size.
 */
module DeltaNumbers {
  import opened Wrappers
  import opened Bytes
  import opened Delta
  import V = Varints

  /** The seven argument bytes: the offset's four and the size's three, each low byte first. */
  function Digits(offset: nat, size: nat): (ds: bytes)
    requires offset < 0x1_0000_0000 && size < 0x100_0000
    ensures |ds| == 7
  {
    [offset % 256, offset / 256 % 256, offset / 65536 % 256, offset / 16777216,
     size % 256, size / 256 % 256, size / 65536]
  }

  /** The command byte says which of the seven follow. */
  function Command(keep: seq<bool>): (cmd: byte)
    requires |keep| == 7
    ensures cmd >= 128
  {
    128 + (if keep[0] then 1 else 0) + (if keep[1] then 2 else 0) + (if keep[2] then 4 else 0)
    + (if keep[3] then 8 else 0) + (if keep[4] then 16 else 0) + (if keep[5] then 32 else 0)
    + (if keep[6] then 64 else 0)
  }

  function Kept(ds: bytes, keep: seq<bool>): bytes
    requires |ds| == |keep|
  {
    if ds == [] then [] else (if keep[0] then [ds[0]] else []) + Kept(ds[1..], keep[1..])
  }

  /** Only bytes that are zero may be left out. */
  predicate Allowed(ds: bytes, keep: seq<bool>) {
    |ds| == |keep| == 7 && forall k :: 0 <= k < 7 && !keep[k] ==> ds[k] == 0
  }

  // ----- reading the arguments back -----

  function Flags(keep: seq<bool>): nat {
    if keep == [] then 0 else (if keep[0] then 1 else 0) + 2 * Flags(keep[1..])
  }

  function Number(keep: seq<bool>): nat {
    if keep == [] then 0 else (if keep[0] then 1 else 0) + Number(keep[1..])
  }

  lemma {:induction false} FlagIsBit(keep: seq<bool>, k: nat)
    requires k < |keep|
    ensures Bit(Flags(keep), k) == keep[k]
  {
    var rest := Flags(keep[1..]);
    assert Flags(keep) / 2 == rest && Flags(keep) % 2 == if keep[0] then 1 else 0;
    if k > 0 {
      FlagIsBit(keep[1..], k - 1);
    }
  }

  lemma {:induction false} NumberSnoc(keep: seq<bool>, b: bool)
    ensures Number(keep + [b]) == Number(keep) + if b then 1 else 0
  {
    if keep == [] {
      assert keep + [b] == [b] && [b][1..] == [];
    } else {
      assert (keep + [b])[1..] == keep[1..] + [b];
      NumberSnoc(keep[1..], b);
    }
  }

  lemma {:induction false} CountIsNumber(keep: seq<bool>, k: nat)
    requires k <= |keep|
    ensures Count(Flags(keep), k) == Number(keep[..k])
  {
    if k > 0 {
      CountIsNumber(keep, k - 1);
      FlagIsBit(keep, k - 1);
      assert keep[..k] == keep[..k - 1] + [keep[k - 1]];
      NumberSnoc(keep[..k - 1], keep[k - 1]);
    }
  }

  lemma {:induction false} KeptAt(ds: bytes, keep: seq<bool>, k: nat)
    requires |ds| == |keep| && k < |ds|
    ensures |Kept(ds, keep)| == Number(keep)
    ensures Number(keep[..k]) <= Number(keep)
    ensures keep[k] ==> Number(keep[..k]) < Number(keep) && Kept(ds, keep)[Number(keep[..k])] == ds[k]
  {
    if |ds| == 1 {
      assert ds[1..] == [] && keep[..k] == [];
    } else if k == 0 {
      KeptAt(ds[1..], keep[1..], 0);
      assert keep[..0] == [];
    } else {
      KeptAt(ds[1..], keep[1..], k - 1);
      assert keep[..k][1..] == keep[1..][..k - 1];
    }
  }

  function One(b: bool): nat {
    if b then 1 else 0
  }

  lemma CommandIsFlags(keep: seq<bool>)
    requires |keep| == 7
    ensures Command(keep) == Flags(keep + [true])
  {
    var all := keep + [true];
    CommandByOnes(keep);
    hide Command, One;
    assert forall k :: 0 <= k < 7 ==> all[k] == keep[k];
    FlagsByOnes(all);
  }

  lemma CommandByOnes(k: seq<bool>)
    requires |k| == 7
    ensures Command(k) == 128 + One(k[0]) + 2 * One(k[1]) + 4 * One(k[2]) + 8 * One(k[3]) + 16 * One(k[4])
                          + 32 * One(k[5]) + 64 * One(k[6])
  {}

  lemma FlagsByOnes(k: seq<bool>)
    requires |k| == 8 && k[7]
    ensures Flags(k) == One(k[0]) + 2 * One(k[1]) + 4 * One(k[2]) + 8 * One(k[3]) + 16 * One(k[4])
                        + 32 * One(k[5]) + 64 * One(k[6]) + 128
  {
    hide Flags, One;
    FourFlags(k, 0);
    FourFlags(k, 4);
    LastFlag(k);
    assert k[0..] == k;
  }

  lemma LastFlag(k: seq<bool>)
    requires |k| == 8 && k[7]
    ensures One(k[7]) == 1 && Flags(k[8..]) == 0
  {}

  lemma FourFlags(all: seq<bool>, k: nat)
    requires k + 4 <= |all|
    ensures Flags(all[k..]) == One(all[k]) + 2 * One(all[k + 1]) + 4 * One(all[k + 2]) + 8 * One(all[k + 3])
                               + 16 * Flags(all[k + 4..])
  {
    hide Flags, One;
    FlagsFrom(all, k);
    FlagsFrom(all, k + 1);
    FlagsFrom(all, k + 2);
    FlagsFrom(all, k + 3);
  }

  lemma FlagsFrom(all: seq<bool>, k: nat)
    requires k < |all|
    ensures Flags(all[k..]) == One(all[k]) + 2 * Flags(all[k + 1..])
  {
    assert all[k..][1..] == all[k + 1..];
  }

  lemma KeptCounts(ds: bytes, keep: seq<bool>)
    requires |ds| == |keep| == 7
    ensures |Kept(ds, keep)| == Count(Command(keep), 7)
  {
    hide Kept, Count, Command, Flags;
    CommandIsFlags(keep);
    CountIsNumber(keep + [true], 7);
    assert (keep + [true])[..7] == keep;
    KeptAt(ds, keep, 0);
  }

  lemma ArgIsDigit(ds: bytes, keep: seq<bool>, k: nat)
    requires Allowed(ds, keep) && k < 7
    ensures |Kept(ds, keep)| == Count(Command(keep), 7)
    ensures Arg(Command(keep), Kept(ds, keep), k) == ds[k]
  {
    hide Kept, Count, Command, Flags, Bit;
    KeptCounts(ds, keep);
    var all := keep + [true];
    CommandIsFlags(keep);
    FlagIsBit(all, k);
    CountIsNumber(all, k);
    assert all[k] == keep[k] && all[..k] == keep[..k];
    KeptAt(ds, keep, k);
  }

  // ----- what is copied -----

  lemma FieldsAreNumbers(offset: nat, size: nat, keep: seq<bool>)
    requires offset < 0x1_0000_0000 && size < 0x100_0000 && Allowed(Digits(offset, size), keep)
    ensures var cmd, args := Command(keep), Kept(Digits(offset, size), keep);
            && |args| == Count(cmd, 7)
            && Field(4, 0, cmd, args) == offset && Field(3, 4, cmd, args) == size
  {
    hide Kept, Count, Command, Arg;
    var ds := Digits(offset, size);
    var cmd, args := Command(keep), Kept(ds, keep);
    forall k: nat | k < 7
      ensures |args| == Count(cmd, 7) && Arg(cmd, args, k) == ds[k]
    {
      ArgIsDigit(ds, keep, k);
    }
    KeptCounts(ds, keep);
    FieldTwice(cmd, args);
    DigitsAddUp(offset);
    DigitsAddUp(size);
  }

  lemma FieldTwice(cmd: byte, args: bytes)
    requires |args| == Count(cmd, 7)
    ensures Field(4, 0, cmd, args) == Arg(cmd, args, 0) + 256 * Arg(cmd, args, 1) + 65536 * Arg(cmd, args, 2)
                                      + 16777216 * Arg(cmd, args, 3)
    ensures Field(3, 4, cmd, args) == Arg(cmd, args, 4) + 256 * Arg(cmd, args, 5) + 65536 * Arg(cmd, args, 6)
  {
    hide Arg, Count;
    assert Field(4, 0, cmd, args) == Arg(cmd, args, 0) + 256 * Field(3, 1, cmd, args);
    assert Field(3, 1, cmd, args) == Arg(cmd, args, 1) + 256 * Field(2, 2, cmd, args);
    assert Field(2, 2, cmd, args) == Arg(cmd, args, 2) + 256 * Field(1, 3, cmd, args);
    assert Field(1, 3, cmd, args) == Arg(cmd, args, 3);
    assert Field(3, 4, cmd, args) == Arg(cmd, args, 4) + 256 * Field(2, 5, cmd, args);
    assert Field(2, 5, cmd, args) == Arg(cmd, args, 5) + 256 * Field(1, 6, cmd, args);
    assert Field(1, 6, cmd, args) == Arg(cmd, args, 6);
  }

  lemma DigitsAddUp(n: nat)
    ensures n == n % 256 + 256 * (n / 256 % 256) + 65536 * (n / 65536 % 256) + 16777216 * (n / 16777216)
    ensures n < 0x100_0000 ==> n == n % 256 + 256 * (n / 256 % 256) + 65536 * (n / 65536)
  {}

  /** The bytes of a copy command for a size up to 2^24; 0x10000 may be written as zero. */
  function CopyBytes(offset: nat, written: nat, keep: seq<bool>): bytes
    requires offset < 0x1_0000_0000 && written < 0x100_0000 && |keep| == 7
  {
    [Command(keep)] + Kept(Digits(offset, written), keep)
  }

  /** A delta of one copy, whichever zero bytes its encoder left out, gives that part of the base. */
  lemma CopiesFromNumbers(base: bytes, offset: nat, size: nat, written: nat, keep: seq<bool>)
    requires offset < 0x1_0000_0000 && 0 < size < 0x100_0000 && offset + size <= |base| < TWO_63
    requires written == size || (size == 0x10000 && written == 0)
    requires Allowed(Digits(offset, written), keep)
    ensures Apply(base, V.EncodeLeb(|base|) + V.EncodeLeb(size) + CopyBytes(offset, written, keep))
         == Ok(base[offset..offset + size])
  {
    hide Kept, Count, Command, Apply, V.EncodeLeb, Arg, Field, Digits;
    FieldsAreNumbers(offset, written, keep);
    var op := Copy(Command(keep), Kept(Digits(offset, written), keep));
    assert WellFormed(op) && CopyOffset(op.cmd, op.args) == offset && CopySize(op.cmd, op.args) == size;
    OneCopy(base, op);
  }

  lemma OneCopy(base: bytes, op: Op)
    requires WellFormed(op) && op.Copy? && InBase(base, op) && |base| < TWO_63
    ensures var o, n := CopyOffset(op.cmd, op.args), CopySize(op.cmd, op.args);
            Apply(base, V.EncodeLeb(|base|) + V.EncodeLeb(n) + ([op.cmd] + op.args)) == Ok(base[o..o + n])
  {
    hide Count, Apply, V.EncodeLeb, CopyOffset, CopySize;
    assert [op][1..] == [];
    assert WriteOps([op]) == WriteOp(op) + [] == [op.cmd] + op.args;
    assert RunAll(base, [op]) == Run(base, op) + [] == Run(base, op);
    ApplyRoundTrip(base, [op]);
  }

  /** With all seven bytes written out. */
  lemma CopiesInFull(base: bytes, o: nat, n: nat)
    requires o < 0x1_0000_0000 && 0 < n < 0x100_0000 && o + n <= |base| < TWO_63
    ensures Apply(base, V.EncodeLeb(|base|) + V.EncodeLeb(n)
                        + [0xff, o % 256, o / 256 % 256, o / 65536 % 256, o / 16777216,
                           n % 256, n / 256 % 256, n / 65536])
         == Ok(base[o..o + n])
  {
    FullForm(o, n);
    hide Apply, V.EncodeLeb, CopyBytes;
    CopiesFromNumbers(base, o, n, n, ALL);
  }

  const ALL: seq<bool> := [true, true, true, true, true, true, true]

  lemma FullForm(o: nat, n: nat)
    requires o < 0x1_0000_0000 && n < 0x100_0000
    ensures CopyBytes(o, n, ALL) == [0xff, o % 256, o / 256 % 256, o / 65536 % 256, o / 16777216,
                                     n % 256, n / 256 % 256, n / 65536]
    ensures Allowed(Digits(o, n), ALL)
  {
    KeepAll(Digits(o, n), ALL);
    hide Kept;
    assert Command(ALL) == 0xff;
    assert CopyBytes(o, n, ALL) == [0xff] + Digits(o, n);
  }

  lemma {:induction false} KeepAll(ds: bytes, keep: seq<bool>)
    requires |ds| == |keep| && forall k :: 0 <= k < |keep| ==> keep[k]
    ensures Kept(ds, keep) == ds
  {
    if ds != [] {
      KeepAll(ds[1..], keep[1..]);
      assert [ds[0]] + ds[1..] == ds;
    }
  }
}
