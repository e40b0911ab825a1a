/**
 * The delta machine (delta.go): a delta is two size varints and a list of copy and insert
 * instructions; applying it to a base object gives a new object.
 */
module Delta {
  import opened Wrappers
  import opened Bytes
  import V = Varints

  datatype DeltaError =
    | MalformedVarint
    | BaseSizeMismatch
    | NegativeCapacity   // Go's make panics on a negative capacity
    | Truncated
    | CopyRange
    | InvalidCommand
    | InsertRange
    | TrailingGarbage

  /** An instruction as it is written: a copy command with its argument bytes, or inserted bytes. */
  datatype Op =
    | Copy(cmd: byte, args: bytes)
    | Insert(data: bytes)

  // ----- meaning of instructions -----

  predicate Bit(cmd: nat, k: nat) {
    if k == 0 then cmd % 2 == 1 else Bit(cmd / 2, k - 1)
  }

  /** How many of the k low bits of cmd are set: where argument k is found. */
  function Count(cmd: nat, k: nat): nat {
    if k == 0 then 0 else Count(cmd, k - 1) + if Bit(cmd, k - 1) then 1 else 0
  }

  lemma {:induction false} CountMonotone(cmd: nat, k: nat, m: nat)
    requires k <= m
    ensures Count(cmd, k) <= Count(cmd, m)
    ensures k < m && Bit(cmd, k) ==> Count(cmd, k) < Count(cmd, m)
  {
    if k < m {
      CountMonotone(cmd, k, m - 1);
    }
  }

  predicate WellFormed(op: Op) {
    match op
    case Copy(cmd, args) => cmd >= 128 && |args| == Count(cmd, 7)
    case Insert(data) => 0 < |data| < 128
  }

  /** Argument k of a copy command; an absent one is zero. */
  function Arg(cmd: byte, args: bytes, k: nat): (v: byte)
    requires k < 7 && |args| >= Count(cmd, 7)
  {
    CountMonotone(cmd, k, 7);
    if Bit(cmd, k) then args[Count(cmd, k)] else 0
  }

  /** The little-endian number in n arguments from argument k on. */
  function Field(n: nat, k: nat, cmd: byte, args: bytes): nat
    requires k + n <= 7 && |args| >= Count(cmd, 7)
  {
    if n == 0 then 0 else Arg(cmd, args, k) + 0x100 * Field(n - 1, k + 1, cmd, args)
  }

  function CopyOffset(cmd: byte, args: bytes): nat
    requires |args| >= Count(cmd, 7)
  {
    Field(4, 0, cmd, args)
  }

  /** An encoded size of zero stands for 0x10000. */
  function CopySize(cmd: byte, args: bytes): (n: nat)
    requires |args| >= Count(cmd, 7)
    ensures n > 0
  {
    var n := Field(3, 4, cmd, args);
    if n == 0 then 0x10000 else n
  }

  predicate InBase(base: bytes, op: Op)
    requires WellFormed(op)
  {
    op.Copy? ==> CopyOffset(op.cmd, op.args) + CopySize(op.cmd, op.args) <= |base|
  }

  function Size(op: Op): (n: nat)
    requires WellFormed(op)
    ensures n > 0
  {
    if op.Copy? then CopySize(op.cmd, op.args) else |op.data|
  }

  function Run(base: bytes, op: Op): (r: bytes)
    requires WellFormed(op) && InBase(base, op)
    ensures |r| == Size(op)
  {
    match op
    case Copy(cmd, args) => base[CopyOffset(cmd, args)..CopyOffset(cmd, args) + CopySize(cmd, args)]
    case Insert(data) => data
  }

  predicate Runnable(base: bytes, ops: seq<Op>) {
    forall i :: 0 <= i < |ops| ==> WellFormed(ops[i]) && InBase(base, ops[i])
  }

  function RunAll(base: bytes, ops: seq<Op>): bytes
    requires Runnable(base, ops)
  {
    if ops == [] then [] else Run(base, ops[0]) + RunAll(base, ops[1..])
  }

  // ----- writing and reading instructions -----

  function WriteOp(op: Op): bytes
    requires WellFormed(op)
  {
    match op
    case Copy(cmd, args) => [cmd] + args
    case Insert(data) => [|data|] + data
  }

  function WriteOps(ops: seq<Op>): bytes
    requires forall i :: 0 <= i < |ops| ==> WellFormed(ops[i])
  {
    if ops == [] then [] else WriteOp(ops[0]) + WriteOps(ops[1..])
  }

  /** The instruction at pos and the position after it. */
  function ReadOp(delta: bytes, pos: nat): (r: Result<(Op, nat), DeltaError>)
    requires pos <= |delta|
    ensures r.Ok? ==> WellFormed(r.value.0) && pos < r.value.1 <= |delta|
  {
    if pos == |delta| then Err(Truncated)
    else if delta[pos] >= 128 then
      var end := pos + 1 + Count(delta[pos], 7);
      if end > |delta| then Err(Truncated) else Ok((Copy(delta[pos], delta[pos + 1..end]), end))
    else if delta[pos] == 0 then Err(InvalidCommand)
    else
      var end := pos + 1 + delta[pos];
      if end > |delta| then Err(Truncated) else Ok((Insert(delta[pos + 1..end]), end))
  }

  /** A written instruction is read back, whichever argument bytes the writer spelled out. */
  lemma ReadOpInverse(before: bytes, op: Op, rest: bytes)
    requires WellFormed(op)
    ensures ReadOp(before + WriteOp(op) + rest, |before|) == Ok((op, |before| + |WriteOp(op)|))
  {
    var w := WriteOp(op);
    var body := if op.Copy? then op.args else op.data;
    var delta := before + w + rest;
    assert delta[|before|] == w[0];
    assert delta == (before + [w[0]]) + body + rest;
    Slices(before + [w[0]], body, rest);
  }

  lemma ReadOpSound(delta: bytes, pos: nat)
    requires pos <= |delta| && ReadOp(delta, pos).Ok?
    ensures var (op, end) := ReadOp(delta, pos).value; delta[pos..end] == WriteOp(op)
  {
    var end := ReadOp(delta, pos).value.1;
    assert delta[pos..end] == [delta[pos]] + delta[pos + 1..end];
  }

  // ----- applying a delta -----

  /** What one instruction appends when room bytes of the target are still missing. */
  function Step(base: bytes, op: Op, room: nat): Result<bytes, DeltaError>
    requires WellFormed(op)
  {
    if op.Copy? && (!InBase(base, op) || Size(op) > room) then Err(CopyRange)
    else if Size(op) > room then Err(InsertRange)
    else Ok(Run(base, op))
  }

  /** The instruction loop, from a position in the delta and the result so far. */
  function Exec(base: bytes, delta: bytes, pos: nat, target: int, acc: bytes): Result<bytes, DeltaError>
    requires pos <= |delta|
    decreases |delta| - pos
  {
    if |acc| < target then
      match ReadOp(delta, pos)
      case Err(e) => Err(e)
      case Ok((op, end)) =>
        match Step(base, op, target - |acc|)
        case Err(e) => Err(e)
        case Ok(data) => Exec(base, delta, end, target, acc + data)
    else if |acc| != target || pos != |delta| then Err(TrailingGarbage)
    else Ok(acc)
  }

  function Apply(base: bytes, delta: bytes): Result<bytes, DeltaError> {
    match V.DeltaVarint(delta, 0)
    case None => Err(MalformedVarint)
    case Some((baseSize, p)) =>
      match V.DeltaVarint(delta, p)
      case None => Err(MalformedVarint)
      case Some((targetSize, q)) =>
        if baseSize != |base| then Err(BaseSizeMismatch)
        else if targetSize < 0 then Err(NegativeCapacity)
        else Exec(base, delta, q, targetSize, [])
  }

  // ----- what a delta means -----

  /** delta is the two sizes followed by a program that runs inside base and produces r. */
  ghost predicate Encodes(delta: bytes, base: bytes, r: bytes, sizes: (bytes, bytes), ops: seq<Op>) {
    && SizeString(sizes.0, |base|)
    && SizeString(sizes.1, |r|)
    && Runnable(base, ops)
    && RunAll(base, ops) == r
    && delta == sizes.0 + sizes.1 + WriteOps(ops)
  }

  predicate SizeString(bs: bytes, n: nat) {
    V.Terminated(bs) && |bs| <= 10 && V.LebInt(bs) == n
  }

  lemma {:induction false} ExecSound(base: bytes, delta: bytes, pos: nat, target: int, acc: bytes)
    returns (ops: seq<Op>)
    requires pos <= |delta| && Exec(base, delta, pos, target, acc).Ok?
    ensures Runnable(base, ops) && delta[pos..] == WriteOps(ops)
    ensures Exec(base, delta, pos, target, acc).value == acc + RunAll(base, ops)
    ensures |acc + RunAll(base, ops)| == target
    decreases |delta| - pos
  {
    if |acc| < target {
      var (op, end) := ReadOp(delta, pos).value;
      var more := ExecSound(base, delta, end, target, acc + Run(base, op));
      ReadOpSound(delta, pos);
      Split(delta, pos, end);
      ops := [op] + more;
      ConsOp(base, op, more);
      Assoc(acc, Run(base, op), RunAll(base, more));
    } else {
      ops := [];
    }
  }

  lemma ConsOp(base: bytes, op: Op, more: seq<Op>)
    requires WellFormed(op) && InBase(base, op) && Runnable(base, more)
    ensures Runnable(base, [op] + more)
    ensures WriteOps([op] + more) == WriteOp(op) + WriteOps(more)
    ensures RunAll(base, [op] + more) == Run(base, op) + RunAll(base, more)
  {
    assert ([op] + more)[1..] == more;
  }

  lemma {:induction false} ExecComplete(base: bytes, before: bytes, ops: seq<Op>, target: int, acc: bytes)
    requires Runnable(base, ops)
    requires target == |acc + RunAll(base, ops)|
    ensures Exec(base, before + WriteOps(ops), |before|, target, acc) == Ok(acc + RunAll(base, ops))
    decreases |ops|
  {
    hide ReadOp, WriteOp, Run, InBase, Size;
    if ops != [] {
      var op, more := ops[0], ops[1..];
      Assoc(before, WriteOp(op), WriteOps(more));
      ReadOpInverse(before, op, WriteOps(more));
      Assoc(acc, Run(base, op), RunAll(base, more));
      ExecComplete(base, before + WriteOp(op), more, target, acc + Run(base, op));
    } else {
      assert acc + [] == acc && before + [] == before;
    }
  }

  /** Applying a delta gives r exactly when the delta encodes a program that turns base into r. */
  lemma ApplyExact(base: bytes, delta: bytes, r: bytes)
    ensures Apply(base, delta) == Ok(r) <==> exists sizes, ops :: Encodes(delta, base, r, sizes, ops)
  {
    hide Apply, Encodes;
    if Apply(base, delta) == Ok(r) {
      var sizes, ops := ApplySound(base, delta, r);
    }
    if exists sizes, ops :: Encodes(delta, base, r, sizes, ops) {
      var sizes, ops :| Encodes(delta, base, r, sizes, ops);
      ApplyComplete(base, delta, r, sizes, ops);
    }
  }

  lemma ApplySound(base: bytes, delta: bytes, r: bytes) returns (sizes: (bytes, bytes), ops: seq<Op>)
    requires Apply(base, delta) == Ok(r)
    ensures Encodes(delta, base, r, sizes, ops)
  {
    hide Exec, WriteOps, RunAll, V.DeltaVarint, V.LebInt, V.Terminated;
    var (baseSize, p) := V.DeltaVarint(delta, 0).value;
    var (targetSize, q) := V.DeltaVarint(delta, p).value;
    sizes := (delta[0..p], delta[p..q]);
    V.DeltaVarintSound(delta, 0);
    V.DeltaVarintSound(delta, p);
    ops := ExecSound(base, delta, q, targetSize, []);
    assert [] + RunAll(base, ops) == RunAll(base, ops);
    assert delta == delta[0..p] + delta[p..q] + delta[q..];
  }

  lemma ApplyComplete(base: bytes, delta: bytes, r: bytes, sizes: (bytes, bytes), ops: seq<Op>)
    requires Encodes(delta, base, r, sizes, ops)
    ensures Apply(base, delta) == Ok(r)
  {
    hide Exec, WriteOps, V.DeltaVarint, V.LebInt, V.Terminated;
    var (b, t) := sizes;
    var body := WriteOps(ops);
    assert delta == [] + b + (t + body);
    V.DeltaVarintAt([], b, t + body);
    V.DeltaVarintAt(b, t, body);
    assert [] + r == r;
    ExecComplete(base, b + t, ops, |r|, []);
  }

  /** Any encoder is undone: canonical sizes and any program that stays inside the base. */
  lemma ApplyRoundTrip(base: bytes, ops: seq<Op>)
    requires Runnable(base, ops)
    requires |base| < TWO_63 && |RunAll(base, ops)| < TWO_63
    ensures Apply(base, V.EncodeLeb(|base|) + V.EncodeLeb(|RunAll(base, ops)|) + WriteOps(ops))
         == Ok(RunAll(base, ops))
  {
    var r := RunAll(base, ops);
    var sizes := (V.EncodeLeb(|base|), V.EncodeLeb(|r|));
    V.NineDigits();
    V.EncodeLebLength(|base|, 9);
    V.EncodeLebLength(|r|, 9);
    ApplyComplete(base, sizes.0 + sizes.1 + WriteOps(ops), r, sizes, ops);
  }

  // ----- the loop of delta.go -----

  /** One of the seven "if the flag is set, take a byte" steps of a copy command. */
  method TakeArg(delta: bytes, pos: nat, cmd: byte, k: nat, ghost start: nat)
    returns (ok: bool, v: nat, next: nat)
    requires k < 7 && pos == start + Count(cmd, k) <= |delta|
    ensures !ok ==> start + Count(cmd, 7) > |delta|
    ensures ok ==> next == start + Count(cmd, k + 1) <= |delta|
    ensures ok && start + Count(cmd, 7) <= |delta| ==>
              v == Arg(cmd, delta[start..start + Count(cmd, 7)], k)
  {
    CountMonotone(cmd, k, 7);
    if !Bit(cmd, k) {
      return true, 0, pos;
    }
    if pos >= |delta| {
      return false, 0, pos;
    }
    return true, delta[pos], pos + 1;
  }

  /** Offset and size of a copy command whose arguments start at start. */
  method TakeCopy(delta: bytes, start: nat, cmd: byte) returns (ok: bool, offset: nat, size: nat, end: nat)
    requires start <= |delta|
    ensures ok <==> start + Count(cmd, 7) <= |delta|
    ensures ok ==> end == start + Count(cmd, 7)
    ensures ok ==> offset == CopyOffset(cmd, delta[start..end]) && size == CopySize(cmd, delta[start..end])
  {
    var b0, b1, b2, b3, b4, b5, b6: nat;
    offset, size, end := 0, 0, start;
    ok, b0, end := TakeArg(delta, end, cmd, 0, start);
    if !ok { return; }
    ok, b1, end := TakeArg(delta, end, cmd, 1, start);
    if !ok { return; }
    ok, b2, end := TakeArg(delta, end, cmd, 2, start);
    if !ok { return; }
    ok, b3, end := TakeArg(delta, end, cmd, 3, start);
    if !ok { return; }
    ok, b4, end := TakeArg(delta, end, cmd, 4, start);
    if !ok { return; }
    ok, b5, end := TakeArg(delta, end, cmd, 5, start);
    if !ok { return; }
    ok, b6, end := TakeArg(delta, end, cmd, 6, start);
    if !ok { return; }
    offset := b0 + 0x100 * b1 + 0x10000 * b2 + 0x1000000 * b3;
    size := b4 + 0x100 * b5 + 0x10000 * b6;
    FieldsUnrolled(cmd, delta[start..end]);
    if size == 0 {
      size := 0x10000;
    }
  }

  lemma FieldsUnrolled(cmd: byte, args: bytes)
    requires |args| >= Count(cmd, 7)
    ensures Field(4, 0, cmd, args) ==
              Arg(cmd, args, 0) + 0x100 * Arg(cmd, args, 1) + 0x10000 * Arg(cmd, args, 2)
              + 0x1000000 * Arg(cmd, args, 3)
    ensures Field(3, 4, cmd, args) ==
              Arg(cmd, args, 4) + 0x100 * Arg(cmd, args, 5) + 0x10000 * Arg(cmd, args, 6)
  {
    assert Field(1, 3, cmd, args) == Arg(cmd, args, 3);
    assert Field(2, 2, cmd, args) == Arg(cmd, args, 2) + 0x100 * Field(1, 3, cmd, args);
    assert Field(1, 6, cmd, args) == Arg(cmd, args, 6);
  }

  method ApplyDelta(base: bytes, delta: bytes) returns (r: Result<bytes, DeltaError>)
    ensures r == Apply(base, delta)
  {
    var first := V.ReadDeltaVarint(delta, 0);
    if first.None? {
      return Err(MalformedVarint);
    }
    var second := V.ReadDeltaVarint(delta, first.value.1);
    if second.None? {
      return Err(MalformedVarint);
    }
    var targetSize, pos := second.value.0, second.value.1;
    if first.value.0 != |base| {
      return Err(BaseSizeMismatch);
    }
    if targetSize < 0 {
      return Err(NegativeCapacity);
    }
    r, pos := RunInstructions(base, delta, pos, targetSize);
    if r.Ok? && (|r.value| != targetSize || pos != |delta|) {
      return Err(TrailingGarbage);
    }
  }

  /** Reads the instruction at pos; for a copy, also its offset and size. */
  method NextOp(delta: bytes, pos: nat)
    returns (r: Result<(Op, nat), DeltaError>, offset: nat, size: nat)
    requires pos <= |delta|
    ensures r == ReadOp(delta, pos)
    ensures r.Ok? && r.value.0.Copy? ==>
              && offset == CopyOffset(r.value.0.cmd, r.value.0.args)
              && size == CopySize(r.value.0.cmd, r.value.0.args)
  {
    offset, size := 0, 0;
    if pos >= |delta| {
      return Err(Truncated), 0, 0;
    }
    var cmd := delta[pos];
    if cmd >= 0x80 {
      var ok, end;
      ok, offset, size, end := TakeCopy(delta, pos + 1, cmd);
      if !ok {
        return Err(Truncated), 0, 0;
      }
      return Ok((Copy(cmd, delta[pos + 1..end]), end)), offset, size;
    }
    if cmd == 0 {
      return Err(InvalidCommand), 0, 0;
    }
    if pos + 1 + cmd > |delta| {
      return Err(Truncated), 0, 0;
    }
    return Ok((Insert(delta[pos + 1..pos + 1 + cmd]), pos + 1 + cmd)), 0, 0;
  }

  method RunOp(base: bytes, op: Op, offset: nat, size: nat, room: nat) returns (r: Result<bytes, DeltaError>)
    requires WellFormed(op)
    requires op.Copy? ==> offset == CopyOffset(op.cmd, op.args) && size == CopySize(op.cmd, op.args)
    ensures r == Step(base, op, room)
  {
    if op.Insert? {
      return if |op.data| > room then Err(InsertRange) else Ok(op.data);
    }
    if offset > |base| || size > |base| - offset || size > room {
      return Err(CopyRange);
    }
    return Ok(base[offset..offset + size]);
  }

  method RunInstructions(base: bytes, delta: bytes, start: nat, targetSize: nat)
    returns (r: Result<bytes, DeltaError>, pos: nat)
    requires start <= |delta|
    ensures pos <= |delta|
    ensures Exec(base, delta, start, targetSize, []) ==
              if r.Ok? && (|r.value| != targetSize || pos != |delta|) then Err(TrailingGarbage) else r
  {
    hide ReadOp, Step;
    pos := start;
    var result: bytes := [];
    while |result| < targetSize
      invariant start <= pos <= |delta|
      invariant Exec(base, delta, start, targetSize, []) == Exec(base, delta, pos, targetSize, result)
      decreases |delta| - pos
    {
      var next, offset, size := NextOp(delta, pos);
      if next.Err? {
        return Err(next.error), pos;
      }
      var (op, end) := next.value;
      var data := RunOp(base, op, offset, size, targetSize - |result|);
      if data.Err? {
        return Err(data.error), pos;
      }
      result := result + data.value;
      pos := end;
    }
    return Ok(result), pos;
  }
}
