/** The embedded key-value store's log: 4096-byte checksummed blocks, replayed until the first bad one. */
module WalStore {
  import opened Bytes
  import opened Fnv

  const BLOCK_SIZE: nat := 4096
  const MAGIC: nat := 0x57414C31

  datatype Op = Put(key: nat, value: nat) | Del(key: nat)

  datatype Logged = Logged(seqNum: nat, op: Op)

  /** What a reader of the log reconstructs. */
  datatype State = State(index: map<nat, nat>, seqNum: nat)

  ghost predicate Sized(e: Logged) {
    e.seqNum < Pow256(8) && e.op.key < Pow256(8) && (e.op.Put? ==> e.op.value < Pow256(8))
  }

  // ---- Blocks ----

  function Body(seqNum: nat, op: nat, key: nat, value: nat): (r: seq<byte>)
    ensures |r| == BLOCK_SIZE - 8
  {
    ToLE(seqNum, 8) + ToLE(0, 8) + ToLE(op, 4) + ToLE(0, 4) + ToLE(key, 8) + ToLE(value, 8) +
    seq(BLOCK_SIZE - 48, _ => 0)
  }

  function BodyOf(e: Logged): (r: seq<byte>)
    ensures |r| == BLOCK_SIZE - 8
  {
    if e.op.Put? then Body(e.seqNum, 1, e.op.key, e.op.value) else Body(e.seqNum, 2, e.op.key, 0)
  }

  function Seal(body: seq<byte>): (r: seq<byte>)
    ensures |r| == |body| + 8
  {
    ToLE(MAGIC, 4) + ToLE(Checksum(BASIS, body), 4) + body
  }

  function Encode(e: Logged): (r: seq<byte>)
    ensures |r| == BLOCK_SIZE
  {
    Seal(BodyOf(e))
  }

  function EncodeLog(log: seq<Logged>): (r: seq<byte>)
    ensures |r| == BLOCK_SIZE * |log|
  {
    if log == [] then [] else EncodeLog(log[..|log| - 1]) + Encode(log[|log| - 1])
  }

  predicate BlockOk(b: seq<byte>)
    requires |b| == BLOCK_SIZE
  {
    FieldAt(b, 0, 4) == MAGIC && FieldAt(b, 4, 8) == Checksum(BASIS, b[8..])
  }

  function Max(a: nat, b: nat): nat { if a > b then a else b }

  function ApplyBlock(b: seq<byte>, s: State): State
    requires |b| == BLOCK_SIZE
  {
    var seqNum, op, key, value := FieldAt(b, 8, 16), FieldAt(b, 24, 28), FieldAt(b, 32, 40), FieldAt(b, 40, 48);
    State(if op == 1 then s.index[key := value] else if op == 2 then s.index - {key} else s.index,
          Max(s.seqNum, seqNum))
  }

  // ---- Recovery ----

  function Recovery(file: seq<byte>, pos: nat, s: State): State
    decreases |file| - pos
  {
    if pos + BLOCK_SIZE > |file| then s
    else
      var b := file[pos..pos + BLOCK_SIZE];
      if BlockOk(b) then Recovery(file, pos + BLOCK_SIZE, ApplyBlock(b, s)) else s
  }

  /** The replay loop. */
  method Recover(file: seq<byte>) returns (index: map<nat, nat>, seqNum: nat)
    ensures State(index, seqNum) == Recovery(file, 0, State(map[], 0))
  {
    index, seqNum := map[], 0;
    var pos := 0;
    while pos + BLOCK_SIZE <= |file|
      invariant Recovery(file, pos, State(index, seqNum)) == Recovery(file, 0, State(map[], 0))
      decreases |file| - pos
    {
      var b := file[pos..pos + BLOCK_SIZE];
      if FieldAt(b, 0, 4) != MAGIC {
        break;
      }
      var sum := ComputeChecksum(b[8..]);
      if FieldAt(b, 4, 8) != sum {
        break;
      }
      seqNum := Max(seqNum, FieldAt(b, 8, 16));
      var op, key := FieldAt(b, 24, 28), FieldAt(b, 32, 40);
      if op == 1 {
        index := index[key := FieldAt(b, 40, 48)];
      } else if op == 2 {
        index := index - {key};
      }
      pos := pos + BLOCK_SIZE;
    }
  }

  // ---- What the log means ----

  function ApplyOp(e: Logged, s: State): State {
    State(if e.op.Put? then s.index[e.op.key := e.op.value] else s.index - {e.op.key}, Max(s.seqNum, e.seqNum))
  }

  /** The state after the logged operations. */
  function Replay(log: seq<Logged>): State {
    if log == [] then State(map[], 0) else ApplyOp(log[|log| - 1], Replay(log[..|log| - 1]))
  }

  lemma {:induction false} SealedIsOk(body: seq<byte>)
    requires |body| == BLOCK_SIZE - 8
    ensures BlockOk(Seal(body)) && Seal(body)[8..] == body
  {
    var b := Seal(body);
    assert b[8..] == body;
    ChecksumBounded(BASIS, body);
    FieldWidths();
    assert b[0..0 + 4] == ToLE(MAGIC, 4);
    RoundTrip(b, 0, MAGIC, 4);
    assert b[4..4 + 4] == ToLE(Checksum(BASIS, body), 4);
    RoundTrip(b, 4, Checksum(BASIS, body), 4);
  }

  lemma {:induction false} FieldsBack(seqNum: nat, op: nat, key: nat, value: nat, b: seq<byte>)
    requires seqNum < Pow256(8) && op < Pow256(4) && key < Pow256(8) && value < Pow256(8)
    requires |b| == BLOCK_SIZE && b[8..] == Body(seqNum, op, key, value)
    ensures FieldAt(b, 8, 16) == seqNum && FieldAt(b, 24, 28) == op && FieldAt(b, 32, 40) == key
    ensures FieldAt(b, 40, 48) == value
  {
    var body := Body(seqNum, op, key, value);
    assert body[0..8] == ToLE(seqNum, 8) && body[16..20] == ToLE(op, 4);
    assert body[24..32] == ToLE(key, 8) && body[32..40] == ToLE(value, 8);
    assert b[8..8 + 8] == body[0..8] && b[24..24 + 4] == body[16..20];
    assert b[32..32 + 8] == body[24..32] && b[40..40 + 8] == body[32..40];
    RoundTrip(b, 8, seqNum, 8);
    RoundTrip(b, 24, op, 4);
    RoundTrip(b, 32, key, 8);
    RoundTrip(b, 40, value, 8);
  }

  /** Time stamp, padding and reserved bytes are zero. */
  lemma {:induction false} RestIsZero(e: Logged)
    ensures var b := Encode(e); FieldAt(b, 16, 24) == 0 && FieldAt(b, 28, 32) == 0
    ensures forall i :: 48 <= i < BLOCK_SIZE ==> Encode(e)[i] == 0
  {
    hide ToLE, FieldAt, Checksum;
    var b := Encode(e);
    assert b[16..16 + 8] == ToLE(0, 8);
    assert b[28..28 + 4] == ToLE(0, 4);
    assert 0 < Pow256(8) && 0 < Pow256(4);
    RoundTrip(b, 16, 0, 8);
    RoundTrip(b, 28, 0, 4);
  }

  /** Replaying a written block performs the operation it logs. */
  lemma {:induction false} BlockReplays(e: Logged, s: State)
    requires Sized(e)
    ensures BlockOk(Encode(e)) && ApplyBlock(Encode(e), s) == ApplyOp(e, s)
  {
    SealedIsOk(BodyOf(e));
    FieldWidths();
    if e.op.Put? {
      FieldsBack(e.seqNum, 1, e.op.key, e.op.value, Encode(e));
    } else {
      FieldsBack(e.seqNum, 2, e.op.key, 0, Encode(e));
    }
  }

  ghost predicate AllSized(log: seq<Logged>) { forall i :: 0 <= i < |log| ==> Sized(log[i]) }

  const EMPTY: State := State(map[], 0)

  /** Replaying the intact blocks at the start of any file performs the operations they log. */
  lemma {:induction false} RecoverPrefix(file: seq<byte>, log: seq<Logged>)
    requires AllSized(log) && BLOCK_SIZE * |log| <= |file| && file[..BLOCK_SIZE * |log|] == EncodeLog(log)
    ensures Recovery(file, 0, EMPTY) == Recovery(file, BLOCK_SIZE * |log|, Replay(log))
  {
    if log != [] {
      var n := |log| - 1;
      var init, e, pos := log[..n], log[n], BLOCK_SIZE * n;
      LastBlock(file, log, pos);
      RecoverPrefix(file, init);
      BlockReplays(e, Replay(init));
    }
  }

  lemma {:induction false} LastBlock(file: seq<byte>, log: seq<Logged>, pos: nat)
    requires log != [] && pos == BLOCK_SIZE * (|log| - 1) && BLOCK_SIZE * |log| <= |file|
    requires file[..BLOCK_SIZE * |log|] == EncodeLog(log)
    ensures file[..pos] == EncodeLog(log[..|log| - 1]) && file[pos..pos + BLOCK_SIZE] == Encode(log[|log| - 1])
  {
    var a, b := EncodeLog(log[..|log| - 1]), Encode(log[|log| - 1]);
    assert file[..BLOCK_SIZE * |log|] == a + b;
    assert file[..pos] == (a + b)[..pos] == a;
    assert file[pos..pos + BLOCK_SIZE] == (a + b)[pos..] == b;
  }

  /** Recovery stops at the first block that is incomplete or fails its checks, whatever follows. */
  lemma {:induction false} StopsAtBadBlock(file: seq<byte>, log: seq<Logged>)
    requires AllSized(log) && BLOCK_SIZE * |log| <= |file| && file[..BLOCK_SIZE * |log|] == EncodeLog(log)
    requires BLOCK_SIZE * (|log| + 1) <= |file| ==> !BlockOk(file[BLOCK_SIZE * |log|..BLOCK_SIZE * (|log| + 1)])
    ensures Recovery(file, 0, EMPTY) == Replay(log)
  {
    RecoverPrefix(file, log);
  }

  /** The first i blocks of a written log. */
  lemma {:induction false} LogPrefix(log: seq<Logged>, i: nat)
    requires i <= |log|
    ensures EncodeLog(log)[..BLOCK_SIZE * i] == EncodeLog(log[..i])
    ensures i < |log| ==> EncodeLog(log)[BLOCK_SIZE * i..BLOCK_SIZE * (i + 1)] == Encode(log[i])
    decreases |log|
  {
    hide Encode;
    var n := |log| - 1;
    if i == |log| {
      assert log[..i] == log;
    } else {
      var a, b := EncodeLog(log[..n]), Encode(log[n]);
      if i == n {
        assert (a + b)[..BLOCK_SIZE * i] == a && (a + b)[BLOCK_SIZE * i..BLOCK_SIZE * (i + 1)] == b;
      } else {
        LogPrefix(log[..n], i);
        assert log[..n][..i] == log[..i];
        Slices(a, b, BLOCK_SIZE * i, BLOCK_SIZE * (i + 1));
      }
    }
  }

  lemma {:induction false} Slices(a: seq<byte>, b: seq<byte>, lo: nat, hi: nat)
    requires lo <= hi <= |a|
    ensures (a + b)[..lo] == a[..lo] && (a + b)[lo..hi] == a[lo..hi]
  {
  }

  lemma {:induction false} Poked(file: seq<byte>, start: nat, j: nat, size: nat, b: byte)
    requires start + size <= |file| && j < size
    ensures var file' := file[start + j := b];
            file'[..start] == file[..start] && file'[start..start + size] == file[start..start + size][j := b]
  {
  }

  /** A crash that keeps n bytes of the log recovers the operations whose blocks are complete. */
  lemma {:induction false} CutRecovers(log: seq<Logged>, n: nat)
    requires AllSized(log) && n <= |EncodeLog(log)|
    ensures n / BLOCK_SIZE <= |log| && Recovery(EncodeLog(log)[..n], 0, EMPTY) == Replay(log[..n / BLOCK_SIZE])
  {
    var k, file := n / BLOCK_SIZE, EncodeLog(log)[..n];
    LogPrefix(log, k);
    assert file[..BLOCK_SIZE * k] == EncodeLog(log)[..BLOCK_SIZE * k];
    StopsAtBadBlock(file, log[..k]);
  }

  /** Changing one byte of a field changes its value. */
  lemma {:induction false} FieldChanges(file: seq<byte>, pos: nat, end: nat, j: nat, b: byte)
    requires pos <= j < end <= |file| && file[j] != b
    ensures FieldAt(file[j := b], pos, end) != FieldAt(file, pos, end)
    decreases end - pos
  {
    if pos < j {
      FieldChanges(file, pos + 1, end, j, b);
    } else {
      FieldSame(file, pos + 1, end, j, b);
    }
  }

  lemma {:induction false} FieldSame(file: seq<byte>, pos: nat, end: nat, j: nat, b: byte)
    requires pos <= end <= |file| && j < |file| && !(pos <= j < end)
    ensures FieldAt(file[j := b], pos, end) == FieldAt(file, pos, end)
    decreases end - pos
  {
    if pos < end {
      FieldSame(file, pos + 1, end, j, b);
    }
  }

  /** A block with exactly one byte changed never passes, wherever the byte is. */
  lemma {:induction false} DamagedIsBad(body: seq<byte>, j: nat, b: byte)
    requires |body| == BLOCK_SIZE - 8 && j < BLOCK_SIZE && Seal(body)[j] != b
    ensures !BlockOk(Seal(body)[j := b])
  {
    var good, bad := Seal(body), Seal(body)[j := b];
    SealedIsOk(body);
    if j < 4 {
      FieldChanges(good, 0, 4, j, b);
    } else if j < 8 {
      FieldChanges(good, 4, 8, j, b);
      assert bad[8..] == good[8..];
    } else {
      FieldSame(good, 4, 8, j, b);
      assert bad[8..] == body[j - 8 := b];
      OneByteChanges(BASIS, body, j - 8, b);
    }
  }

  /** Corruption: when one byte of the log is changed, recovery keeps exactly the operations before the
      damaged block. */
  lemma {:induction false} DamageRecovers(log: seq<Logged>, p: nat, b: byte)
    requires AllSized(log) && p < |EncodeLog(log)| && EncodeLog(log)[p] != b
    ensures p / BLOCK_SIZE < |log| && Recovery(EncodeLog(log)[p := b], 0, EMPTY) == Replay(log[..p / BLOCK_SIZE])
  {
    hide EncodeLog, BodyOf, BlockOk, Recovery, Replay;
    var k, file := p / BLOCK_SIZE, EncodeLog(log);
    var start, j := BLOCK_SIZE * k, p % BLOCK_SIZE;
    LogPrefix(log, k);
    Poked(file, start, j, BLOCK_SIZE, b);
    assert file[p] == file[start..start + BLOCK_SIZE][j];
    DamagedIsBad(BodyOf(log[k]), j, b);
    StopsAtBadBlock(file[p := b], log[..k]);
  }

  /** No logged sequence number is above the recovered counter. */
  lemma {:induction false} CounterCoversLog(log: seq<Logged>, i: nat)
    requires i < |log|
    ensures log[i].seqNum <= Replay(log).seqNum
  {
    if i < |log| - 1 {
      CounterCoversLog(log[..|log| - 1], i);
    }
  }

  // ---- Appending behind an incomplete block ----

  /** The block at the start of a torn block and what was appended to it. */
  ghost function Window(tail: seq<byte>, more: seq<byte>): seq<byte>
    requires |tail| < BLOCK_SIZE <= |tail| + |more|
  {
    tail + more[..BLOCK_SIZE - |tail|]
  }

  lemma {:induction false} RecoveryShift(a: seq<byte>, b: seq<byte>, p: nat, s: State)
    ensures Recovery(a + b, |a| + p, s) == Recovery(b, p, s)
    decreases |b| - p
  {
    hide BlockOk, ApplyBlock;
    if p + BLOCK_SIZE <= |b| {
      var w := b[p..p + BLOCK_SIZE];
      assert (a + b)[|a| + p..|a| + p + BLOCK_SIZE] == w;
      if BlockOk(w) {
        RecoveryShift(a, b, p + BLOCK_SIZE, ApplyBlock(w, s));
      }
    }
  }

  /** Opening does not cut off a torn block, so the next block read mixes it with what was appended. If that block
      fails the check, or is still incomplete, everything appended is lost; if it passes, it is replayed and reading
      goes on behind it. */
  lemma {:induction false} AppendBehindTear(log: seq<Logged>, tail: seq<byte>, more: seq<byte>)
    requires AllSized(log) && |tail| < BLOCK_SIZE
    ensures var got := Recovery(EncodeLog(log) + (tail + more), 0, EMPTY);
            if |tail| + |more| < BLOCK_SIZE || !BlockOk(Window(tail, more)) then got == Replay(log)
            else got == Recovery(more, BLOCK_SIZE - |tail|, ApplyBlock(Window(tail, more), Replay(log)))
  {
    hide BlockOk, ApplyBlock, EncodeLog, Replay;
    var a, b := EncodeLog(log), tail + more;
    assert (a + b)[..|a|] == a;
    RecoverPrefix(a + b, log);
    RecoveryShift(a, b, 0, Replay(log));
    if BLOCK_SIZE <= |b| {
      assert b[0..0 + BLOCK_SIZE] == Window(tail, more);
      if BlockOk(Window(tail, more)) {
        RecoveryShift(tail, more, BLOCK_SIZE - |tail|, ApplyBlock(Window(tail, more), Replay(log)));
      }
    }
  }

  lemma {:induction false} MagicBytes(e: Logged)
    ensures Encode(e)[..4] == [0x31, 0x4C, 0x41, 0x57]
  {
    assert ToLE(MAGIC, 4) == [0x31, 0x4C, 0x41, 0x57];
  }

  lemma {:induction false} TopByte(b: seq<byte>)
    requires |b| >= 4 && FieldAt(b, 0, 4) == MAGIC
    ensures b[3] == 0x57
  {
    assert FieldAt(b, 0, 4) == b[0] + 256 * FieldAt(b, 1, 4);
    assert FieldAt(b, 1, 4) == b[1] + 256 * FieldAt(b, 2, 4);
    assert FieldAt(b, 2, 4) == b[2] + 256 * FieldAt(b, 3, 4);
    assert FieldAt(b, 3, 4) == b[3] + 256 * FieldAt(b, 4, 4);
  }

  /** One to three bytes of a torn block before a complete one: the magic number never matches. */
  lemma {:induction false} ShortTearIsBad(e: Logged, c: nat, next: Logged, w: seq<byte>)
    requires 0 < c < 4 && w == Encode(e)[..c] + Encode(next)[..BLOCK_SIZE - c]
    ensures !BlockOk(w)
  {
    hide Encode;
    MagicBytes(next);
    assert w[3] == Encode(next)[..4][3 - c];
    if FieldAt(w, 0, 4) == MAGIC {
      TopByte(w);
    }
  }

  /** All but the last byte of a block before a complete one: exactly one byte of the torn block is wrong. */
  lemma {:induction false} LongTearIsBad(e: Logged, next: Logged, w: seq<byte>)
    requires w == Encode(e)[..BLOCK_SIZE - 1] + Encode(next)[..1]
    ensures !BlockOk(w)
  {
    hide BlockOk, Checksum;
    MagicBytes(next);
    assert Encode(next)[0] == Encode(next)[..4][0];
    assert Encode(e)[BLOCK_SIZE - 1] == BodyOf(e)[BLOCK_SIZE - 9] == 0;
    DamagedIsBad(BodyOf(e), BLOCK_SIZE - 1, 0x31);
    assert w == Seal(BodyOf(e))[BLOCK_SIZE - 1 := 0x31];
  }

  /** In between the magic number is intact and the checksum of the mixed block decides. */
  lemma {:induction false} TearDecidedBySum(e: Logged, c: nat, next: Logged, w: seq<byte>)
    requires 4 <= c < BLOCK_SIZE && w == Encode(e)[..c] + Encode(next)[..BLOCK_SIZE - c]
    ensures BlockOk(w) <==> FieldAt(w, 4, 8) == Checksum(BASIS, w[8..])
  {
    hide Checksum;
    assert w[0..0 + 4] == ToLE(MAGIC, 4);
    FieldWidths();
    RoundTrip(w, 0, MAGIC, 4);
  }

  lemma {:induction false} EncodeConcat(log: seq<Logged>, ops: seq<Logged>)
    ensures EncodeLog(log + ops) == EncodeLog(log) + EncodeLog(ops)
  {
    hide Encode;
    if ops == [] {
      assert log + ops == log;
    } else {
      var n := |ops| - 1;
      assert (log + ops)[..|log + ops| - 1] == log + ops[..n];
      EncodeConcat(log, ops[..n]);
    }
  }

  lemma {:induction false} FirstWindow(e: Logged, c: nat, ops: seq<Logged>)
    requires c < BLOCK_SIZE && ops != []
    ensures Window(Encode(e)[..c], EncodeLog(ops)) == Encode(e)[..c] + Encode(ops[0])[..BLOCK_SIZE - c]
  {
    hide Encode;
    LogPrefix(ops, 0);
    assert EncodeLog(ops)[..BLOCK_SIZE - c] == EncodeLog(ops)[0..BLOCK_SIZE][..BLOCK_SIZE - c];
  }

  /** Operations appended to a log whose last block was torn after c bytes: all of them count when nothing was torn,
      none when one to three bytes are left or a single one is missing, and otherwise a checksum over the mixed block
      decides. */
  lemma {:induction false} AppendedOps(log: seq<Logged>, e: Logged, c: nat, ops: seq<Logged>)
    requires AllSized(log) && AllSized(ops) && ops != [] && c < BLOCK_SIZE
    ensures var got := Recovery(EncodeLog(log) + (Encode(e)[..c] + EncodeLog(ops)), 0, EMPTY);
            var w := Encode(e)[..c] + Encode(ops[0])[..BLOCK_SIZE - c];
            if c == 0 then got == Replay(log + ops)
            else if c < 4 || c == BLOCK_SIZE - 1 || FieldAt(w, 4, 8) != Checksum(BASIS, w[8..]) then
              got == Replay(log)
            else got == Recovery(EncodeLog(ops), BLOCK_SIZE - c, ApplyBlock(w, Replay(log)))
  {
    hide Encode, EncodeLog, BlockOk, Checksum, Recovery, Replay, ApplyBlock, FieldAt, Window;
    var tail, more := Encode(e)[..c], EncodeLog(ops);
    var w := Encode(e)[..c] + Encode(ops[0])[..BLOCK_SIZE - c];
    if c == 0 {
      var file := EncodeLog(log) + (tail + more);
      EncodeConcat(log, ops);
      assert file == EncodeLog(log + ops) && file[..BLOCK_SIZE * |log + ops|] == file;
      StopsAtBadBlock(file, log + ops);
    } else {
      AppendBehindTear(log, tail, more);
      FirstWindow(e, c, ops);
      if c < 4 {
        ShortTearIsBad(e, c, ops[0], w);
      } else {
        TearDecidedBySum(e, c, ops[0], w);
        if c == BLOCK_SIZE - 1 {
          LongTearIsBad(e, ops[0], w);
        }
      }
    }
  }

  // ---- The store ----

  /** The file starts with the log, and the block behind it is missing, incomplete or bad. */
  ghost predicate OpensAs(file: seq<byte>, log: seq<Logged>) {
    && AllSized(log) && BLOCK_SIZE * |log| <= |file| && file[..BLOCK_SIZE * |log|] == EncodeLog(log)
    && (BLOCK_SIZE * (|log| + 1) <= |file| ==> !BlockOk(file[BLOCK_SIZE * |log|..BLOCK_SIZE * (|log| + 1)]))
  }

  class Store {
    var file: seq<byte>
    var index: map<nat, nat>
    var seqNum: nat
    ghost var log: seq<Logged>

    /** Index and counter are what the operations amount to. */
    ghost predicate Valid()
      reads this
    {
      AllSized(log) && State(index, seqNum) == Replay(log)
    }

    /** The file holds exactly the operations. */
    ghost predicate Intact()
      reads this
    {
      file == EncodeLog(log)
    }

    /** Opening any file: index and counter are recovered from it. */
    constructor (file: seq<byte>, ghost log: seq<Logged>)
      ensures this.file == file && this.log == log && State(index, seqNum) == Recovery(file, 0, EMPTY)
      ensures OpensAs(file, log) ==> Valid()
      ensures AllSized(log) && file == EncodeLog(log) ==> Valid() && Intact()
    {
      var i, n := Recover(file);
      this.file, this.log, index, seqNum := file, log, i, n;
      new;
      if AllSized(log) && file == EncodeLog(log) {
        assert file[..BLOCK_SIZE * |log|] == file;
        assert OpensAs(file, log);
      }
      if OpensAs(file, log) {
        StopsAtBadBlock(file, log);
      }
    }

    method PutKey(key: nat, value: nat)
      requires Sized(Logged(seqNum + 1, Put(key, value)))
      modifies this
      ensures index == old(index)[key := value] && seqNum == old(seqNum) + 1
      ensures log == old(log) + [Logged(seqNum, Put(key, value))]
      ensures file == old(file) + Encode(Logged(seqNum, Put(key, value)))
      ensures old(Valid()) ==> Valid()
      ensures old(Intact()) ==> Intact()
    {
      Append(Body(seqNum + 1, 1, key, value), Logged(seqNum + 1, Put(key, value)));
      index := index[key := value];
    }

    method DeleteKey(key: nat)
      requires Sized(Logged(seqNum + 1, Del(key)))
      modifies this
      ensures index == old(index) - {key} && seqNum == old(seqNum) + 1
      ensures log == old(log) + [Logged(seqNum, Del(key))]
      ensures file == old(file) + Encode(Logged(seqNum, Del(key)))
      ensures old(Valid()) ==> Valid()
      ensures old(Intact()) ==> Intact()
    {
      Append(Body(seqNum + 1, 2, key, 0), Logged(seqNum + 1, Del(key)));
      index := index - {key};
    }

    method Append(body: seq<byte>, ghost e: Logged)
      requires |body| == BLOCK_SIZE - 8 && body == BodyOf(e) && e.seqNum == seqNum + 1
      modifies this`file, this`seqNum, this`log
      ensures file == old(file) + Encode(e) && log == old(log) + [e] && seqNum == old(seqNum) + 1
      ensures log[..|log| - 1] == old(log)
    {
      var sum := ComputeChecksum(body);
      file := file + (ToLE(MAGIC, 4) + ToLE(sum, 4) + body);
      seqNum := seqNum + 1;
      log := log + [e];
      assert log[..|log| - 1] == old(log);
    }

    method Get(key: nat) returns (found: bool, value: nat)
      ensures found <==> key in index
      ensures found ==> value == index[key]
      ensures Valid() ==> (found <==> key in Replay(log).index) && (found ==> value == Replay(log).index[key])
    {
      if key in index {
        return true, index[key];
      }
      return false, 0;
    }
  }
}
