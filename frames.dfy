/** Whole `_send_byte` calls, START…STOP frames of them, and the fixed
    script of frames that `store` runs. */
module Frames {
  import opened Bus
  import opened Waveform

  /** The arguments of one `_send_byte(data, ack, bits, flag)` call. */
  datatype Send = Send(data: int, ack: int, bits: int, flag: bool)

  /** One step of a bit-banged session. */
  datatype Op = Start | Stop | Byte(send: Send) | Delay

  /** What `_send_byte` does after the bit loop when it does not wait for
      an acknowledge: SDA low, then SCL high. */
  const NoAckTail: seq<Event> := [SdaLow, SclHigh]

  /** SCL high and SDA low with a clock pulse pending: where `NoAckTail`
      leaves a ready bus. */
  const Held := Wires(true, false, Out, true)

  /** All of `_send_byte` when its first SDA read (if any) is read number c. */
  function ByteWave(chip: nat -> Bit, c: nat, s: Send): seq<Event>
  {
    Cells(Bits(LowByte(s.data)), Times(s.bits), 0)
      + (if s.flag then AckWave(chip, c, s.ack) else NoAckTail)
  }

  /** How many times `_send_byte` reads SDA. */
  function ByteReads(chip: nat -> Bit, c: nat, s: Send): nat
  {
    if s.flag then PollReads(chip, c, s.ack, 0) + 1 else 0
  }

  /** What `_send_byte` returns. */
  function ByteResult(chip: nat -> Bit, c: nat, s: Send): int
  {
    if s.flag then AckValue(chip, c, s.ack) else s.ack
  }

  /** The bit cells of `_send_byte` followed by its acknowledge phase, or
      by SDA low and SCL high, make up the whole call. */
  lemma ByteAssemble(chip: nat -> Bit, c: nat, s: Send, t0: seq<Event>, t1: seq<Event>, t2: seq<Event>)
    requires t1 == t0 + Cells(Bits(LowByte(s.data)), Times(s.bits), 0)
    requires s.flag ==> t2 == t1 + AckWave(chip, c, s.ack)
    requires !s.flag ==> t2 == t1 + [SdaLow] + [SclHigh]
    ensures t2 == t0 + ByteWave(chip, c, s)
  {
    var cells := Cells(Bits(LowByte(s.data)), Times(s.bits), 0);
    var tail := if s.flag then AckWave(chip, c, s.ack) else NoAckTail;
    assert ByteWave(chip, c, s) == cells + tail;
    if !s.flag {
      assert t2 == t1 + NoAckTail;
    }
    Assoc(t0, cells, tail);
  }

  /** What a receiver decodes from one `_send_byte`: the low `bits` bits
      of `data & 0xFF`, most significant first, then an acknowledge slot
      when the call waits for one. */
  function ByteSyms(s: Send): seq<Sym>
  {
    MsbSyms(LowByte(s.data), Times(s.bits), 0) + (if s.flag then [AckSlot] else [])
  }

  /** From a ready bus, `_send_byte` puts exactly its bits (and the
      acknowledge slot) on the bus, writes SDA only while SCL is low (so
      that no START or STOP occurs inside a byte), and ends with SCL low if it waited for an acknowledge, or with SCL high
      and SDA low if it did not. */
  lemma ByteOnBus(w: Wires, chip: nat -> Bit, c: nat, s: Send)
    requires Ready(w)
    ensures Symbols(w, ByteWave(chip, c, s)) == ByteSyms(s)
    ensures s.flag ==> Ready(Replay(w, ByteWave(chip, c, s)))
    ensures !s.flag ==> Replay(w, ByteWave(chip, c, s)) == Held
    ensures SdaOnlyWhileSclLow(w, ByteWave(chip, c, s))
    ensures StartC !in Symbols(w, ByteWave(chip, c, s)) && StopC !in Symbols(w, ByteWave(chip, c, s))
  {
    var cells := Cells(Bits(LowByte(s.data)), Times(s.bits), 0);
    CellsOnBus(w, LowByte(s.data), Times(s.bits), 0);
    var u := Replay(w, cells);
    if s.flag {
      AckOnBus(u, chip, c, s.ack);
      AckQuiet(u, chip, c, s.ack);
    } else {
      assert SdaOnlyWhileSclLow(u, NoAckTail);
      assert Run(u, NoAckTail) == Outcome(Held, []);
    }
    var tail := if s.flag then AckWave(chip, c, s.ack) else NoAckTail;
    Compose(w, cells, tail);
    SdaOnlyCompose(w, cells, tail);
    QuietWhileSclLow(w, ByteWave(chip, c, s));
  }

  /** `_send_byte` raises SCL once per bit, plus once more: the acknowledge
      clock, or the final raise of SCL when it does not wait. */
  lemma BytePulses(chip: nat -> Bit, c: nat, s: Send)
    ensures Count(ByteWave(chip, c, s), SclHigh) == Times(s.bits) + 1
  {
    var cells := Cells(Bits(LowByte(s.data)), Times(s.bits), 0);
    CellsPulses(LowByte(s.data), Times(s.bits), 0);
    if s.flag {
      AckPulses(chip, c, s.ack);
      CountAppend(cells, AckWave(chip, c, s.ack), SclHigh);
    } else {
      CountAppend(cells, NoAckTail, SclHigh);
    }
  }

  // ---------------------------------------------------------------------
  // Sessions: sequences of operations, threading the count of SDA reads

  function OpWave(chip: nat -> Bit, c: nat, op: Op): seq<Event>
  {
    match op
    case Start => StartWave
    case Stop => StopWave
    case Byte(s) => ByteWave(chip, c, s)
    case Delay => [Sleep(StoreDelay)]
  }

  function OpReads(chip: nat -> Bit, c: nat, op: Op): nat
  {
    if op.Byte? then ByteReads(chip, c, op.send) else 0
  }

  /** How `_send_byte` and the signal helpers see a session: each
      operation's events and SDA reads, given how many reads came before. */
  function OpWaves(chip: nat -> Bit): (nat, Op) -> seq<Event>
  {
    (k: nat, op: Op) => OpWave(chip, k, op)
  }

  function OpReadCounts(chip: nat -> Bit): (nat, Op) -> nat
  {
    (k: nat, op: Op) => OpReads(chip, k, op)
  }

  /** Applying the session's step functions. */
  lemma OpAt(chip: nat -> Bit, k: nat, op: Op)
    ensures OpWaves(chip)(k, op) == OpWave(chip, k, op)
    ensures OpReadCounts(chip)(k, op) == OpReads(chip, k, op)
  {
  }

  /** The events of a run of steps whose first SDA read is read number c. */
  function Thread<T>(wave: (nat, T) -> seq<Event>, count: (nat, T) -> nat, c: nat, xs: seq<T>): seq<Event>
    decreases |xs|
  {
    if xs == [] then [] else wave(c, xs[0]) + Thread(wave, count, c+ count(c, xs[0]), xs[1..])
  }

  /** How many SDA reads a run of steps makes. */
  function ThreadReads<T>(count: (nat, T) -> nat, c: nat, xs: seq<T>): nat
    decreases |xs|
  {
    if xs == [] then 0 else count(c, xs[0]) + ThreadReads(count, c+ count(c, xs[0]), xs[1..])
  }

  /** The events of a session of operations. */
  function OpsWave(chip: nat -> Bit, c: nat, ops: seq<Op>): seq<Event>
  {
    Thread(OpWaves(chip), OpReadCounts(chip), c, ops)
  }

  /** How many SDA reads a session makes. */
  function OpsReads(chip: nat -> Bit, c: nat, ops: seq<Op>): nat
  {
    ThreadReads(OpReadCounts(chip), c, ops)
  }

  /** Running two runs of steps back to back is running their concatenation. */
  lemma {:induction false} ThreadAppend<T>(wave: (nat, T) -> seq<Event>, count: (nat, T) -> nat, c: nat, a: seq<T>, b: seq<T>)
    ensures Thread(wave, count, c, a + b)
         == Thread(wave, count, c, a) + Thread(wave, count, c + ThreadReads(count, c, a), b)
    decreases |a|
  {
    if a == [] {
      assert a + b == b;
    } else {
      assert (a + b)[0] == a[0] && (a + b)[1..] == a[1..] + b;
      ThreadAppend(wave, count, c+ count(c, a[0]), a[1..], b);
    }
  }

  /** The reads of two runs of steps back to back add up. */
  lemma {:induction false} ThreadReadsAppend<T>(count: (nat, T) -> nat, c: nat, a: seq<T>, b: seq<T>)
    ensures ThreadReads(count, c, a + b)
         == ThreadReads(count, c, a) + ThreadReads(count, c + ThreadReads(count, c, a), b)
    decreases |a|
  {
    if a == [] {
      assert a + b == b;
    } else {
      assert (a + b)[0] == a[0] && (a + b)[1..] == a[1..] + b;
      ThreadReadsAppend(count, c+ count(c, a[0]), a[1..], b);
    }
  }

  lemma ThreadOne<T>(wave: (nat, T) -> seq<Event>, count: (nat, T) -> nat, c: nat, x: T)
    ensures Thread(wave, count, c, [x]) == wave(c, x)
    ensures ThreadReads(count, c, [x]) == count(c, x)
  {
    assert [x][0] == x && [x][1..] == [];
  }

  /** A run of steps between two steps that read nothing. */
  lemma ThreadBracket<T>(wave: (nat, T) -> seq<Event>, count: (nat, T) -> nat,
                         c: nat, x: T, mid: seq<T>, y: T, n: nat)
    requires count(c, x) == 0 && n == c + ThreadReads(count, c, mid) && count(n, y) == 0
    ensures Thread(wave, count, c, [x] + mid + [y]) == wave(c, x) + Thread(wave, count, c, mid) + wave(n, y)
    ensures ThreadReads(count, c, [x] + mid + [y]) == ThreadReads(count, c, mid)
  {
    var xs := [x] + mid + [y];
    assert xs[0] == x && xs[1..] == mid + [y];
    ThreadAppend(wave, count, c, mid, [y]);
    ThreadReadsAppend(count, c, mid, [y]);
    ThreadOne(wave, count, n, y);
    Assoc(wave(c, x), Thread(wave, count, c, mid), wave(n, y));
  }

  /** What remains of a session after its next operation has run: if t
      followed by the operations from k on makes the goal, so does t with
      operation k appended, followed by the operations from k + 1 on. */
  lemma OpsPeel(chip: nat -> Bit, ops: seq<Op>, k: nat, goal: seq<Event>, total: nat,
                t: seq<Event>, r: nat, after: seq<Event>, n: nat)
    requires k < |ops|
    requires t + OpsWave(chip, r, ops[k..]) == goal && r + OpsReads(chip, r, ops[k..]) == total
    requires after == t + OpWave(chip, r, ops[k]) && n == r + OpReads(chip, r, ops[k])
    ensures after + OpsWave(chip, n, ops[k + 1..]) == goal && n + OpsReads(chip, n, ops[k + 1..]) == total
  {
    OpAt(chip, r, ops[k]);
    ThreadPeel(OpWaves(chip), OpReadCounts(chip), ops, k, goal, total, t, r, after, n);
  }

  /** OpsPeel, for any run of steps. */
  lemma ThreadPeel<T>(wave: (nat, T) -> seq<Event>, count: (nat, T) -> nat, xs: seq<T>, k: nat,
                      goal: seq<Event>, total: nat, t: seq<Event>, r: nat, after: seq<Event>, n: nat)
    requires k < |xs|
    requires t + Thread(wave, count, r, xs[k..]) == goal && r + ThreadReads(count, r, xs[k..]) == total
    requires after == t + wave(r, xs[k]) && n == r + count(r, xs[k])
    ensures after + Thread(wave, count, n, xs[k + 1..]) == goal && n + ThreadReads(count, n, xs[k + 1..]) == total
  {
    assert xs[k..][0] == xs[k] && xs[k..][1..] == xs[k + 1..];
    Assoc(t, wave(r, xs[k]), Thread(wave, count, n, xs[k + 1..]));
  }

  /** The bus state and the read count after a run of steps, one step in. */
  lemma ThreadStep<T>(wave: (nat, T) -> seq<Event>, count: (nat, T) -> nat, w: Wires, c: nat, xs: seq<T>)
    requires xs != []
    ensures Replay(w, Thread(wave, count, c, xs))
         == Replay(Replay(w, wave(c, xs[0])), Thread(wave, count, c + count(c, xs[0]), xs[1..]))
    ensures c + ThreadReads(count, c, xs)
         == c + count(c, xs[0]) + ThreadReads(count, c + count(c, xs[0]), xs[1..])
  {
    Compose(w, wave(c, xs[0]), Thread(wave, count, c + count(c, xs[0]), xs[1..]));
  }

  /** Every `_send_byte` of a run of steps begins with SCL low. */
  predicate SendsStartLow<T>(wave: (nat, T) -> seq<Event>, count: (nat, T) -> nat, isSend: T -> bool,
                              w: Wires, c: nat, xs: seq<T>)
    decreases |xs|
  {
    xs == [] ||
    ((isSend(xs[0]) ==> !w.scl) &&
     SendsStartLow(wave, count, isSend, Replay(w, wave(c, xs[0])), c+ count(c, xs[0]), xs[1..]))
  }

  /** A single step that is not a send holds no send to check. */
  lemma NoSendOne<T>(wave: (nat, T) -> seq<Event>, count: (nat, T) -> nat, isSend: T -> bool,
                     w: Wires, c: nat, x: T)
    requires !isSend(x)
    ensures SendsStartLow(wave, count, isSend, w, c, [x])
  {
    assert [x][0] == x && [x][1..] == [];
  }

  /** Two runs of steps each of whose sends begins with SCL low make one;
      u and n are the bus state and the read count where the first run ends. */
  lemma {:induction false} SendsStartLowAppend<T>(wave: (nat, T) -> seq<Event>, count: (nat, T) -> nat,
                                                  isSend: T -> bool, w: Wires, c: nat, a: seq<T>, b: seq<T>,
                                                  u: Wires, n: nat)
    requires SendsStartLow(wave, count, isSend, w, c, a)
    requires u == Replay(w, Thread(wave, count, c, a)) && n == c + ThreadReads(count, c, a)
    requires SendsStartLow(wave, count, isSend, u, n, b)
    ensures SendsStartLow(wave, count, isSend, w, c, a + b)
    decreases |a|
  {
    if a == [] {
      assert a + b == b;
      assert Thread(wave, count, c, a) == [] && Run(w, []) == Outcome(w, []);
    } else {
      var x, rest := a[0], a[1..];
      var c', w' := c + count(c, x), Replay(w, wave(c, x));
      assert (a + b)[0] == x && (a + b)[1..] == rest + b;
      assert (isSend(x) ==> !w.scl) && SendsStartLow(wave, count, isSend, w', c', rest);
      ThreadStep(wave, count, w, c, a);
      SendsStartLowAppend(wave, count, isSend, w', c', rest, b, u, n);
    }
  }

  function IsByte(op: Op): bool
  {
    op.Byte?
  }

  /** Every `_send_byte` of the session begins with SCL low. */
  predicate BytesStartLow(w: Wires, chip: nat -> Bit, c: nat, ops: seq<Op>)
  {
    SendsStartLow(OpWaves(chip), OpReadCounts(chip), IsByte, w, c, ops)
  }

  // ---------------------------------------------------------------------
  // Frames: START, bytes, STOP

  /** Only the last byte of a frame may skip the acknowledge (the no-ack
      tail leaves SCL high, so a further byte would write SDA under it). */
  predicate WellFramed(bytes: seq<Send>)
  {
    forall k :: 0 <= k < |bytes| - 1 ==> bytes[k].flag
  }

  function ByteOps(bytes: seq<Send>): (ops: seq<Op>)
    ensures |ops| == |bytes|
    ensures forall k :: 0 <= k < |bytes| ==> ops[k] == Byte(bytes[k])
    decreases |bytes|
  {
    if bytes == [] then [] else [Byte(bytes[0])] + ByteOps(bytes[1..])
  }

  /** START, one `_send_byte` per element, STOP. */
  function FrameOps(bytes: seq<Send>): seq<Op>
  {
    [Start] + ByteOps(bytes) + [Stop]
  }

  function BytesSyms(bytes: seq<Send>): seq<Sym>
    decreases |bytes|
  {
    if bytes == [] then [] else ByteSyms(bytes[0]) + BytesSyms(bytes[1..])
  }

  /** What a receiver decodes from a frame. */
  function Framed(body: seq<Sym>): seq<Sym>
  {
    [StartC] + body + [StopC]
  }

  /** Peeling the first byte off a session. */
  lemma ByteFirst(w: Wires, chip: nat -> Bit, c: nat, s: Send, rest: seq<Op>)
    ensures OpsWave(chip, c, [Byte(s)] + rest)
         == ByteWave(chip, c, s) + OpsWave(chip, c + ByteReads(chip, c, s), rest)
    ensures OpsReads(chip, c, [Byte(s)] + rest)
         == ByteReads(chip, c, s) + OpsReads(chip, c + ByteReads(chip, c, s), rest)
    ensures BytesStartLow(w, chip, c, [Byte(s)] + rest)
        <== !w.scl && BytesStartLow(Replay(w, ByteWave(chip, c, s)), chip, c + ByteReads(chip, c, s), rest)
  {
    var ops := [Byte(s)] + rest;
    var W, R := OpWaves(chip), OpReadCounts(chip);
    assert ops[0] == Byte(s) && ops[1..] == rest;
    assert W(c, Byte(s)) == ByteWave(chip, c, s) && R(c, Byte(s)) == ByteReads(chip, c, s);
  }

  /** The remaining bytes of a well-framed frame are well framed. */
  lemma WellFramedTail(bytes: seq<Send>)
    requires |bytes| > 1 && WellFramed(bytes)
    ensures bytes[0].flag && WellFramed(bytes[1..])
    ensures bytes[1..][|bytes[1..]| - 1] == bytes[|bytes| - 1]
  {
    forall k | 0 <= k < |bytes[1..]| - 1 ensures bytes[1..][k].flag {
      assert bytes[1..][k] == bytes[k + 1];
    }
  }

  /** The bytes of a well-framed frame, sent from a ready bus, put exactly
      their bits on the bus; the bus ends ready, or held if the last byte
      skipped the acknowledge. */
  lemma {:induction false} BytesOnBus(w: Wires, chip: nat -> Bit, c: nat, bytes: seq<Send>)
    requires Ready(w) && WellFramed(bytes)
    ensures Symbols(w, OpsWave(chip, c, ByteOps(bytes))) == BytesSyms(bytes)
    ensures var e := Replay(w, OpsWave(chip, c, ByteOps(bytes)));
      if bytes != [] && !bytes[|bytes| - 1].flag then e == Held else Ready(e)
    decreases |bytes|
  {
    if bytes == [] {
      assert ByteOps(bytes) == [];
      assert Run(w, OpsWave(chip, c, [])) == Outcome(w, []);
    } else {
      var s := bytes[0];
      var bw := ByteWave(chip, c, s);
      var c' := c + ByteReads(chip, c, s);
      var rest := ByteOps(bytes[1..]);
      assert ByteOps(bytes) == [Byte(s)] + rest;
      ByteOnBus(w, chip, c, s);
      ByteFirst(w, chip, c, s, rest);
      ComposeAt(w, bw, OpsWave(chip, c', rest), OpsWave(chip, c, ByteOps(bytes)));
      if |bytes| > 1 {
        WellFramedTail(bytes);
        BytesOnBus(Replay(w, bw), chip, c', bytes[1..]);
      } else {
        assert bytes[1..] == [] && rest == [];
        assert OpsWave(chip, c', []) == [];
        assert Run(Replay(w, bw), []) == Outcome(Replay(w, bw), []);
      }
    }
  }

  /** Every `_send_byte` of a well-framed frame sent from a ready bus
      begins with SCL low. */
  lemma {:induction false} BytesLowOnBus(w: Wires, chip: nat -> Bit, c: nat, bytes: seq<Send>)
    requires Ready(w) && WellFramed(bytes)
    ensures BytesStartLow(w, chip, c, ByteOps(bytes))
    decreases |bytes|
  {
    if bytes == [] {
      assert ByteOps(bytes) == [];
    } else {
      var s := bytes[0];
      var c' := c + ByteReads(chip, c, s);
      var rest := ByteOps(bytes[1..]);
      assert ByteOps(bytes) == [Byte(s)] + rest;
      ByteOnBus(w, chip, c, s);
      if |bytes| > 1 {
        WellFramedTail(bytes);
        BytesLowOnBus(Replay(w, ByteWave(chip, c, s)), chip, c', bytes[1..]);
      } else {
        assert rest == [];
      }
      ByteFirst(w, chip, c, s, rest);
    }
  }

  /** A frame is StartWave, its bytes, StopWave; only the bytes read SDA. */
  lemma FrameSplit(chip: nat -> Bit, c: nat, bytes: seq<Send>)
    ensures OpsWave(chip, c, FrameOps(bytes))
         == StartWave + OpsWave(chip, c, ByteOps(bytes)) + StopWave
    ensures OpsReads(chip, c, FrameOps(bytes)) == OpsReads(chip, c, ByteOps(bytes))
  {
    var W, R := OpWaves(chip), OpReadCounts(chip);
    var mid := ByteOps(bytes);
    var n := c + OpsReads(chip, c, mid);
    OpAt(chip, c, Start);
    OpAt(chip, n, Stop);
    ThreadBracket(W, R, c, Start, mid, Stop, n);
  }

  /** A frame sent while SDA is high puts exactly a START, its bytes' bits
      and a STOP on the bus, and leaves the bus idle. */
  lemma FrameOnBus(w: Wires, chip: nat -> Bit, c: nat, bytes: seq<Send>)
    requires w.sda && w.sdaDir == Out && WellFramed(bytes)
    ensures Symbols(w, OpsWave(chip, c, FrameOps(bytes))) == Framed(BytesSyms(bytes))
    ensures Replay(w, OpsWave(chip, c, FrameOps(bytes))) == Idle
  {
    var mw := OpsWave(chip, c, ByteOps(bytes));
    FrameSplit(chip, c, bytes);
    StartOnBus(w);
    BytesOnBus(Started, chip, c, bytes);
    var e := Replay(Started, mw);
    StopOnBus(e);
    assert !(e.scl && e.sda) by {
      if bytes != [] && !bytes[|bytes| - 1].flag { assert e == Held; } else { assert Ready(e); }
    }
    Compose3(w, StartWave, mw, StopWave);
    assert Symbols(w, StartWave) == [StartC];
    assert Symbols(e, StopWave) == [StopC];
  }

  /** Every `_send_byte` of a frame begins with SCL low. */
  lemma FrameStartsLow(w: Wires, chip: nat -> Bit, c: nat, bytes: seq<Send>)
    requires w.sdaDir == Out && WellFramed(bytes)
    ensures BytesStartLow(w, chip, c, FrameOps(bytes))
  {
    var W, R := OpWaves(chip), OpReadCounts(chip);
    var mid := ByteOps(bytes);
    assert FrameOps(bytes) == [Start] + mid + [Stop];
    HeadStartsLow(w, chip, c, bytes);
    var u := Replay(w, Thread(W, R, c, [Start] + mid));
    var c' := c + ThreadReads(R, c, [Start] + mid);
    NoSendOne(W, R, IsByte, u, c', Stop);
    SendsStartLowAppend(W, R, IsByte, w, c, [Start] + mid, [Stop], u, c');
  }

  /** FrameStartsLow, up to the STOP. */
  lemma HeadStartsLow(w: Wires, chip: nat -> Bit, c: nat, bytes: seq<Send>)
    requires w.sdaDir == Out && WellFramed(bytes)
    ensures SendsStartLow(OpWaves(chip), OpReadCounts(chip), IsByte, w, c, [Start] + ByteOps(bytes))
  {
    var W, R := OpWaves(chip), OpReadCounts(chip);
    ThreadOne(W, R, c, Start);
    assert W(c, Start) == StartWave && R(c, Start) == 0;
    assert Replay(w, Thread(W, R, c, [Start])) == Started by {
      StartOnBus(w);
    }
    assert SendsStartLow(W, R, IsByte, Started, c, ByteOps(bytes)) by {
      BytesLowOnBus(Started, chip, c, bytes);
    }
    NoSendOne(W, R, IsByte, w, c, Start);
    SendsStartLowAppend(W, R, IsByte, w, c, [Start], ByteOps(bytes), Started, c);
  }
}
