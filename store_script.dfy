/** The fixed sequence of frames that `store` bit-bangs to make the GP8403
    save its current output to non-volatile memory. */
module StoreScript {
  import opened Bus
  import opened Waveform
  import opened Frames

  // The store timing constants of the driver.
  const TimingHead := 0x02
  const TimingAddr := 0x10
  const TimingCmd1 := 0x03
  const TimingCmd2 := 0x00

  /** `_send_byte(HEAD, 0, 3, False)`: three bits and no acknowledge. */
  const HeadSend := Send(TimingHead, 0, 3, false)

  /** `_send_byte(data, ack)` with the default 8 bits and acknowledge wait. */
  function Acked(data: int, ack: int): Send
  {
    Send(data, ack, 8, true)
  }

  /** A part of the store session: a frame, or the long pause. */
  datatype Part = Frame(bytes: seq<Send>) | Pause

  /** The five frames and the pause, in the order `store` sends them. */
  function StoreParts(addr: int): seq<Part>
  {
    [ Frame([HeadSend]),
      Frame([Acked(TimingAddr, 0), Acked(TimingCmd1, 0)]),
      Frame([Acked(addr * 2, 1),
             Acked(TimingCmd2, 1), Acked(TimingCmd2, 1), Acked(TimingCmd2, 1), Acked(TimingCmd2, 1),
             Acked(TimingCmd2, 1), Acked(TimingCmd2, 1), Acked(TimingCmd2, 1), Acked(TimingCmd2, 1)]),
      Pause,
      Frame([HeadSend]),
      Frame([Acked(TimingAddr, 0), Acked(TimingCmd2, 0)]) ]
  }

  function PartOps(p: Part): seq<Op>
  {
    match p
    case Frame(bytes) => FrameOps(bytes)
    case Pause => [Delay]
  }

  function PartsOps(parts: seq<Part>): seq<Op>
    decreases |parts|
  {
    if parts == [] then [] else PartOps(parts[0]) + PartsOps(parts[1..])
  }

  /** What a receiver decodes from one part: nothing from the pause. */
  function PartSyms(p: Part): seq<Sym>
  {
    if p.Frame? then Framed(BytesSyms(p.bytes)) else []
  }

  /** What a receiver decodes from the parts. */
  function PartsSyms(parts: seq<Part>): seq<Sym>
    decreases |parts|
  {
    if parts == [] then [] else PartSyms(parts[0]) + PartsSyms(parts[1..])
  }

  predicate PartsFramed(parts: seq<Part>)
  {
    forall k :: 0 <= k < |parts| && parts[k].Frame? ==> WellFramed(parts[k].bytes)
  }

  /** A bit-banged session on the pins, the k-th SDA read seeing chip(k)
      from read number c on: both pins made outputs, the parts, and the
      hand-back of the pins to the I2C peripheral. */
  function SessionTrace(chip: nat -> Bit, c: nat, parts: seq<Part>): seq<Event>
  {
    [SclDir(Out), SdaDir(Out)] + OpsWave(chip, c, PartsOps(parts)) + [RestoreI2C]
  }

  /** The whole of `store` on the pins. */
  function StoreTrace(chip: nat -> Bit, c: nat, addr: int): seq<Event>
  {
    SessionTrace(chip, c, StoreParts(addr))
  }

  /** Taking the pins, running the session and handing the pins back make
      up the whole trace. */
  lemma SessionAssemble(chip: nat -> Bit, c: nat, parts: seq<Part>,
                        t0: seq<Event>, pre: seq<Event>, mid: seq<Event>, t3: seq<Event>)
    requires pre == t0 + [SclDir(Out)] + [SdaDir(Out)]
    requires mid == pre + OpsWave(chip, c, PartsOps(parts))
    requires t3 == mid + [RestoreI2C]
    ensures t3 == t0 + SessionTrace(chip, c, parts)
  {
    var w := OpsWave(chip, c, PartsOps(parts));
    assert pre == t0 + [SclDir(Out), SdaDir(Out)];
    Assoc(t0, [SclDir(Out), SdaDir(Out)], w);
    Assoc(t0, [SclDir(Out), SdaDir(Out)] + w, [RestoreI2C]);
  }

  /** How many SDA reads `store` makes. */
  function StoreReads(chip: nat -> Bit, c: nat, addr: int): nat
  {
    OpsReads(chip, c, PartsOps(StoreParts(addr)))
  }

  lemma {:induction false} PartsOpsAppend(a: seq<Part>, b: seq<Part>)
    ensures PartsOps(a + b) == PartsOps(a) + PartsOps(b)
    decreases |a|
  {
    if a == [] {
      assert a + b == b;
    } else {
      assert (a + b)[0] == a[0] && (a + b)[1..] == a[1..] + b;
      PartsOpsAppend(a[1..], b);
    }
  }

  lemma PartsOpsOne(p: Part)
    ensures PartsOps([p]) == PartOps(p)
  {
    assert [p][0] == p && [p][1..] == [];
  }

  /** The operations of `store`, one by one, frame by frame. */
  lemma StoreOps(addr: int)
    ensures PartsOps(StoreParts(addr))
         == [Start, Byte(HeadSend), Stop]
          + [Start, Byte(Acked(TimingAddr, 0)), Byte(Acked(TimingCmd1, 0)), Stop]
          + [Start, Byte(Acked(addr * 2, 1)),
             Byte(Acked(TimingCmd2, 1)), Byte(Acked(TimingCmd2, 1)), Byte(Acked(TimingCmd2, 1)),
             Byte(Acked(TimingCmd2, 1)), Byte(Acked(TimingCmd2, 1)), Byte(Acked(TimingCmd2, 1)),
             Byte(Acked(TimingCmd2, 1)), Byte(Acked(TimingCmd2, 1)), Stop]
          + [Delay]
          + [Start, Byte(HeadSend), Stop]
          + [Start, Byte(Acked(TimingAddr, 0)), Byte(Acked(TimingCmd2, 0)), Stop]
  {
    var p := StoreParts(addr);
    SixOps(p[0], p[1], p[2], p[3], p[4], p[5]);
    assert p == [p[0], p[1], p[2], p[3], p[4], p[5]];
    OneByteFrame(HeadSend);
    TwoByteFrame(Acked(TimingAddr, 0), Acked(TimingCmd1, 0));
    StoreFrameOps(Acked(addr * 2, 1), Acked(TimingCmd2, 1));
    TwoByteFrame(Acked(TimingAddr, 0), Acked(TimingCmd2, 0));
  }

  /** `store` makes 26 calls. */
  lemma StoreCalls(addr: int)
    ensures |PartsOps(StoreParts(addr))| == 26
  {
    StoreOps(addr);
  }

  /** Of the calls of `store`, five are `_start_signal`, five are
      `_stop_signal` and one is the long sleep; the other fifteen are
      `_send_byte`. */
  lemma StoreCallKinds(addr: int)
    ensures Count(PartsOps(StoreParts(addr)), Start) == 5
    ensures Count(PartsOps(StoreParts(addr)), Stop) == 5
    ensures Count(PartsOps(StoreParts(addr)), Delay) == 1
  {
    var p := StoreParts(addr);
    assert p == [p[0], p[1], p[2], p[3], p[4], p[5]];
    forall x | x == Start || x == Stop || x == Delay
      ensures Count(PartsOps(p), x) == if x == Delay then 1 else 5
    {
      SixCount(p[0], p[1], p[2], p[3], p[4], p[5], x);
      PartCount(p[0], x);
      PartCount(p[1], x);
      PartCount(p[2], x);
      PartCount(p[3], x);
      PartCount(p[4], x);
      PartCount(p[5], x);
    }
  }

  /** A frame holds one START and one STOP call; only the pause sleeps. */
  lemma PartCount(p: Part, x: Op)
    requires x == Start || x == Stop || x == Delay
    ensures Count(PartOps(p), x) == if p.Frame? <==> x != Delay then 1 else 0
  {
    if p.Frame? {
      CountAbsent(ByteOps(p.bytes), x);
      CountAppend([Start], ByteOps(p.bytes), x);
      CountAppend([Start] + ByteOps(p.bytes), [Stop], x);
    }
  }

  lemma {:induction false} CountAbsent(ops: seq<Op>, x: Op)
    requires !x.Byte?
    requires forall k :: 0 <= k < |ops| ==> ops[k].Byte?
    ensures Count(ops, x) == 0
    decreases |ops|
  {
    if ops != [] {
      CountAbsent(ops[1..], x);
    }
  }

  /** Counting calls of one kind over a six-part session, part by part. */
  lemma SixCount(p0: Part, p1: Part, p2: Part, p3: Part, p4: Part, p5: Part, x: Op)
    requires x == Start || x == Stop || x == Delay
    ensures Count(PartsOps([p0, p1, p2, p3, p4, p5]), x)
         == Count(PartOps(p0), x) + Count(PartOps(p1), x) + Count(PartOps(p2), x)
          + Count(PartOps(p3), x) + Count(PartOps(p4), x) + Count(PartOps(p5), x)
  {
    SixOps(p0, p1, p2, p3, p4, p5);
    var a0, a1, a2, a3, a4, a5 := PartOps(p0), PartOps(p1), PartOps(p2), PartOps(p3), PartOps(p4), PartOps(p5);
    CountAppend(a0, a1, x);
    CountAppend(a0 + a1, a2, x);
    CountAppend(a0 + a1 + a2, a3, x);
    CountAppend(a0 + a1 + a2 + a3, a4, x);
    CountAppend(a0 + a1 + a2 + a3 + a4, a5, x);
  }

  /** PartsOps of a six-part session. */
  lemma SixOps(p0: Part, p1: Part, p2: Part, p3: Part, p4: Part, p5: Part)
    ensures PartsOps([p0, p1, p2, p3, p4, p5])
         == PartOps(p0) + PartOps(p1) + PartOps(p2) + PartOps(p3) + PartOps(p4) + PartOps(p5)
  {
    assert [p0, p1, p2, p3, p4, p5] == [p0] + [p1] + [p2] + [p3] + [p4] + [p5];
    PartsOpsAppend([p0], [p1]);
    PartsOpsAppend([p0] + [p1], [p2]);
    PartsOpsAppend([p0] + [p1] + [p2], [p3]);
    PartsOpsAppend([p0] + [p1] + [p2] + [p3], [p4]);
    PartsOpsAppend([p0] + [p1] + [p2] + [p3] + [p4], [p5]);
    PartsOpsOne(p0);
    PartsOpsOne(p1);
    PartsOpsOne(p2);
    PartsOpsOne(p3);
    PartsOpsOne(p4);
    PartsOpsOne(p5);
  }

  lemma OneByteFrame(a: Send)
    ensures FrameOps([a]) == [Start, Byte(a), Stop]
  {
    assert ByteOps([a]) == [Byte(a)];
  }

  lemma TwoByteFrame(a: Send, b: Send)
    ensures FrameOps([a, b]) == [Start, Byte(a), Byte(b), Stop]
  {
    assert ByteOps([a, b]) == [Byte(a), Byte(b)];
  }

  /** The third frame's shape: one byte, then eight copies of another. */
  lemma StoreFrameOps(a: Send, b: Send)
    ensures FrameOps([a, b, b, b, b, b, b, b, b])
         == [Start, Byte(a), Byte(b), Byte(b), Byte(b), Byte(b), Byte(b), Byte(b), Byte(b), Byte(b), Stop]
  {
    var xs := [a, b, b, b, b, b, b, b, b];
    var want := [Byte(a), Byte(b), Byte(b), Byte(b), Byte(b), Byte(b), Byte(b), Byte(b), Byte(b)];
    var ops := ByteOps(xs);
    forall k | 0 <= k < 9 ensures ops[k] == want[k] {
      assert ops[k] == Byte(xs[k]);
    }
    assert ops == want;
  }

  // ---------------------------------------------------------------------
  // The receiver's view, independently of the driver's operations

  /** Each byte's low 8 bits, most significant first, each followed by an
      acknowledge slot. */
  function AckedBytes(ds: seq<int>): seq<Sym>
    decreases |ds|
  {
    if ds == [] then [] else MsbSyms(LowByte(ds[0]), 8, 0) + [AckSlot] + AckedBytes(ds[1..])
  }

  /** The five frames a receiver on the bus sees during `store`. */
  function StoreSyms(addr: int): seq<Sym>
  {
    Framed(MsbSyms(TimingHead, 3, 0))
    + Framed(AckedBytes([TimingAddr, TimingCmd1]))
    + Framed(AckedBytes([addr * 2] + seq(8, _ => TimingCmd2)))
    + Framed(MsbSyms(TimingHead, 3, 0))
    + Framed(AckedBytes([TimingAddr, TimingCmd2]))
  }

  // ---------------------------------------------------------------------
  // The session on the bus

  lemma PartOnBus(w: Wires, chip: nat -> Bit, c: nat, p: Part)
    requires w.sda && w.sdaDir == Out
    requires p.Frame? ==> WellFramed(p.bytes)
    ensures Symbols(w, OpsWave(chip, c, PartOps(p)))
         == (if p.Frame? then Framed(BytesSyms(p.bytes)) else [])
    ensures var e := Replay(w, OpsWave(chip, c, PartOps(p))); e.sda && e.sdaDir == Out
    ensures BytesStartLow(w, chip, c, PartOps(p))
  {
    if p.Frame? {
      FrameOnBus(w, chip, c, p.bytes);
      FrameStartsLow(w, chip, c, p.bytes);
    } else {
      var W, R := OpWaves(chip), OpReadCounts(chip);
      ThreadOne(W, R, c, Delay);
      assert W(c, Delay) == [Sleep(StoreDelay)];
      assert Inert([Sleep(StoreDelay)]);
      InertOnBus(w, [Sleep(StoreDelay)]);
      assert [Delay][0] == Delay && [Delay][1..] == [];
    }
  }

  /** A session of well-framed parts, begun with SDA high, puts exactly
      their frames on the bus; every `_send_byte` in it begins with SCL low. */
  lemma {:induction false} PartsOnBus(w: Wires, chip: nat -> Bit, c: nat, parts: seq<Part>)
    requires w.sda && w.sdaDir == Out && PartsFramed(parts)
    ensures Symbols(w, OpsWave(chip, c, PartsOps(parts))) == PartsSyms(parts)
    ensures var e := Replay(w, OpsWave(chip, c, PartsOps(parts))); e.sda && e.sdaDir == Out
    ensures BytesStartLow(w, chip, c, PartsOps(parts))
    decreases |parts|
  {
    if parts == [] {
      var W, R := OpWaves(chip), OpReadCounts(chip);
      assert Run(w, Thread(W, R, c, [])) == Outcome(w, []);
    } else {
      var a, b := PartOps(parts[0]), PartsOps(parts[1..]);
      var c' := c + OpsReads(chip, c, a);
      var u := Replay(w, OpsWave(chip, c, a));
      assert PartsFramed(parts[1..]) by {
        forall k | 0 <= k < |parts[1..]| && parts[1..][k].Frame?
          ensures WellFramed(parts[1..][k].bytes)
        {
          assert parts[1..][k] == parts[k + 1];
        }
      }
      assert parts[0].Frame? ==> WellFramed(parts[0].bytes) by {
        if parts[0].Frame? { assert 0 < |parts|; }
      }
      PartOnBus(w, chip, c, parts[0]);
      PartsOnBus(u, chip, c', parts[1..]);
      OpsThen(w, chip, c, a, b, u, c');
      StartsLowThen(w, chip, c, a, b, u, c');
      assert PartsOps(parts) == a + b;
    }
  }

  /** Two sessions run back to back: what the receiver sees and where the
      bus ends, from those of each session; u and n are the bus state and
      the read count where the first session ends. */
  lemma OpsThen(w: Wires, chip: nat -> Bit, c: nat, a: seq<Op>, b: seq<Op>, u: Wires, n: nat)
    requires u == Replay(w, OpsWave(chip, c, a)) && n == c + OpsReads(chip, c, a)
    ensures Symbols(w, OpsWave(chip, c, a + b)) == Symbols(w, OpsWave(chip, c, a)) + Symbols(u, OpsWave(chip, n, b))
    ensures Replay(w, OpsWave(chip, c, a + b)) == Replay(u, OpsWave(chip, n, b))
  {
    ThreadThen(OpWaves(chip), OpReadCounts(chip), w, c, a, b, u, n);
  }

  /** OpsThen, for any run of steps. */
  lemma ThreadThen<T>(wave: (nat, T) -> seq<Event>, count: (nat, T) -> nat,
                      w: Wires, c: nat, a: seq<T>, b: seq<T>, u: Wires, n: nat)
    requires u == Replay(w, Thread(wave, count, c, a)) && n == c + ThreadReads(count, c, a)
    ensures Symbols(w, Thread(wave, count, c, a + b))
         == Symbols(w, Thread(wave, count, c, a)) + Symbols(u, Thread(wave, count, n, b))
    ensures Replay(w, Thread(wave, count, c, a + b)) == Replay(u, Thread(wave, count, n, b))
  {
    var ta, tb := Thread(wave, count, c, a), Thread(wave, count, n, b);
    ThreadAppend(wave, count, c, a, b);
    ComposeAt(w, ta, tb, Thread(wave, count, c, a + b));
  }

  /** Two sessions each of whose `_send_byte`s begins with SCL low make one. */
  lemma StartsLowThen(w: Wires, chip: nat -> Bit, c: nat, a: seq<Op>, b: seq<Op>, u: Wires, n: nat)
    requires u == Replay(w, OpsWave(chip, c, a)) && n == c + OpsReads(chip, c, a)
    requires BytesStartLow(w, chip, c, a) && BytesStartLow(u, chip, n, b)
    ensures BytesStartLow(w, chip, c, a + b)
  {
    SendsStartLowAppend(OpWaves(chip), OpReadCounts(chip), IsByte, w, c, a, b, u, n);
  }

  /** The sends of a frame whose bytes all wait for the same acknowledge. */
  lemma {:induction false} AckedSyms(ds: seq<int>, ack: int)
    ensures BytesSyms(seq(|ds|, k requires 0 <= k < |ds| => Acked(ds[k], ack))) == AckedBytes(ds)
    decreases |ds|
  {
    var sends := seq(|ds|, k requires 0 <= k < |ds| => Acked(ds[k], ack));
    if ds != [] {
      AckedSyms(ds[1..], ack);
      assert sends[1..] == seq(|ds[1..]|, k requires 0 <= k < |ds[1..]| => Acked(ds[1..][k], ack));
    }
  }

  lemma {:induction false} PartsSymsAppend(a: seq<Part>, b: seq<Part>)
    ensures PartsSyms(a + b) == PartsSyms(a) + PartsSyms(b)
    decreases |a|
  {
    if a == [] {
      assert a + b == b;
    } else {
      assert (a + b)[0] == a[0] && (a + b)[1..] == a[1..] + b;
      PartsSymsAppend(a[1..], b);
      var h := PartSyms(a[0]);
      assert PartsSyms(a + b) == h + (PartsSyms(a[1..]) + PartsSyms(b));
      assert h + (PartsSyms(a[1..]) + PartsSyms(b)) == h + PartsSyms(a[1..]) + PartsSyms(b);
    }
  }

  /** PartsSyms of a six-part session. */
  lemma SixParts(p0: Part, p1: Part, p2: Part, p3: Part, p4: Part, p5: Part)
    ensures PartsSyms([p0, p1, p2, p3, p4, p5])
         == PartsSyms([p0]) + PartsSyms([p1]) + PartsSyms([p2])
          + PartsSyms([p3]) + PartsSyms([p4]) + PartsSyms([p5])
  {
    assert [p0, p1, p2, p3, p4, p5] == [p0] + [p1] + [p2] + [p3] + [p4] + [p5];
    PartsSymsAppend([p0], [p1]);
    PartsSymsAppend([p0] + [p1], [p2]);
    PartsSymsAppend([p0] + [p1] + [p2], [p3]);
    PartsSymsAppend([p0] + [p1] + [p2] + [p3], [p4]);
    PartsSymsAppend([p0] + [p1] + [p2] + [p3] + [p4], [p5]);
  }

  lemma HeadFrameSyms()
    ensures PartsSyms([Frame([HeadSend])]) == Framed(MsbSyms(TimingHead, 3, 0))
  {
    assert [Frame([HeadSend])][1..] == [];
    assert [HeadSend][1..] == [];
    assert LowByte(TimingHead) == TimingHead && Times(3) == 3;
    assert BytesSyms([HeadSend]) == ByteSyms(HeadSend) + BytesSyms([]);
    assert ByteSyms(HeadSend) == MsbSyms(TimingHead, 3, 0) + [];
  }

  lemma PairFrameSyms(d0: int, d1: int, ack: int)
    ensures PartsSyms([Frame([Acked(d0, ack), Acked(d1, ack)])]) == Framed(AckedBytes([d0, d1]))
  {
    assert [Frame([Acked(d0, ack), Acked(d1, ack)])][1..] == [];
    AckedSyms([d0, d1], ack);
    assert [Acked(d0, ack), Acked(d1, ack)] == seq(2, k requires 0 <= k < 2 => Acked([d0, d1][k], ack));
  }

  lemma StoreFrameSyms(addr: int)
    ensures PartsSyms([StoreParts(addr)[2]])
         == Framed(AckedBytes([addr * 2] + seq(8, _ => TimingCmd2)))
  {
    var ds := [addr * 2] + seq(8, _ => TimingCmd2);
    var q := StoreParts(addr)[2];
    assert [q][1..] == [];
    AckedSyms(ds, 1);
    assert q.bytes == seq(|ds|, k requires 0 <= k < |ds| => Acked(ds[k], 1));
  }

  /** The receiver's view of the store parts is the five frames of StoreSyms. */
  lemma StorePartsSyms(addr: int)
    ensures PartsSyms(StoreParts(addr)) == StoreSyms(addr)
  {
    var p := StoreParts(addr);
    StorePartsSplit(addr);
    StorePartEach(addr);
    DropPause(PartsSyms([p[0]]), PartsSyms([p[1]]), PartsSyms([p[2]]),
              PartsSyms([p[3]]), PartsSyms([p[4]]), PartsSyms([p[5]]));
  }

  /** The pause contributes nothing a receiver sees. */
  lemma DropPause(x0: seq<Sym>, x1: seq<Sym>, x2: seq<Sym>, x3: seq<Sym>, x4: seq<Sym>, x5: seq<Sym>)
    requires x3 == []
    ensures x0 + x1 + x2 + x3 + x4 + x5 == x0 + x1 + x2 + x4 + x5
  {
    assert x0 + x1 + x2 + x3 == x0 + x1 + x2;
  }

  lemma StorePartsSplit(addr: int)
    ensures var p := StoreParts(addr);
      PartsSyms(p) == PartsSyms([p[0]]) + PartsSyms([p[1]]) + PartsSyms([p[2]])
                    + PartsSyms([p[3]]) + PartsSyms([p[4]]) + PartsSyms([p[5]])
  {
    var p := StoreParts(addr);
    SixParts(p[0], p[1], p[2], p[3], p[4], p[5]);
    assert p == [p[0], p[1], p[2], p[3], p[4], p[5]];
  }

  lemma StorePartEach(addr: int)
    ensures var p := StoreParts(addr);
      && PartsSyms([p[0]]) == Framed(MsbSyms(TimingHead, 3, 0))
      && PartsSyms([p[1]]) == Framed(AckedBytes([TimingAddr, TimingCmd1]))
      && PartsSyms([p[2]]) == Framed(AckedBytes([addr * 2] + seq(8, _ => TimingCmd2)))
      && PartsSyms([p[3]]) == []
      && PartsSyms([p[4]]) == Framed(MsbSyms(TimingHead, 3, 0))
      && PartsSyms([p[5]]) == Framed(AckedBytes([TimingAddr, TimingCmd2]))
  {
    HeadFrameSyms();
    PairFrameSyms(TimingAddr, TimingCmd1, 0);
    StoreFrameSyms(addr);
    assert [Pause][1..] == [];
    PairFrameSyms(TimingAddr, TimingCmd2, 0);
  }

  /** Every frame of `store` acknowledges all its bytes but the last. */
  lemma StoreFramed(addr: int)
    ensures PartsFramed(StoreParts(addr))
  {
    var p := StoreParts(addr);
    assert WellFramed(p[2].bytes);
  }

  /** A session of well-framed parts, begun with SDA high, is seen by a
      receiver as exactly its frames, whatever the chip answers, and leaves
      the bus idle. */
  lemma SessionOnBus(w: Wires, chip: nat -> Bit, c: nat, parts: seq<Part>)
    requires w.sda && PartsFramed(parts)
    ensures Symbols(w, SessionTrace(chip, c, parts)) == PartsSyms(parts)
    ensures Replay(w, SessionTrace(chip, c, parts)) == Idle
    ensures BytesStartLow(w.(sdaDir := Out), chip, c, PartsOps(parts))
  {
    PartsOnBus(w.(sdaDir := Out), chip, c, parts);
    WrapOnBus(w, OpsWave(chip, c, PartsOps(parts)));
  }

  /** Taking the pins makes SDA an output and is invisible on the bus;
      handing them back idles the bus. */
  lemma WrapOnBus(w: Wires, mid: seq<Event>)
    ensures var u := w.(sdaDir := Out);
      && Symbols(w, [SclDir(Out), SdaDir(Out)] + mid + [RestoreI2C]) == Symbols(u, mid)
      && Replay(w, [SclDir(Out), SdaDir(Out)] + mid + [RestoreI2C]) == Idle
  {
    var pre: seq<Event> := [SclDir(Out), SdaDir(Out)];
    var u := w.(sdaDir := Out);
    assert Run(w, pre) == Outcome(u, []);
    assert Run(Replay(u, mid), [RestoreI2C]) == Outcome(Idle, []);
    Compose3(w, pre, mid, [RestoreI2C]);
  }

  /** `store`, begun with SDA high, is seen by a receiver as exactly the
      five frames of StoreSyms, whatever the chip answers, and leaves the
      bus idle; every `_send_byte` in it begins with SCL low. */
  lemma StoreOnBus(w: Wires, chip: nat -> Bit, c: nat, addr: int)
    requires w.sda
    ensures Symbols(w, StoreTrace(chip, c, addr)) == StoreSyms(addr)
    ensures Replay(w, StoreTrace(chip, c, addr)) == Idle
    ensures BytesStartLow(w.(sdaDir := Out), chip, c, PartsOps(StoreParts(addr)))
  {
    StoreFramed(addr);
    SessionOnBus(w, chip, c, StoreParts(addr));
    StorePartsSyms(addr);
  }

  // ---------------------------------------------------------------------
  // What the five frames contain

  lemma {:induction false} MsbNoControl(d: nat, n: nat, i: nat, x: Sym)
    requires !x.Data?
    ensures Count(MsbSyms(d, n, i), x) == 0
    decreases n - i
  {
    if i < n {
      MsbNoControl(d, n, i + 1, x);
      CountAppend(MsbSyms(d, n, i + 1), [Data(BitOf(d, i))], x);
    }
  }

  lemma {:induction false} AckedBytesCount(ds: seq<int>, x: Sym)
    requires !x.Data?
    ensures Count(AckedBytes(ds), x) == if x == AckSlot then |ds| else 0
    decreases |ds|
  {
    if ds != [] {
      var m := MsbSyms(LowByte(ds[0]), 8, 0);
      MsbNoControl(LowByte(ds[0]), 8, 0, x);
      AckedBytesCount(ds[1..], x);
      CountAppend(m, [AckSlot], x);
      CountAppend(m + [AckSlot], AckedBytes(ds[1..]), x);
    }
  }

  lemma FramedCount(body: seq<Sym>, x: Sym)
    ensures Count(Framed(body), x)
         == Count(body, x) + (if x == StartC then 1 else 0) + (if x == StopC then 1 else 0)
  {
    CountAppend([StartC], body, x);
    CountAppend([StartC] + body, [StopC], x);
  }

  /** A receiver sees five STARTs, five STOPs and thirteen acknowledge
      slots during `store`: the 2 + 9 + 2 bytes that wait for one. */
  lemma StoreConditions(addr: int)
    ensures Count(StoreSyms(addr), StartC) == 5
    ensures Count(StoreSyms(addr), StopC) == 5
    ensures Count(StoreSyms(addr), AckSlot) == 13
  {
    forall x: Sym | !x.Data?
      ensures Count(StoreSyms(addr), x)
           == 5 * ((if x == StartC then 1 else 0) + (if x == StopC then 1 else 0))
            + (if x == AckSlot then 13 else 0)
    {
      var f1 := Framed(MsbSyms(TimingHead, 3, 0));
      var f2 := Framed(AckedBytes([TimingAddr, TimingCmd1]));
      var f3 := Framed(AckedBytes([addr * 2] + seq(8, _ => TimingCmd2)));
      var f5 := Framed(AckedBytes([TimingAddr, TimingCmd2]));
      MsbNoControl(TimingHead, 3, 0, x);
      AckedBytesCount([TimingAddr, TimingCmd1], x);
      AckedBytesCount([addr * 2] + seq(8, _ => TimingCmd2), x);
      AckedBytesCount([TimingAddr, TimingCmd2], x);
      FramedCount(MsbSyms(TimingHead, 3, 0), x);
      FramedCount(AckedBytes([TimingAddr, TimingCmd1]), x);
      FramedCount(AckedBytes([addr * 2] + seq(8, _ => TimingCmd2)), x);
      FramedCount(AckedBytes([TimingAddr, TimingCmd2]), x);
      CountAppend(f1, f2, x);
      CountAppend(f1 + f2, f3, x);
      CountAppend(f1 + f2 + f3, f1, x);
      CountAppend(f1 + f2 + f3 + f1, f5, x);
    }
  }

  /** The store head is the three bits 0, 1, 0. */
  lemma HeadBits()
    ensures MsbSyms(TimingHead, 3, 0) == [Data(false), Data(true), Data(false)]
  {
    assert BitOf(TimingHead, 0) == false && BitOf(TimingHead, 1) == true && BitOf(TimingHead, 2) == false by {
      assert Pow2(0) == 1 && Pow2(1) == 2 && Pow2(2) == 4;
    }
  }

  /** The first byte of the third frame is the chip's 7-bit address
      followed by a 0 (write) bit: the receiver's shift register reads it
      back as addr * 2. */
  lemma StoreAddressByte(addr: int)
    requires 0 <= addr < 128
    ensures Value(MsbSyms(LowByte(addr * 2), 8, 0)) == addr * 2
    ensures Value(MsbSyms(LowByte(addr * 2), 8, 0)) / 2 == addr
    ensures Value(MsbSyms(LowByte(addr * 2), 8, 0)) % 2 == 0
  {
    MsbRoundTrip(LowByte(addr * 2), 8);
    assert Pow2(8) == 256 by {
      assert Pow2(1) == 2 && Pow2(2) == 4 && Pow2(4) == 16;
    }
  }
}
