/** The waveforms the driver emits for its signal-layer operations, as
    functions of their arguments, and what a receiver on the bus decodes
    from each of them. */
module Waveform {
  import opened Bus

  function Pow2(k: nat): (r: nat)
    ensures r >= 1
  {
    if k == 0 then 1 else 2 * Pow2(k - 1)
  }

  /** `data & 0xFF` on a Python integer (two's complement for negatives). */
  function LowByte(data: int): (r: nat)
    ensures r < 256
    ensures (r - data) % 256 == 0
  {
    data % 256
  }

  /** `d & (1 << k) != 0`: bit k of d. */
  function BitOf(d: nat, k: nat): bool
  {
    (d / Pow2(k)) % 2 == 1
  }

  /** How many times `while i > 0: i -= 1` runs when started at i. */
  function Times(i: int): nat
  {
    if i > 0 then i else 0
  }

  /** The receiver's shift register: data bits shifted in MSB first. */
  function Value(s: seq<Sym>): nat
  {
    if s == [] then 0
    else 2 * Value(s[..|s| - 1]) + (if s[|s| - 1] == Data(true) then 1 else 0)
  }

  // ---------------------------------------------------------------------
  // Arithmetic on powers of two

  lemma DivUnique(d: nat, m: nat, q: nat, t: nat)
    requires m > 0 && d == q * m + t && t < m
    ensures d / m == q && d % m == t
  {
    var q', t' := d / m, d % m;
    assert q' * m + t' == q * m + t;
    if q' > q {
      assert q' * m >= (q + 1) * m by { LeMul(q + 1, q', m); }
    } else if q' < q {
      assert q * m >= (q' + 1) * m by { LeMul(q' + 1, q, m); }
    }
  }

  lemma LeMul(a: nat, b: nat, m: nat)
    requires a <= b
    ensures a * m <= b * m
  {
  }

  /** Dividing by 2^(k+1) is dividing by 2^k, then by 2. */
  lemma DivPow2Step(d: nat, k: nat)
    ensures d / Pow2(k + 1) == (d / Pow2(k)) / 2
  {
    var p := Pow2(k);
    var x, r := d / p, d % p;
    var y, s := x / 2, x % 2;
    assert d == y * (2 * p) + (s * p + r) by {
      assert d == x * p + r;
      assert x == 2 * y + s;
      assert x * p == (2 * y + s) * p == y * (2 * p) + s * p;
    }
    assert s * p + r < 2 * p by {
      assert s <= 1;
      LeMul(s, 1, p);
    }
    DivUnique(d, 2 * p, y, s * p + r);
  }

  /** The low m bits of q are its low bit below the low m-1 bits of q/2. */
  lemma ModPow2Step(q: nat, m: nat)
    requires m > 0
    ensures q % Pow2(m) == 2 * ((q / 2) % Pow2(m - 1)) + q % 2
  {
    var p := Pow2(m - 1);
    var h, r := q / 2, q % 2;
    var a, s := h / p, h % p;
    assert q == a * (2 * p) + (2 * s + r) by {
      assert h == a * p + s;
      assert q == 2 * h + r;
      assert 2 * (a * p) == a * (2 * p);
    }
    DivUnique(q, 2 * p, a, 2 * s + r);
  }

  // ---------------------------------------------------------------------
  // _send_byte: one clock pulse per bit, most significant bit first

  /** One pass of the bit loop: set SDA, then pulse SCL. */
  function BitCell(one: bool): seq<Event>
  {
    [if one then SdaHigh else SdaLow, Sleep(Before), SclHigh, Sleep(Total), SclLow, Sleep(After)]
  }

  /** The bits of d, indexed from the least significant. */
  function Bits(d: nat): nat -> bool
  {
    (k: nat) => BitOf(d, k)
  }

  /** The bit loop after it has sent bits n-1 down to i, bit k being bit(k). */
  function Cells(bit: nat -> bool, n: nat, i: nat): seq<Event>
    decreases n - i
  {
    if i >= n then [] else Cells(bit, n, i + 1) + BitCell(bit(i))
  }

  /** The bit cell of bit i, driven after the cells of bits n-1 down to
      i+1, extends them to the cells of bits n-1 down to i. */
  lemma CellStep(d: nat, n: nat, i: nat, t0: seq<Event>, t: seq<Event>, e: Event, t2: seq<Event>)
    requires i < n
    requires t == t0 + Cells(Bits(d), n, i + 1)
    requires e == (if BitOf(d, i) then SdaHigh else SdaLow)
    requires t2 == t + [e] + [Sleep(Before)] + [SclHigh] + [Sleep(Total)] + [SclLow] + [Sleep(After)]
    ensures t2 == t0 + Cells(Bits(d), n, i)
  {
    assert Cells(Bits(d), n, i) == Cells(Bits(d), n, i + 1) + BitCell(BitOf(d, i));
    assert t2 == t + BitCell(BitOf(d, i));
  }

  /** The data bits n-1 down to i of d, as a receiver decodes them. */
  function MsbSyms(d: nat, n: nat, i: nat): seq<Sym>
    decreases n - i
  {
    if i >= n then [] else MsbSyms(d, n, i + 1) + [Data(BitOf(d, i))]
  }

  /** Receiving one more bit shifts the register left and adds it. */
  lemma MsbShift(d: nat, n: nat, i: nat)
    requires i < n
    ensures Value(MsbSyms(d, n, i)) == 2 * Value(MsbSyms(d, n, i + 1)) + (if BitOf(d, i) then 1 else 0)
  {
    var s := MsbSyms(d, n, i + 1);
    assert MsbSyms(d, n, i) == s + [Data(BitOf(d, i))];
    assert (s + [Data(BitOf(d, i))])[..|s|] == s;
  }

  /** The bits i .. i+m-1 of d are bit i below the bits i+1 .. i+m-1. */
  lemma BitsShift(d: nat, i: nat, m: nat)
    requires m > 0
    ensures (d / Pow2(i)) % Pow2(m) == 2 * ((d / Pow2(i + 1)) % Pow2(m - 1)) + (if BitOf(d, i) then 1 else 0)
  {
    DivPow2Step(d, i);
    ModPow2Step(d / Pow2(i), m);
  }

  /** The receiver's shift register holds bits n-1 down to i of d. */
  lemma {:induction false} MsbValue(d: nat, n: nat, i: nat)
    ensures Value(MsbSyms(d, n, i)) == (d / Pow2(i)) % Pow2(Times(n - i))
    decreases n - i
  {
    if i < n {
      MsbShift(d, n, i);
      MsbValue(d, n, i + 1);
      BitsShift(d, i, n - i);
    }
  }

  /** Decoding the bits a byte sends gives back its low n bits. */
  lemma MsbRoundTrip(d: nat, n: nat)
    ensures |MsbSyms(d, n, 0)| == n
    ensures Value(MsbSyms(d, n, 0)) == d % Pow2(n)
  {
    MsbValue(d, n, 0);
    MsbLength(d, n, 0);
    assert Pow2(0) == 1 && d / 1 == d;
  }

  lemma {:induction false} MsbLength(d: nat, n: nat, i: nat)
    ensures |MsbSyms(d, n, i)| == Times(n - i)
    decreases n - i
  {
    if i < n {
      MsbLength(d, n, i + 1);
    }
  }

  /** The k-th bit on the bus (k from 0) is bit n-1-k of d: most
      significant first. */
  lemma {:induction false} MsbIndex(d: nat, n: nat, i: nat, k: nat)
    requires i <= n && k < n - i
    ensures |MsbSyms(d, n, i)| == n - i
    ensures MsbSyms(d, n, i)[k] == Data(BitOf(d, n - 1 - k))
    decreases n - i
  {
    MsbLength(d, n, i);
    MsbLength(d, n, i + 1);
    if k < n - i - 1 {
      MsbIndex(d, n, i + 1, k);
    }
  }

  /** A bus about to receive a data bit: SCL low, SDA driven, no pulse pending. */
  predicate Ready(w: Wires)
  {
    !w.scl && w.sdaDir == Out && !w.armed
  }

  lemma BitCellOnBus(w: Wires, one: bool)
    requires Ready(w)
    ensures Symbols(w, BitCell(one)) == [Data(one)]
    ensures Replay(w, BitCell(one)) == w.(sda := one)
    ensures SdaOnlyWhileSclLow(w, BitCell(one))
  {
    var first := if one then SdaHigh else SdaLow;
    var pulse := [Sleep(Before), SclHigh, Sleep(Total), SclLow, Sleep(After)];
    assert BitCell(one) == [first] + pulse;
    assert Run(w, [first]) == Outcome(w.(sda := one), []) by {
      assert [first][1..] == [];
    }
    var u := w.(sda := one);
    assert Run(u, pulse) == Outcome(u, [Data(one)]);
    Compose(w, [first], pulse);
    BitCellQuiet(w, one);
  }

  lemma BitCellQuiet(w: Wires, one: bool)
    requires !w.scl
    ensures SdaOnlyWhileSclLow(w, BitCell(one))
  {
    var first := if one then SdaHigh else SdaLow;
    var pulse := [Sleep(Before), SclHigh, Sleep(Total), SclLow, Sleep(After)];
    assert BitCell(one) == [first] + pulse;
    assert SdaOnlyWhileSclLow(w, [first]);
    assert SdaOnlyWhileSclLow(w.(sda := one), pulse);
    SdaOnlyCompose(w, [first], pulse);
  }

  /** From a ready bus the bit loop puts exactly its data bits on the bus,
      changes SDA only while SCL is low, and leaves the bus ready. */
  lemma {:induction false} CellsOnBus(w: Wires, d: nat, n: nat, i: nat)
    requires Ready(w)
    ensures Symbols(w, Cells(Bits(d), n, i)) == MsbSyms(d, n, i)
    ensures Ready(Replay(w, Cells(Bits(d), n, i)))
    ensures SdaOnlyWhileSclLow(w, Cells(Bits(d), n, i))
    decreases n - i
  {
    if i < n {
      var a, c := Cells(Bits(d), n, i + 1), BitCell(BitOf(d, i));
      assert Cells(Bits(d), n, i) == a + c;
      assert MsbSyms(d, n, i) == MsbSyms(d, n, i + 1) + [Data(BitOf(d, i))];
      CellsOnBus(w, d, n, i + 1);
      BitCellOnBus(Replay(w, a), BitOf(d, i));
      Compose(w, a, c);
      SdaOnlyCompose(w, a, c);
    }
  }

  /** The bit loop raises SCL once per bit. */
  lemma {:induction false} CellsPulses(d: nat, n: nat, i: nat)
    ensures Count(Cells(Bits(d), n, i), SclHigh) == Times(n - i)
    decreases n - i
  {
    if i < n {
      var c := BitCell(BitOf(d, i));
      CellsPulses(d, n, i + 1);
      assert Cells(Bits(d), n, i) == Cells(Bits(d), n, i + 1) + c;
      CountAppend(Cells(Bits(d), n, i + 1), c, SclHigh);
      var first := if BitOf(d, i) then SdaHigh else SdaLow;
      var pulse := [Sleep(Before), SclHigh, Sleep(Total), SclLow, Sleep(After)];
      assert c == [first] + pulse;
      CountAppend([first], pulse, SclHigh);
      assert Count([first], SclHigh) == 0 by { assert [first][1..] == []; }
    }
  }

  // ---------------------------------------------------------------------
  // _start_signal and _stop_signal

  const StartWave: seq<Event> :=
    [SclHigh, SdaHigh, Sleep(Before), SdaLow, Sleep(After), SclLow, Sleep(Total)]

  const StopWave: seq<Event> :=
    [SdaLow, Sleep(Before), SclHigh, Sleep(Total), SdaHigh, Sleep(Total)]

  /** Both lines low, SDA driven, no pulse pending: where a START leaves the bus. */
  const Started := Wires(false, false, Out, false)

  /** The START signal drops SDA while SCL is high and leaves both lines
      low; a receiver sees a START (preceded by a STOP only if SDA was low,
      because SDA is raised after SCL). */
  lemma StartOnBus(w: Wires)
    requires w.sdaDir == Out
    ensures IsStart(Replay(w, StartWave[..3]), StartWave[3])
    ensures Replay(w, StartWave) == Started
    ensures Symbols(w, StartWave) == (if w.sda then [] else [StopC]) + [StartC]
  {
    var a, b := [SclHigh, SdaHigh], [Sleep(Before), SdaLow, Sleep(After), SclLow, Sleep(Total)];
    assert StartWave == a + b && StartWave[..3] == a + [Sleep(Before)];
    Compose(w, a, b);
    Snoc(w, a, Sleep(Before));
    var u := Replay(w, a);
    assert u.scl && u.sda && u.sdaDir == Out;
    assert Symbols(w, a) == if w.sda then [] else [StopC];
    assert Replay(u, b) == Started && Symbols(u, b) == [StartC];
  }

  /** The STOP signal raises SDA while SCL is high and leaves both lines
      high; a receiver sees a STOP (preceded by a START only if both lines
      were high, because SDA is lowered first). */
  lemma StopOnBus(w: Wires)
    requires w.sdaDir == Out
    ensures IsStop(Replay(w, StopWave[..4]), StopWave[4])
    ensures Replay(w, StopWave) == Idle
    ensures Symbols(w, StopWave) == (if w.scl && w.sda then [StartC] else []) + [StopC]
  {
    var a, b := [SdaLow, Sleep(Before), SclHigh], [Sleep(Total), SdaHigh, Sleep(Total)];
    assert StopWave == a + b && StopWave[..4] == a + [Sleep(Total)];
    Compose(w, a, b);
    Snoc(w, a, Sleep(Total));
    var u := Replay(w, a);
    assert u.scl && !u.sda && u.sdaDir == Out;
    assert Symbols(w, a) == if w.scl && w.sda then [StartC] else [];
    assert Replay(u, b) == Idle && Symbols(u, b) == [StopC];
  }

  // ---------------------------------------------------------------------
  // _recv_ack: the poll loop and its bound

  /** Events that neither drive a pin nor change its direction. */
  predicate Inert(es: seq<Event>)
  {
    forall k :: 0 <= k < |es| ==> es[k].SdaRead? || es[k].Sleep?
  }

  lemma {:induction false} InertOnBus(w: Wires, es: seq<Event>)
    requires Inert(es)
    ensures Replay(w, es) == w && Symbols(w, es) == []
    decreases |es|
  {
    if es != [] {
      assert Inert(es[1..]) by {
        forall k | 0 <= k < |es[1..]| ensures es[1..][k].SdaRead? || es[1..][k].Sleep? {
          assert es[1..][k] == es[k + 1];
        }
      }
      InertOnBus(w, es[1..]);
    }
  }

  /** Number of SDA reads the poll loop of `_recv_ack` makes, starting at
      read number c with `errors` failed polls already counted: it stops at
      the first read equal to `ack`, or after the failed poll that takes
      the count past 250. */
  function PollReads(chip: nat -> Bit, c: nat, ack: int, errors: nat): (r: nat)
    requires errors <= 250
    decreases 250 - errors
  {
    if chip(c) == ack then 1
    else if errors + 1 > 250 then 1
    else 1 + PollReads(chip, c + 1, ack, errors + 1)
  }

  /** The events of that loop: each read, and a one-tick wait after each
      read that did not match. */
  function PollWave(chip: nat -> Bit, c: nat, ack: int, errors: nat): seq<Event>
    requires errors <= 250
    decreases 250 - errors
  {
    if chip(c) == ack then [SdaRead(chip(c))]
    else if errors + 1 > 250 then [SdaRead(chip(c)), Sleep(Poll)]
    else [SdaRead(chip(c)), Sleep(Poll)] + PollWave(chip, c + 1, ack, errors + 1)
  }

  /** n reads that did not match, from read number c on, each followed by
      a one-tick wait. */
  function Misses(chip: nat -> Bit, c: nat, n: nat): seq<Event>
    decreases n
  {
    if n == 0 then [] else [SdaRead(chip(c)), Sleep(Poll)] + Misses(chip, c + 1, n - 1)
  }

  /** One more miss, after a trace t that ends with the missed read. */
  lemma {:induction false} MissMore(chip: nat -> Bit, c: nat, n: nat, t: seq<Event>)
    ensures t + Misses(chip, c, n) + [SdaRead(chip(c + n))] + [Sleep(Poll)] == t + Misses(chip, c, n + 1)
    decreases n
  {
    if n == 0 {
      assert Misses(chip, c, 1) == [SdaRead(chip(c)), Sleep(Poll)] + Misses(chip, c + 1, 0);
    } else {
      var h := [SdaRead(chip(c)), Sleep(Poll)];
      MissMore(chip, c + 1, n - 1, t + h);
      assert c + 1 + (n - 1) == c + n;
      assert Misses(chip, c, n) == h + Misses(chip, c + 1, n - 1);
      assert Misses(chip, c, n + 1) == h + Misses(chip, c + 1, n);
      assert t + Misses(chip, c, n) == t + h + Misses(chip, c + 1, n - 1);
      assert t + Misses(chip, c, n + 1) == t + h + Misses(chip, c + 1, n);
    }
  }

  /** The poll loop when read c + m is the first to match. */
  lemma {:induction false} PollMatchAt(chip: nat -> Bit, c: nat, ack: int, errors: nat, m: nat)
    requires errors + m <= 250
    requires forall k :: c <= k < c + m ==> chip(k) != ack
    requires chip(c + m) == ack
    ensures PollWave(chip, c, ack, errors) == Misses(chip, c, m) + [SdaRead(chip(c + m))]
    ensures PollReads(chip, c, ack, errors) == m + 1
    decreases m
  {
    if m > 0 {
      assert chip(c) != ack;
      PollMatchAt(chip, c + 1, ack, errors + 1, m - 1);
    }
  }

  /** The poll loop when none of its 251 - errors reads matches. */
  lemma {:induction false} PollExhaust(chip: nat -> Bit, c: nat, ack: int, errors: nat)
    requires errors <= 250
    requires forall k :: c <= k <= c + 250 - errors ==> chip(k) != ack
    ensures PollWave(chip, c, ack, errors) == Misses(chip, c, 251 - errors)
    ensures PollReads(chip, c, ack, errors) == 251 - errors
    decreases 250 - errors
  {
    assert chip(c) != ack;
    if errors < 250 {
      PollExhaust(chip, c + 1, ack, errors + 1);
    } else {
      assert Misses(chip, c, 1) == [SdaRead(chip(c)), Sleep(Poll)] + Misses(chip, c + 1, 0);
    }
  }

  /** The 251st read fails too: one more wait, and the loop gives up. */
  lemma PollGiveUp(chip: nat -> Bit, c: nat, ack: int, e: nat, t1: seq<Event>, t: seq<Event>, t2: seq<Event>)
    requires e == 250
    requires forall k :: c <= k < c + e ==> chip(k) != ack
    requires chip(c + e) != ack
    requires t == t1 + Misses(chip, c, e) + [SdaRead(chip(c + e))]
    requires t2 == t + [Sleep(Poll)]
    ensures t2 == t1 + PollWave(chip, c, ack, 0)
    ensures PollReads(chip, c, ack, 0) == 251
  {
    MissMore(chip, c, e, t1);
    assert t2 == t1 + Misses(chip, c, e + 1);
    forall k | c <= k <= c + 250
      ensures chip(k) != ack
    {
    }
    PollExhaust(chip, c, ack, 0);
  }

  /** The parts of `_recv_ack`, put together. */
  lemma AckAssemble(chip: nat -> Bit, c: nat, ack: int, n: nat, v: Bit,
                    t0: seq<Event>, t1: seq<Event>, t2: seq<Event>, t3: seq<Event>)
    requires n == PollReads(chip, c, ack, 0) && v == chip(c + n)
    requires t1 == t0 + [SdaDir(In)] + [Sleep(Before)] + [SclHigh] + [Sleep(After)]
    requires t2 == t1 + PollWave(chip, c, ack, 0)
    requires t3 == t2 + [SdaRead(v)] + [Sleep(Before)] + [SclLow] + [Sleep(After)] + [SdaDir(Out)]
    ensures v == AckValue(chip, c, ack)
    ensures t3 == t0 + AckWave(chip, c, ack)
  {
    AckHeadChain(t0, t1);
    AckTailChain(t2, t3, v);
    Chain3(t0, AckHead(), PollWave(chip, c, ack, 0), AckTail(v), t1, t2, t3);
  }

  lemma AckHeadChain(t0: seq<Event>, t1: seq<Event>)
    requires t1 == t0 + [SdaDir(In)] + [Sleep(Before)] + [SclHigh] + [Sleep(After)]
    ensures t1 == t0 + AckHead()
  {
  }

  lemma AckTailChain(t2: seq<Event>, t3: seq<Event>, v: Bit)
    requires t3 == t2 + [SdaRead(v)] + [Sleep(Before)] + [SclLow] + [Sleep(After)] + [SdaDir(Out)]
    ensures t3 == t2 + AckTail(v)
  {
  }

  /** The poll loop stops at the first matching read, or at the 251st read,
      and waits one tick after every read that did not match. */
  lemma {:induction false} PollStops(chip: nat -> Bit, c: nat, ack: int, errors: nat)
    requires errors <= 250
    ensures 1 <= PollReads(chip, c, ack, errors) <= 251 - errors
    ensures forall j :: c <= j < c + PollReads(chip, c, ack, errors) - 1 ==> chip(j) != ack
    ensures chip(c + PollReads(chip, c, ack, errors) - 1) == ack
         || PollReads(chip, c, ack, errors) == 251 - errors
    decreases 250 - errors
  {
    if chip(c) != ack && errors + 1 <= 250 {
      var n := PollReads(chip, c + 1, ack, errors + 1);
      PollStops(chip, c + 1, ack, errors + 1);
      assert PollReads(chip, c, ack, errors) == 1 + n;
      assert c + (1 + n) - 1 == c + 1 + n - 1;
    }
  }

  /** The poll loop only reads SDA and waits. */
  lemma {:induction false} PollInert(chip: nat -> Bit, c: nat, ack: int, errors: nat)
    requires errors <= 250
    ensures Inert(PollWave(chip, c, ack, errors))
    decreases 250 - errors
  {
    if chip(c) != ack && errors + 1 <= 250 {
      PollInert(chip, c + 1, ack, errors + 1);
    }
  }

  /** The poll loop waits one tick after every read that did not match. */
  lemma {:induction false} PollWaits(chip: nat -> Bit, c: nat, ack: int, errors: nat)
    requires errors <= 250
    ensures Count(PollWave(chip, c, ack, errors), Sleep(Poll))
         == PollReads(chip, c, ack, errors)
            - (if chip(c + PollReads(chip, c, ack, errors) - 1) == ack then 1 else 0)
    decreases 250 - errors
  {
    if chip(c) != ack && errors + 1 <= 250 {
      var n := PollReads(chip, c + 1, ack, errors + 1);
      var rest := PollWave(chip, c + 1, ack, errors + 1);
      PollWaits(chip, c + 1, ack, errors + 1);
      var head := [SdaRead(chip(c)), Sleep(Poll)];
      CountAppend(head, rest, Sleep(Poll));
      assert PollWave(chip, c, ack, errors) == head + rest;
      assert head[1..] == [Sleep(Poll)] && head[1..][1..] == [];
      assert Count(head, Sleep(Poll)) == 1;
      assert c + (1 + n) - 1 == c + 1 + n - 1;
    } else if chip(c) != ack {
      var head := [SdaRead(chip(c)), Sleep(Poll)];
      assert head[1..] == [Sleep(Poll)] && head[1..][1..] == [];
      assert Count(head, Sleep(Poll)) == 1;
    } else {
      var only := [SdaRead(chip(c))];
      assert only[1..] == [];
      assert Count(only, Sleep(Poll)) == 0;
    }
  }

  /** What `_recv_ack` returns: the read taken after the loop, which is not
      the loop's last observation. */
  function AckValue(chip: nat -> Bit, c: nat, ack: int): Bit
  {
    chip(c + PollReads(chip, c, ack, 0))
  }

  /** Because the returned value is a fresh read, a chip that answers ack
      on the first poll and then changes its level makes `_recv_ack` return
      the other level, although the loop saw ack. */
  lemma AckFreshRead(ack: Bit)
    ensures var chip := (k: nat) => if k == 0 then ack else 1 - ack;
      && PollReads(chip, 0, ack, 0) == 1 && chip(0) == ack
      && AckValue(chip, 0, ack) == 1 - ack
  {
  }

  function AckHead(): seq<Event>
  {
    [SdaDir(In), Sleep(Before), SclHigh, Sleep(After)]
  }

  function AckTail(v: Bit): seq<Event>
  {
    [SdaRead(v), Sleep(Before), SclLow, Sleep(After), SdaDir(Out)]
  }

  /** The whole of `_recv_ack` when its first read is read number c. */
  function AckWave(chip: nat -> Bit, c: nat, ack: int): seq<Event>
  {
    AckHead() + PollWave(chip, c, ack, 0) + AckTail(AckValue(chip, c, ack))
  }

  lemma {:induction false} InertQuiet(w: Wires, es: seq<Event>)
    requires Inert(es)
    ensures SdaOnlyWhileSclLow(w, es)
    ensures Count(es, SclHigh) == 0
    decreases |es|
  {
    if es != [] {
      InertQuiet(w, es[1..]);
    }
  }

  /** Releasing SDA and raising SCL decode to nothing. */
  lemma AckHeadOnBus(w: Wires)
    requires Ready(w)
    ensures Replay(w, AckHead()) == w.(sdaDir := In, scl := true, armed := true)
    ensures Symbols(w, AckHead()) == []
  {
  }

  /** The final read, SCL low and SDA driven again: one acknowledge slot,
      back where the phase started. */
  lemma AckTailOnBus(w: Wires, v: Bit)
    requires Ready(w)
    ensures Replay(w.(sdaDir := In, scl := true, armed := true), AckTail(v)) == w
    ensures Symbols(w.(sdaDir := In, scl := true, armed := true), AckTail(v)) == [AckSlot]
  {
  }

  /** `_recv_ack` releases SDA for one clock pulse (the acknowledge slot),
      then drives it again with the level it had, and leaves SCL low. */
  lemma AckOnBus(w: Wires, chip: nat -> Bit, c: nat, ack: int)
    requires Ready(w)
    ensures Symbols(w, AckWave(chip, c, ack)) == [AckSlot]
    ensures Replay(w, AckWave(chip, c, ack)) == w
  {
    var h, p, t := AckHead(), PollWave(chip, c, ack, 0), AckTail(AckValue(chip, c, ack));
    var u := w.(sdaDir := In, scl := true, armed := true);
    AckHeadOnBus(w);
    assert Replay(u, p) == u && Symbols(u, p) == [] by {
      PollInert(chip, c, ack, 0);
      InertOnBus(u, p);
    }
    AckTailOnBus(w, AckValue(chip, c, ack));
    Compose3(w, h, p, t);
  }

  /** Neither end of the acknowledge phase writes SDA. */
  lemma AckEdgesQuiet(w: Wires, x: Wires, v: Bit)
    ensures SdaOnlyWhileSclLow(w, AckHead()) && SdaOnlyWhileSclLow(x, AckTail(v))
  {
  }

  /** Only the head of the acknowledge phase raises SCL. */
  lemma AckEdgesPulse(v: Bit)
    ensures Count(AckHead(), SclHigh) == 1 && Count(AckTail(v), SclHigh) == 0
  {
  }

  /** `_recv_ack` never writes SDA. */
  lemma AckQuiet(w: Wires, chip: nat -> Bit, c: nat, ack: int)
    ensures SdaOnlyWhileSclLow(w, AckWave(chip, c, ack))
  {
    var h, p, t := AckHead(), PollWave(chip, c, ack, 0), AckTail(AckValue(chip, c, ack));
    assert SdaOnlyWhileSclLow(Replay(w, h), p) by {
      PollInert(chip, c, ack, 0);
      InertQuiet(Replay(w, h), p);
    }
    AckEdgesQuiet(w, Replay(w, h + p), AckValue(chip, c, ack));
    SdaOnlyCompose(w, h, p);
    SdaOnlyCompose(w, h + p, t);
  }

  /** `_recv_ack` raises SCL once: the acknowledge clock. */
  lemma AckPulses(chip: nat -> Bit, c: nat, ack: int)
    ensures Count(AckWave(chip, c, ack), SclHigh) == 1
  {
    var h, p, t := AckHead(), PollWave(chip, c, ack, 0), AckTail(AckValue(chip, c, ack));
    assert Count(p, SclHigh) == 0 by {
      PollInert(chip, c, ack, 0);
      InertQuiet(Idle, p);
    }
    AckEdgesPulse(AckValue(chip, c, ack));
    CountAppend(h, p, SclHigh);
    CountAppend(h + p, t, SclHigh);
  }

}
