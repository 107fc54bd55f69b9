/** The two wires of the store protocol as the driver sees them (what it
    drives, what it samples, how long it waits) and as a receiver on the bus
    sees them (START and STOP conditions and clocked data bits, in the sense
    of sections 3.1.3 and 3.1.4 of the NXP I2C-bus specification UM10204). */
module Bus {

  /** Direction of a GPIO line. */
  datatype Dir = In | Out

  /** The waits of the driver, by name rather than by duration. */
  datatype Pause = Before | After | Total | Poll | StoreDelay

  /** A level read from a pin: 0 or 1. */
  type Bit = b: int | 0 <= b <= 1

  /** One observable action of the driver on its two pins. */
  datatype Event =
    | SclHigh | SclLow
    | SdaHigh | SdaLow
    | SclDir(sclTo: Dir)
    | SdaDir(sdaTo: Dir)
    | SdaRead(level: Bit)
    | Sleep(pause: Pause)
    | RestoreI2C

  /** What a receiver on the bus decodes: a START or STOP condition, a data
      bit clocked in while the driver holds SDA, or a clock pulse while the
      driver has released SDA to the chip (the acknowledge slot). */
  datatype Sym = StartC | StopC | Data(one: bool) | AckSlot

  /** Bus state: the levels the driver puts on SCL and SDA, the direction of
      SDA, and whether SCL has risen with no START/STOP since (so that its
      falling edge completes a bit). */
  datatype Wires = Wires(scl: bool, sda: bool, sdaDir: Dir, armed: bool)

  /** Both lines released high, SDA an output: the idle bus. */
  const Idle := Wires(true, true, Out, false)

  /** A START condition: SDA falls while SCL is high. */
  predicate IsStart(w: Wires, e: Event)
  {
    e == SdaLow && w.sdaDir == Out && w.scl && w.sda
  }

  /** A STOP condition: SDA rises while SCL is high. */
  predicate IsStop(w: Wires, e: Event)
  {
    e == SdaHigh && w.sdaDir == Out && w.scl && !w.sda
  }

  /** The effect of one event on the bus state. */
  function Step(w: Wires, e: Event): Wires
  {
    match e
    case SclHigh => w.(scl := true, armed := w.armed || !w.scl)
    case SclLow => w.(scl := false, armed := false)
    case SdaHigh => w.(sda := true, armed := w.armed && !IsStop(w, e))
    case SdaLow => w.(sda := false, armed := w.armed && !IsStart(w, e))
    case SdaDir(d) => w.(sdaDir := d)
    case RestoreI2C => Idle
    case _ => w
  }

  /** What a receiver decodes from one event. */
  function Emit(w: Wires, e: Event): seq<Sym>
  {
    if IsStart(w, e) then [StartC]
    else if IsStop(w, e) then [StopC]
    else if e == SclLow && w.scl && w.armed then
      (if w.sdaDir == Out then [Data(w.sda)] else [AckSlot])
    else []
  }

  /** The end state and the decoded symbols of a trace. */
  datatype Outcome = Outcome(end: Wires, syms: seq<Sym>)

  function Run(w: Wires, es: seq<Event>): Outcome
    decreases |es|
  {
    if es == [] then Outcome(w, [])
    else
      var o := Run(Step(w, es[0]), es[1..]);
      Outcome(o.end, Emit(w, es[0]) + o.syms)
  }

  /** The bus state after a whole trace. */
  function Replay(w: Wires, es: seq<Event>): Wires
  {
    Run(w, es).end
  }

  /** Everything a receiver decodes from a whole trace. */
  function Symbols(w: Wires, es: seq<Event>): seq<Sym>
  {
    Run(w, es).syms
  }

  /** Replay and Symbols compose over concatenated traces. */
  lemma {:induction false} Compose(w: Wires, a: seq<Event>, b: seq<Event>)
    ensures Replay(w, a + b) == Replay(Replay(w, a), b)
    ensures Symbols(w, a + b) == Symbols(w, a) + Symbols(Replay(w, a), b)
    decreases |a|
  {
    if a == [] {
      assert a + b == b;
    } else {
      assert (a + b)[0] == a[0] && (a + b)[1..] == a[1..] + b;
      Compose(Step(w, a[0]), a[1..], b);
    }
  }

  /** Compose, for a trace already known to be a concatenation. */
  lemma ComposeAt(w: Wires, a: seq<Event>, b: seq<Event>, ab: seq<Event>)
    requires ab == a + b
    ensures Replay(w, ab) == Replay(Replay(w, a), b)
    ensures Symbols(w, ab) == Symbols(w, a) + Symbols(Replay(w, a), b)
  {
    Compose(w, a, b);
  }

  /** Compose, for three traces. */
  lemma Compose3(w: Wires, a: seq<Event>, b: seq<Event>, c: seq<Event>)
    ensures Replay(w, a + b + c) == Replay(Replay(Replay(w, a), b), c)
    ensures Symbols(w, a + b + c)
         == Symbols(w, a) + Symbols(Replay(w, a), b) + Symbols(Replay(Replay(w, a), b), c)
  {
    Compose(w, a, b);
    Compose(w, a + b, c);
  }

  /** Appending one event applies one step. */
  lemma Snoc(w: Wires, s: seq<Event>, e: Event)
    ensures Replay(w, s + [e]) == Step(Replay(w, s), e)
    ensures Symbols(w, s + [e]) == Symbols(w, s) + Emit(Replay(w, s), e)
  {
    Compose(w, s, [e]);
    var u := Replay(w, s);
    assert [e][0] == e && [e][1..] == [];
    assert Run(Step(u, e), []) == Outcome(Step(u, e), []);
    assert Run(u, [e]) == Outcome(Step(u, e), Emit(u, e) + []);
  }

  /** Every write to SDA in the trace happens while SCL is low. */
  predicate SdaOnlyWhileSclLow(w: Wires, es: seq<Event>)
    decreases |es|
  {
    es == [] ||
    ((es[0] == SdaHigh || es[0] == SdaLow ==> !w.scl) && SdaOnlyWhileSclLow(Step(w, es[0]), es[1..]))
  }

  /** Two traces that each write SDA only while SCL is low make one. */
  lemma {:induction false} SdaOnlyCompose(w: Wires, a: seq<Event>, b: seq<Event>)
    requires SdaOnlyWhileSclLow(w, a)
    requires SdaOnlyWhileSclLow(Replay(w, a), b)
    ensures SdaOnlyWhileSclLow(w, a + b)
    decreases |a|
  {
    if a == [] {
      assert a + b == b;
    } else {
      assert (a + b)[0] == a[0] && (a + b)[1..] == a[1..] + b;
      SdaOnlyCompose(Step(w, a[0]), a[1..], b);
    }
  }

  /** An SDA write while SCL is low is never a START or STOP. */
  lemma {:induction false} QuietWhileSclLow(w: Wires, es: seq<Event>)
    requires SdaOnlyWhileSclLow(w, es)
    ensures StartC !in Symbols(w, es) && StopC !in Symbols(w, es)
    decreases |es|
  {
    if es != [] {
      QuietWhileSclLow(Step(w, es[0]), es[1..]);
    }
  }

  /** Concatenation regroups: stated once so that callers need not rely on
      sequence extensionality in a large context. */
  lemma Assoc(a: seq<Event>, b: seq<Event>, c: seq<Event>)
    ensures a + b + c == a + (b + c)
  {
  }

  /** Three pieces appended one after the other make their concatenation. */
  lemma Chain3(t0: seq<Event>, a: seq<Event>, b: seq<Event>, c: seq<Event>,
               t1: seq<Event>, t2: seq<Event>, t3: seq<Event>)
    requires t1 == t0 + a && t2 == t1 + b && t3 == t2 + c
    ensures t3 == t0 + (a + b + c)
  {
    Assoc(t0, a, b);
    Assoc(t0, a + b, c);
  }

  /** How many times x occurs in xs. */
  function Count<T(==)>(xs: seq<T>, x: T): nat
    decreases |xs|
  {
    if xs == [] then 0 else (if xs[0] == x then 1 else 0) + Count(xs[1..], x)
  }

  lemma {:induction false} CountAppend<T>(a: seq<T>, b: seq<T>, x: T)
    ensures Count(a + b, x) == Count(a, x) + Count(b, x)
    decreases |a|
  {
    if a == [] {
      assert a + b == b;
    } else {
      CountAppend(a[1..], b, x);
      assert (a + b)[1..] == a[1..] + b;
    }
  }
}
