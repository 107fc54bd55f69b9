/** The DFRobot GP8403 driver object: its pins, the events it produces on
    them, the SDA levels it reads back, and the register writes it hands to
    the I2C peripheral. */
module GP8403 {
  import opened Bus
  import opened Waveform
  import opened Frames
  import opened StoreScript

  /** `mode` of `set_dac_out_range` for a 0-5 V output. */
  const OutputRange5V := 0
  /** `mode` of `set_dac_out_range` for a 0-10 V output. */
  const OutputRange10V := 17

  // The channel constants the module exports.
  const Channel0 := 1
  const Channel1 := 2
  const ChannelAll := 3

  /** The register `set_dac_out_range` writes. */
  const OutPutSetRange := 0x01
  /** The channel 0 data register; channel 1's is this shifted left by one. */
  const ConfigCurrentReg := 0x02

  /** One `writeto_mem(device, register, data)` on the I2C peripheral. */
  datatype RegWrite = RegWrite(device: int, register: int, data: int)

  /** The register writes of `_send_data(data, channel)`. */
  function DataWrites(device: int, data: int, channel: int): seq<RegWrite>
  {
    if channel == 0 then [RegWrite(device, ConfigCurrentReg, data)]
    else if channel == 1 then [RegWrite(device, ConfigCurrentReg * 2, data)]
    else [RegWrite(device, ConfigCurrentReg, data), RegWrite(device, ConfigCurrentReg * 2, data)]
  }

  /** Whether some write of ws goes to register reg. */
  predicate Writes(ws: seq<RegWrite>, reg: int)
  {
    exists k :: 0 <= k < |ws| && ws[k].register == reg
  }

  /** `_send_data` makes one write for channel 0 or 1 and two for any
      other channel, each of the data to the device: into register 0x02
      exactly when the channel is not 1 and into register 0x04 exactly when
      it is not 0, 0x02 first, and into no other register. */
  lemma DataWritesRegisters(device: int, data: int, channel: int)
    ensures var ws := DataWrites(device, data, channel);
      && |ws| == (if channel == 0 || channel == 1 then 1 else 2)
      && (forall k :: 0 <= k < |ws| ==> ws[k].device == device && ws[k].data == data)
      && (forall k :: 0 <= k < |ws| ==> ws[k].register == 0x02 || ws[k].register == 0x04)
      && (Writes(ws, 0x02) <==> channel != 1)
      && (Writes(ws, 0x04) <==> channel != 0)
      && ws[0].register == (if channel == 1 then 0x04 else 0x02)
      && ws[|ws| - 1].register == (if channel == 0 then 0x02 else 0x04)
  {
    var ws := DataWrites(device, data, channel);
    if channel != 1 {
      assert ws[0].register == 0x02;
    }
    if channel != 0 {
      assert ws[|ws| - 1].register == 0x04;
    }
  }

  /** With the exported constants, `Channel0` (= 1) selects the register
      0x04 and `Channel1` (= 2) selects both registers, because
      `_send_data` compares the channel with 0 and 1. */
  lemma ExportedChannels(device: int, data: int)
    ensures !Writes(DataWrites(device, data, Channel0), 0x02)
    ensures Writes(DataWrites(device, data, Channel0), 0x04)
    ensures |DataWrites(device, data, Channel1)| == 2
    ensures Writes(DataWrites(device, data, Channel1), 0x02)
    ensures Writes(DataWrites(device, data, Channel1), 0x04)
    ensures DataWrites(device, data, ChannelAll) == DataWrites(device, data, Channel1)
  {
    DataWritesRegisters(device, data, Channel0);
    DataWritesRegisters(device, data, Channel1);
    assert DataWrites(device, data, Channel0)[0].register == 0x04;
  }

  /** The full-scale voltage, in millivolts, after `set_dac_out_range(mode)`
      when it was v before. */
  function FullScale(mode: int, v: int): int
  {
    if mode == OutputRange5V then 5000
    else if mode == OutputRange10V then 10000
    else v
  }

  /** Setting the range keeps the full scale one of the two the chip has,
      and setting it twice is setting it once. */
  lemma FullScaleStays(mode: int, v: int)
    requires v == 5000 || v == 10000
    ensures FullScale(mode, v) == 5000 || FullScale(mode, v) == 10000
    ensures FullScale(mode, FullScale(mode, v)) == FullScale(mode, v)
  {
  }

  /** Of two range settings, the later one decides the full scale when it
      names a range; otherwise the earlier one still does. */
  lemma FullScaleLastWins(m1: int, m2: int, v: int)
    ensures m2 == OutputRange5V || m2 == OutputRange10V
        ==> FullScale(m2, FullScale(m1, v)) == FullScale(m2, v)
    ensures m2 != OutputRange5V && m2 != OutputRange10V
        ==> FullScale(m2, FullScale(m1, v)) == FullScale(m1, v)
  {
  }

  class DfrobotGP8403 {
    /** The chip's 7-bit I2C address. */
    const addr: int
    /** The levels the chip puts on SDA: the k-th read of SDA (k from 0)
        sees chip(k). */
    const chip: nat -> Bit

    /** Output levels of the SCL and SDA pins, and SDA's direction. */
    var scl: bool
    var sda: bool
    var sdaDir: Dir
    /** How many times SDA has been read. */
    var readCount: nat
    /** Everything done on the pins so far. */
    var trace: seq<Event>
    /** Full-scale output voltage in millivolts. */
    var voltage: int
    /** Everything handed to the I2C peripheral so far. */
    var writes: seq<RegWrite>

    /** The full scale is one of the two ranges the chip has. */
    ghost predicate Valid()
      reads this
    {
      voltage == 5000 || voltage == 10000
    }

    /** The fields the pin-level methods leave alone. */
    twostate predicate KeepsRegisters()
      reads this
    {
      voltage == old(voltage) && writes == old(writes)
    }

    /** `__init__`: 0-5 V full scale, on an idle bus. Building the I2C
        peripheral is not part of this model. */
    constructor(addr: int, chip: nat -> Bit)
      ensures Valid()
      ensures this.addr == addr && this.chip == chip
      ensures voltage == 5000 && writes == [] && trace == [] && readCount == 0
      ensures scl && sda && sdaDir == Out
    {
      this.addr := addr;
      this.chip := chip;
      scl, sda, sdaDir := true, true, Out;
      readCount := 0;
      trace := [];
      voltage := 5000;
      writes := [];
    }

    /** `self._scl.high()`. */
    method RaiseScl()
      modifies this
      ensures KeepsRegisters()
      ensures trace == old(trace) + [SclHigh] && readCount == old(readCount)
      ensures scl && sda == old(sda) && sdaDir == old(sdaDir)
    {
      scl := true;
      trace := trace + [SclHigh];
    }

    /** `self._scl.low()`. */
    method LowerScl()
      modifies this
      ensures KeepsRegisters()
      ensures trace == old(trace) + [SclLow] && readCount == old(readCount)
      ensures !scl && sda == old(sda) && sdaDir == old(sdaDir)
    {
      scl := false;
      trace := trace + [SclLow];
    }

    /** `self._sda.high()`. */
    method RaiseSda()
      modifies this
      ensures KeepsRegisters()
      ensures trace == old(trace) + [SdaHigh] && readCount == old(readCount)
      ensures scl == old(scl) && sda && sdaDir == old(sdaDir)
    {
      sda := true;
      trace := trace + [SdaHigh];
    }

    /** `self._sda.low()`. */
    method LowerSda()
      modifies this
      ensures KeepsRegisters()
      ensures trace == old(trace) + [SdaLow] && readCount == old(readCount)
      ensures scl == old(scl) && !sda && sdaDir == old(sdaDir)
    {
      sda := false;
      trace := trace + [SdaLow];
    }

    /** `machine.Pin(self._sda, d)`: make SDA an input or an output. */
    method SetSdaDir(d: Dir)
      modifies this
      ensures KeepsRegisters()
      ensures trace == old(trace) + [SdaDir(d)] && readCount == old(readCount)
      ensures scl == old(scl) && sda == old(sda) && sdaDir == d
    {
      sdaDir := d;
      trace := trace + [SdaDir(d)];
    }

    /** `machine.Pin(self._scl, d)`: SCL is always driven, so only the trace records it. */
    method SetSclDir(d: Dir)
      modifies this
      ensures KeepsRegisters()
      ensures trace == old(trace) + [SclDir(d)] && readCount == old(readCount)
      ensures scl == old(scl) && sda == old(sda) && sdaDir == old(sdaDir)
    {
      trace := trace + [SclDir(d)];
    }

    /** `utime.sleep(...)`, by the name of the pause. */
    method Wait(p: Pause)
      modifies this
      ensures KeepsRegisters()
      ensures trace == old(trace) + [Sleep(p)] && readCount == old(readCount)
      ensures scl == old(scl) && sda == old(sda) && sdaDir == old(sdaDir)
    {
      trace := trace + [Sleep(p)];
    }

    /** `_initializeI2C()`: the pins go back to the I2C peripheral, which leaves the bus idle. */
    method RestoreBus()
      modifies this
      ensures KeepsRegisters()
      ensures trace == old(trace) + [RestoreI2C] && readCount == old(readCount)
      ensures scl && sda && sdaDir == Out
    {
      scl, sda, sdaDir := true, true, Out;
      trace := trace + [RestoreI2C];
    }

    /** `self._sda.value()`: the next level the chip drives. */
    method ReadSda() returns (v: Bit)
      modifies this
      ensures KeepsRegisters()
      ensures v == chip(old(readCount)) && readCount == old(readCount) + 1
      ensures trace == old(trace) + [SdaRead(v)]
      ensures scl == old(scl) && sda == old(sda) && sdaDir == old(sdaDir)
    {
      v := chip(readCount);
      readCount := readCount + 1;
      trace := trace + [SdaRead(v)];
    }

    /** `_start_signal`: ends with both lines low. */
    method StartSignal()
      modifies this
      ensures KeepsRegisters()
      ensures trace == old(trace) + StartWave && readCount == old(readCount)
      ensures !scl && !sda && sdaDir == old(sdaDir)
    {
      RaiseScl();
      RaiseSda();
      Wait(Before);
      LowerSda();
      Wait(After);
      LowerScl();
      Wait(Total);
    }

    /** `_stop_signal`: ends with both lines high. */
    method StopSignal()
      modifies this
      ensures KeepsRegisters()
      ensures trace == old(trace) + StopWave && readCount == old(readCount)
      ensures scl && sda && sdaDir == old(sdaDir)
    {
      LowerSda();
      Wait(Before);
      RaiseScl();
      Wait(Total);
      RaiseSda();
      Wait(Total);
    }

    /** The polling loop of `_recv_ack`: read SDA until it reads ack, waiting
        one tick after each read that does not; give up once 251 reads
        have failed. */
    method PollSda(ack: int)
      modifies this
      ensures KeepsRegisters()
      ensures trace == old(trace) + PollWave(chip, old(readCount), ack, 0)
      ensures readCount == old(readCount) + PollReads(chip, old(readCount), ack, 0)
      ensures scl == old(scl) && sda == old(sda) && sdaDir == old(sdaDir)
    {
      ghost var t0, c0 := trace, readCount;
      var errorTime := 0;
      var v := ReadSda();
      while v != ack
        invariant KeepsRegisters()
        invariant scl == old(scl) && sda == old(sda) && sdaDir == old(sdaDir)
        invariant 0 <= errorTime <= 250
        invariant v == chip(c0 + errorTime) && readCount == c0 + errorTime + 1
        invariant trace == t0 + Misses(chip, c0, errorTime) + [SdaRead(v)]
        invariant forall k :: c0 <= k < c0 + errorTime ==> chip(k) != ack
        decreases 250 - errorTime
      {
        ghost var t, e := trace, errorTime;
        Wait(Poll);
        errorTime := errorTime + 1;
        if errorTime > 250 {
          PollGiveUp(chip, c0, ack, e, t0, t, trace);
          return;
        }
        MissMore(chip, c0, e, t0);
        v := ReadSda();
      }
      PollMatchAt(chip, c0, ack, 0, errorTime);
    }

    /** `_recv_ack(ack)`: release SDA, raise SCL, poll SDA until it reads
        ack or 251 polls have failed, read SDA once more and return that,
        lower SCL and drive SDA again. */
    method RecvAck(ack: int) returns (r: int)
      modifies this
      ensures KeepsRegisters()
      ensures trace == old(trace) + AckWave(chip, old(readCount), ack)
      ensures readCount == old(readCount) + PollReads(chip, old(readCount), ack, 0) + 1
      ensures r == AckValue(chip, old(readCount), ack)
      ensures !scl && sda == old(sda) && sdaDir == Out
    {
      ghost var t0, c0 := trace, readCount;
      SetSdaDir(In);
      Wait(Before);
      RaiseScl();
      Wait(After);
      ghost var t1 := trace;
      ghost var n := PollReads(chip, c0, ack, 0);
      PollSda(ack);
      assert readCount == c0 + n;
      ghost var t2 := trace;
      var ackLevel := ReadSda();
      assert readCount == c0 + n + 1;
      Wait(Before);
      LowerScl();
      Wait(After);
      SetSdaDir(Out);
      r := ackLevel;
      AckAssemble(chip, c0, ack, n, r, t0, t1, t2, trace);
    }

    /** `_send_byte(data, ack, bits, flag)`: the low `bits` bits of
        `data & 0xFF`, most significant first, one clock pulse each; then
        either the acknowledge phase, whose result it returns, or SDA low
        and SCL high, returning `ack` unchanged. */
    method SendByte(data: int, ack: int, bits: int, flag: bool) returns (r: int)
      modifies this
      ensures KeepsRegisters()
      ensures trace == old(trace) + ByteWave(chip, old(readCount), Send(data, ack, bits, flag))
      ensures readCount == old(readCount) + ByteReads(chip, old(readCount), Send(data, ack, bits, flag))
      ensures r == ByteResult(chip, old(readCount), Send(data, ack, bits, flag))
      ensures flag ==> !scl && sdaDir == Out
      ensures !flag ==> scl && !sda && sdaDir == old(sdaDir)
    {
      ghost var t0, c0 := trace, readCount;
      var i := bits;
      var d := data % 256;
      while i > 0
        invariant KeepsRegisters() && sdaDir == old(sdaDir)
        invariant i <= bits && (0 <= i || i == bits)
        invariant trace == t0 + Cells(Bits(d), Times(bits), Times(i)) && readCount == c0
      {
        i := i - 1;
        ghost var t, e := trace, if BitOf(d, i) then SdaHigh else SdaLow;
        // data & (1 << i) is non-zero exactly when bit i of data is set
        if BitOf(d, i) {
          RaiseSda();
        } else {
          LowerSda();
        }
        Wait(Before);
        RaiseScl();
        Wait(Total);
        LowerScl();
        Wait(After);
        CellStep(d, Times(bits), i, t0, t, e, trace);
      }
      ghost var t1 := trace;
      if flag {
        r := RecvAck(ack);
      } else {
        LowerSda();
        RaiseScl();
        r := ack;
      }
      ByteAssemble(chip, c0, Send(data, ack, bits, flag), t0, t1, trace);
    }

    /** One call of the store sequence: `_start_signal`, `_stop_signal`,
        `_send_byte` or the long sleep. */
    method Perform(op: Op)
      modifies this
      ensures KeepsRegisters()
      ensures trace == old(trace) + OpWave(chip, old(readCount), op)
      ensures readCount == old(readCount) + OpReads(chip, old(readCount), op)
    {
      match op {
        case Start => StartSignal();
        case Stop => StopSignal();
        case Byte(s) => var ignored := SendByte(s.data, s.ack, s.bits, s.flag);
        case Delay => Wait(StoreDelay);
      }
    }

    /** `store`: make both pins outputs, run the calls of the store
        sequence in order, and hand the pins back to the I2C peripheral. */
    method Store()
      modifies this
      ensures KeepsRegisters()
      ensures trace == old(trace) + StoreTrace(chip, old(readCount), addr)
      ensures readCount == old(readCount) + StoreReads(chip, old(readCount), addr)
      ensures scl && sda && sdaDir == Out
    {
      ghost var t0, c0 := trace, readCount;
      SetSclDir(Out);
      SetSdaDir(Out);
      ghost var pre := trace;
      var ops := PartsOps(StoreParts(addr));
      ghost var goal, total := pre + OpsWave(chip, c0, ops), c0 + OpsReads(chip, c0, ops);
      var k := 0;
      while k < |ops|
        invariant 0 <= k <= |ops|
        invariant KeepsRegisters()
        invariant trace + OpsWave(chip, readCount, ops[k..]) == goal
        invariant readCount + OpsReads(chip, readCount, ops[k..]) == total
      {
        ghost var t, r := trace, readCount;
        Perform(ops[k]);
        OpsPeel(chip, ops, k, goal, total, t, r, trace, readCount);
        k := k + 1;
      }
      assert ops[k..] == [];
      ghost var mid := trace;
      RestoreBus();
      SessionAssemble(chip, c0, StoreParts(addr), t0, pre, mid, trace);
    }

    /** `set_dac_out_range(mode)`: 0 selects a 5 V full scale, 17 a 10 V
        one, anything else leaves it; the mode is written to register 0x01
        in every case. */
    method SetDacOutRange(mode: int)
      requires Valid()
      modifies this
      ensures Valid()
      ensures mode == OutputRange5V ==> voltage == 5000
      ensures mode == OutputRange10V ==> voltage == 10000
      ensures mode != OutputRange5V && mode != OutputRange10V ==> voltage == old(voltage)
      ensures voltage == FullScale(mode, old(voltage))
      ensures writes == old(writes) + [RegWrite(addr, OutPutSetRange, mode)]
      ensures trace == old(trace) && readCount == old(readCount)
      ensures scl == old(scl) && sda == old(sda) && sdaDir == old(sdaDir)
    {
      if mode == OutputRange5V {
        voltage := 5000;
      } else if mode == OutputRange10V {
        voltage := 10000;
      }
      writes := writes + [RegWrite(addr, OutPutSetRange, mode)];
    }

    /** `_send_data(data, channel)`: the register writes of DataWrites. */
    method SendData(data: int, channel: int)
      requires Valid()
      modifies this
      ensures Valid()
      ensures writes == old(writes) + DataWrites(addr, data, channel)
      ensures trace == old(trace) && readCount == old(readCount) && voltage == old(voltage)
      ensures scl == old(scl) && sda == old(sda) && sdaDir == old(sdaDir)
    {
      if channel == 0 {
        writes := writes + [RegWrite(addr, ConfigCurrentReg, data)];
      } else if channel == 1 {
        writes := writes + [RegWrite(addr, ConfigCurrentReg * 2, data)];
      } else {
        writes := writes + [RegWrite(addr, ConfigCurrentReg, data)];
        writes := writes + [RegWrite(addr, ConfigCurrentReg * 2, data)];
      }
    }
  }
}
