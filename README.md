# GP8403 DAC driver: the bit-banged store protocol

This project models the MicroPython driver `DfrobotGP8403` for the DFRobot
GP8403 two-channel DAC. Its core is `store`, which saves the chip's
configuration to non-volatile memory. The chip expects a custom I2C exchange
for this, so the driver takes the SCL and SDA pins away from the I2C
peripheral and drives them by hand. Two register operations of the same
class are modelled as well: `_send_data` and `set_dac_out_range`.

The driver is modelled as a class, `GP8403.DfrobotGP8403`. It holds:

- the SCL and SDA output levels and the direction of SDA;
- a trace of every pin event: a level change, a direction change, a named
  sleep, an SDA read, or the hand-back of the pins to the I2C peripheral;
- a count of SDA reads;
- the full-scale `voltage`;
- the list of register writes handed to the I2C peripheral.

Each method mirrors one routine of the driver, loops included:

- `_start_signal` and `_stop_signal`;
- `_recv_ack`, with its bounded polling loop;
- `_send_byte`, with its MSB-first bit loop;
- `store`;
- `set_dac_out_range` and `_send_data`.

Each pin-level method is proved to append exactly one specification
waveform to the trace. The waveform is a function of the arguments and of
the chip's replies.

The chip is an oracle: the k-th read of SDA sees `chip(k)`.

The waveforms are then replayed through a receiver on the bus, in the sense
of sections 3.1.3 and 3.1.4 of the NXP I2C-bus specification UM10204:

- a START is SDA falling while SCL is high;
- a STOP is SDA rising while SCL is high;
- a data bit is latched when SCL falls, if no condition occurred while SCL
  was high;
- a clock pulse while SDA is released is an acknowledge slot.

The lemmas state what that receiver decodes from each routine and from the
whole of `store`. That is five START…STOP frames carrying the documented
bytes, most significant bit first, with a long pause between the third and
fourth frames.

Modules:

- `Bus`: the events, the receiver (`Step`, `Emit`, `Replay`, `Symbols`),
  and how it composes over concatenated traces.
- `Waveform`: bit order and truncation to 8 bits; the start, stop and bit
  waveforms; the `_recv_ack` polling loop and its bound.
- `Frames`: `_send_byte` as a whole; runs of calls; START…bytes…STOP
  frames.
- `StoreScript`: the fixed call sequence of `store`, and what a receiver
  sees from it.
- `GP8403`: the driver class, its constants and the register operations.

All paths below are relative to the root of the driver's repository.

## Model

| member | source | states |
|---|---|---|
| GP8403.DfrobotGP8403.constructor | python/RP2/DFRobot_GP8403.py:51-71 | A new driver has full scale 5000 mV, no register writes, an empty pin trace, no SDA reads, and an idle bus: both lines high, SDA an output. |
| GP8403.DfrobotGP8403.StartSignal | python/RP2/DFRobot_GP8403.py:172-179 | `_start_signal` appends exactly the start waveform to the trace. It ends with SCL and SDA low. It reads nothing and leaves voltage and register writes unchanged. |
| GP8403.DfrobotGP8403.StopSignal | python/RP2/DFRobot_GP8403.py:181-187 | `_stop_signal` appends exactly the stop waveform to the trace. It ends with both lines high. Nothing else changes. |
| GP8403.DfrobotGP8403.PollSda | python/RP2/DFRobot_GP8403.py:197-201 | The polling loop appends the poll waveform. It makes exactly `PollReads` SDA reads: it stops at the first read equal to `ack`, or once 251 reads have failed. The loop's invariant is that every earlier read missed. |
| GP8403.DfrobotGP8403.RecvAck | python/RP2/DFRobot_GP8403.py:189-207 | `_recv_ack` appends the acknowledge waveform and reads SDA `PollReads + 1` times. It returns the read taken after the loop, and ends with SCL low and SDA an output again. |
| GP8403.DfrobotGP8403.SendByte | python/RP2/DFRobot_GP8403.py:209-229 | `_send_byte` appends the byte waveform: one clock cell per bit of `data & 0xFF`, MSB first, then the acknowledge phase or the no-ack tail. It returns `_recv_ack(ack)` when `flag` is set and `ack` otherwise. With `flag` it ends with SCL low and SDA an output; without it, with SCL high and SDA low. |
| GP8403.DfrobotGP8403.Perform | python/RP2/DFRobot_GP8403.py:138-166 | Each call of the store sequence (start, stop, byte, long sleep) appends its waveform and consumes its reads. |
| GP8403.DfrobotGP8403.Store | python/RP2/DFRobot_GP8403.py:125-169 | `store` appends exactly the store trace: both pins made outputs, the five frames and the pause, and the hand-back to I2C. It ends on an idle bus, and voltage and register writes are unchanged. |
| GP8403.DfrobotGP8403.SetDacOutRange | python/RP2/DFRobot_GP8403.py:93-102 | Mode 0 sets voltage to 5000 and mode 17 sets it to 10000; any other mode leaves it. That is `FullScale(mode, old voltage)`, about which `FullScaleStays` and `FullScaleLastWins` prove more. In every case exactly one write of `mode` to register 0x01 is appended. The pins, the trace and the read count are unchanged. |
| GP8403.DfrobotGP8403.SendData | python/RP2/DFRobot_GP8403.py:114-122 | `_send_data` appends exactly the writes of `DataWrites`. The pins, the trace, the read count and the voltage are unchanged. |
| GP8403.DataWritesRegisters | python/RP2/DFRobot_GP8403.py:114-122 | Channel 0 or 1 gives one write and any other channel gives two. Every write carries the device and the data. Register 0x02 is written iff the channel is not 1, and 0x04 iff the channel is not 0. The first write goes to 0x02 unless the channel is 1, and the last goes to 0x04 unless the channel is 0, so with two writes 0x02 comes first. No other register is written. |
| GP8403.ExportedChannels | python/RP2/DFRobot_GP8403.py:22-27 | Passed to `_send_data`, the exported `CHANNEL0` (1) writes only register 0x04 and `CHANNEL1` (2) writes both registers, in two writes. `CHANNELALL` behaves exactly as `CHANNEL1`. |
| GP8403.FullScaleStays | python/RP2/DFRobot_GP8403.py:93-102 | From a valid full scale, setting the range keeps it at 5000 or 10000. Setting the same range twice equals setting it once. |
| GP8403.FullScaleLastWins | python/RP2/DFRobot_GP8403.py:98-101 | Of two range settings, the later one decides the full scale if it is mode 0 or 17. Otherwise the earlier setting still decides it. |
| Waveform.LowByte | python/RP2/DFRobot_GP8403.py:212 | `data & 0xFF` is below 256 and congruent to `data` modulo 256. |
| Waveform.MsbRoundTrip | python/RP2/DFRobot_GP8403.py:210-218 | The bits sent for `n` bits of `d` are exactly `n` symbols. Shifted into a receiver's register, they give back `d mod 2^n`. |
| Waveform.MsbIndex | python/RP2/DFRobot_GP8403.py:213-218 | The k-th bit sent (k from 0) is bit `n-1-k` of the data. |
| Waveform.CellsOnBus | python/RP2/DFRobot_GP8403.py:213-223 | Starting from SCL low, the bit loop decodes to exactly its data bits, MSB first. It changes SDA only while SCL is low, and leaves the bus ready for the next bit. |
| Waveform.CellsPulses | python/RP2/DFRobot_GP8403.py:213-223 | The bit loop raises SCL exactly `bits` times, or never when `bits <= 0`. |
| Waveform.StartOnBus | python/RP2/DFRobot_GP8403.py:172-179 | The start waveform drops SDA while SCL is high (a START condition). It ends with both lines low. A receiver sees a START, preceded by a STOP only if SDA was low on entry. |
| Waveform.StopOnBus | python/RP2/DFRobot_GP8403.py:181-187 | The stop waveform raises SDA while SCL is high (a STOP condition). It ends on an idle bus. A receiver sees a STOP, preceded by a START only if both lines were high on entry. |
| Waveform.PollStops | python/RP2/DFRobot_GP8403.py:197-201 | The loop always terminates after 1 to 251 reads. Every read but the last missed `ack`, and the last one matched unless all 251 were used. |
| Waveform.PollWaits | python/RP2/DFRobot_GP8403.py:197-201 | The loop sleeps one tick after every missed read, and after no matching read. That is at most 251 waits. |
| Waveform.PollInert | python/RP2/DFRobot_GP8403.py:197-201 | The loop only reads SDA and sleeps. It never drives a pin or changes a direction. |
| Waveform.AckFreshRead | python/RP2/DFRobot_GP8403.py:202 | The value returned is a fresh read, not the loop's observation. A chip that answers `ack` on the first poll and then changes level makes `_recv_ack` return the other level. |
| Waveform.AckOnBus | python/RP2/DFRobot_GP8403.py:189-207 | From a ready bus, the acknowledge phase decodes to exactly one acknowledge slot, and it returns the bus to the same state. |
| Waveform.AckQuiet | python/RP2/DFRobot_GP8403.py:192-206 | The acknowledge phase never writes SDA while SCL is high. |
| Waveform.AckPulses | python/RP2/DFRobot_GP8403.py:195-204 | The acknowledge phase raises SCL exactly once. |
| Frames.ByteOnBus | python/RP2/DFRobot_GP8403.py:209-229 | From SCL low, `_send_byte` decodes to its low `bits` bits of `data & 0xFF`, MSB first, plus an acknowledge slot when `flag` is set. SDA changes only while SCL is low, so a receiver sees no START and no STOP inside a byte. It ends ready for the next byte with `flag`, or with SCL high and SDA low without it. |
| Frames.BytePulses | python/RP2/DFRobot_GP8403.py:213-229 | `_send_byte` raises SCL exactly `Times(bits) + 1` times: once per bit (none when `bits <= 0`), plus once in the acknowledge phase or the no-ack tail. |
| Frames.BytesOnBus | python/RP2/DFRobot_GP8403.py:142-155 | Consecutive `_send_byte` calls decode to the concatenation of their bytes. |
| Frames.FrameOnBus | python/RP2/DFRobot_GP8403.py:146-156 | START, the bytes of a frame, and STOP decode to START, the bytes' symbols, STOP. The frame ends on an idle bus. |
| Frames.FrameStartsLow | python/RP2/DFRobot_GP8403.py:146-156 | Every `_send_byte` of a frame begins with SCL low. |
| StoreScript.StoreOps | python/RP2/DFRobot_GP8403.py:138-166 | `store` runs these calls, frame by frame: [head 0x02 over 3 bits, no ack]; [0x10, 0x03]; [addr<<1, 0x00 ×8], all with ack 1; the long pause; [head 0x02 over 3 bits, no ack]; [0x10, 0x00]. |
| StoreScript.StoreCalls | python/RP2/DFRobot_GP8403.py:138-166 | `store` makes exactly 26 calls. |
| StoreScript.StoreCallKinds | python/RP2/DFRobot_GP8403.py:138-166 | Of those calls, five are `_start_signal`, five are `_stop_signal` and one is the long sleep, which leaves fifteen `_send_byte`. |
| StoreScript.StoreFramed | python/RP2/DFRobot_GP8403.py:138-166 | In each frame of `store`, only the last byte may skip the acknowledge. |
| StoreScript.SessionOnBus | python/RP2/DFRobot_GP8403.py:135-169 | Making both pins outputs, running any well-framed session and handing the pins back decode to the session's frames. The session ends on an idle bus, and every byte in it begins with SCL low. |
| StoreScript.StoreOnBus | python/RP2/DFRobot_GP8403.py:135-169 | Whatever the chip replies, a receiver sees exactly `StoreSyms(addr)`. The bus ends idle, and every `_send_byte` of `store` begins with SCL low. |
| StoreScript.StoreConditions | python/RP2/DFRobot_GP8403.py:138-166 | A receiver sees exactly five STARTs, five STOPs and thirteen acknowledge slots during `store`. |
| StoreScript.HeadBits | python/RP2/DFRobot_GP8403.py:139 | The 3-bit head 0x02 goes out as 0, 1, 0. |
| StoreScript.StoreAddressByte | python/RP2/DFRobot_GP8403.py:147 | For a 7-bit address, the byte sent is `addr << 1` with the R/W bit 0. A receiver recovers the address from it. |

## Left out

- `_initializeI2C` and `begin`: building and reading the MicroPython I2C peripheral is a foreign library. The re-initialisation at the end of `store` is the single trace event `RestoreI2C`, and it leaves the bus idle. The constructor does not build a peripheral.
- `set_dac_out_voltage`: it relies on floating-point division and `int()` truncation. The `dataTransmission` field it sets is not modelled.
- Real time: the sleeps are named pauses (`Before`, `After`, `Total`, `Poll`, `StoreDelay`), not durations. No claim is made about how long the long pause lasts.
- The chip and the pins' electrical behaviour: SDA reads come from the oracle `chip`, and no claim is made about what the chip acknowledges.
- GP8403.DfrobotGP8403.Store: the 26 calls of `store` are run as a loop over the operation list `PartsOps(StoreParts(addr))`, not as straight-line calls. `StoreScript.StoreOps` proves that list equals the source's sequence. The results of the `_send_byte` calls are discarded, as in the source.
- GP8403.DfrobotGP8403.Perform: this dispatch from an operation to the routine it names has no counterpart in the source. It exists only for the loop in `Store`.
- GP8403.DfrobotGP8403.PollSda: the polling loop of `_recv_ack` is a method of its own, which `RecvAck` calls.
- GP8403.DfrobotGP8403.SetSclDir: SCL is always driven, so its direction is recorded only in the trace and is not a field.
- GP8403.DfrobotGP8403.SetDacOutRange: requires `Valid()` (the full scale is 5000 or 10000), which the constructor establishes and both register methods keep. The Python object has no such check.
- GP8403.DfrobotGP8403.SendData: also requires `Valid()`, only to keep the class invariant. `_send_data` does not read the voltage.
- GP8403.DfrobotGP8403.Store: the receiver-level facts (frames, no START/STOP inside a byte, SCL low before each byte) are proved about the trace by `StoreScript.StoreOnBus`. `Store`'s own contract states the trace and the end state. `StoreOnBus` assumes SDA is high when `store` begins, which holds on an idle bus.
- The `CHANNEL0`/`CHANNEL1`/`CHANNELALL` values (1, 2, 3) do not match the 0/1 comparisons in `_send_data`. The model keeps the code's behaviour, and `GP8403.ExportedChannels` states the consequence.
- `_recv_ack` returns the read after the loop, as the code does, even though a comment in the code doubts it. `Waveform.AckFreshRead` shows the consequence, and the model does not change that behaviour.
