# Quadcopter Pi bridge: command-to-serial-frame encoding

This project models, in Dafny, the core of the Raspberry Pi bridge that takes
JSON control packets arriving over UDP and writes them to a flight controller
on a serial port as checksummed ASCII frames. Two near-duplicate bridge
scripts are modelled:

- `pyserver.py` answers `rcinput` packets only, sending
  `roll,-pitch,1070+10*thr,yaw`. It also defines `readlineCR`, a
  one-character-at-a-time line reader over the globals `rv` and `clean`. The
  main loop no longer calls it.
- `Pi_Quad/Pi_Control/pyserver.py` sends `roll,-pitch,yaw,thr` for `rcinput`,
  with no throttle scaling. It also answers `set` (trim) and `pid` (gain)
  packets. All three go through `sendMsg`.

Both scripts share the same pieces, and each is defined once here:

- The checksum `chksum`: for each character, add its code point, shift left by
  one bit, keep the low byte.
- The frame `payload*%2x\r\n`: the checksum in lower-case hex, two columns,
  padded with a space (not a zero) below 16.
- Quote normalisation: every `'` in the datagram becomes `"`.
- Print-if-changed, through the last-value slots `readStrOld` (telemetry) and
  `outputOld` (frames). There is a single `outputOld` for every message kind,
  and it only decides whether a frame is *printed*. The frame is written and
  flushed every time.

Modules:

- `Format`: Python's `%d`, `%x` and `%2x`, plus comma joining. `%d`, `%2x` and
  the comma join each come with a parser and a round-trip proof. `%x` is only
  the building block of `%2x` and has no parser of its own.
- `Checksum`: the checksum as a fold, and the source's loop as a method proved
  against it.
- `Framing`: frame assembly, and the receiver's frame check.
- `Python`: JSON values, and the Python 2 operations the scripts apply to them,
  with the exceptions they raise.
- `Bridge`: the output trace, the slots, quote normalisation, and transmission.
- `PyServer` and `PiControl`: one main-loop iteration per script, as a pure
  function `Step` and as a class method `Iterate` that updates the slots in
  place and is proved equal to `Step`.

The model's outputs are traces of `Print`, `Write` and `Flush` events. Neither
script catches an exception, so a `KeyError`, `TypeError` or `ValueError` ends
the process. An iteration's outcome therefore carries the exception that ended
it, if any, together with the events that happened before it.

Proved beyond what the scripts state:

- Only the last seven characters of a payload affect the checksum
  (`Checksum.ChksumLastSeven`). Each step shifts earlier contributions one bit
  further out of the byte, and the eighth character from the end is already
  weighted by 2 to the 8th.
- Every frame either script writes passes a receiver's frame check and yields
  its payload back.

Behaviour of the code that the model keeps as written:

- Frames are written even when they equal the previous frame. Only the print
  is suppressed.
- There is one suppression slot, `outputOld`, shared by all message kinds.
- A packet of unknown type is silently ignored.
- A malformed packet or a missing field raises an exception, which ends the
  process.
- The checksum field is padded with a space below 16.
- The two scripts' `rcinput` layouts differ, and each is modelled as written.

## Model

| member | source | states |
|---|---|---|
| `Checksum.ComputeChksum` | pyserver.py:13-17 | the loop `c = ((c + ord(a)) << 1) % 256` over the payload returns the checksum fold of the payload |
| `Checksum.ChksumRange` | pyserver.py:14-16 | the checksum is below 256, is 0 for the empty payload, and is even for any non-empty payload |
| `Checksum.ChksumSnoc` | Pi_Quad/Pi_Control/pyserver.py:16-20 | fold equation: `chksum(s + [a]) == ((chksum(s) + ord(a)) * 2) % 256` |
| `Checksum.FoldAppend` | Pi_Quad/Pi_Control/pyserver.py:18-19 | running the loop over `s + t` is running it over `s`, then over `t` from the accumulator left by `s` |
| `Checksum.OrderSensitive` | pyserver.py:15-16 | the checksum depends on the order of the characters: `"abc"` gives 86 and its rotation `"bca"` gives 94 (reordering characters before the last seven changes nothing, see `ChksumLastSeven`) |
| `Checksum.ChksumLastSeven` | pyserver.py:13-17 | payloads ending in the same seven or more characters have the same checksum, whatever precedes them |
| `Format.Hex2` | pyserver.py:65 | `%2x` of a byte is two characters: a space and the low digit below 16, otherwise the high and low lower-case hex digits |
| `Format.Hex2RoundTrip` | pyserver.py:65 | the two-column hex field of a byte reads back as that byte |
| `Format.Hex2Canonical` | pyserver.py:65 | every field the hex reader accepts is the `%2x` rendering of the value it reads |
| `Format.DecRoundTrip` | pyserver.py:60 | `%d` of any integer reads back as that integer |
| `Format.DecInjective` | pyserver.py:60 | two integers render the same under `%d` exactly when they are equal |
| `Format.DecAlphabet` | pyserver.py:60 | `%d` output is non-empty digits with an optional leading minus, and contains no `,`, `*`, CR or LF |
| `Format.SplitCsv` | pyserver.py:60 | splitting a comma-joined row of comma-free fields at the commas gives back exactly those fields |
| `Format.IntRowRoundTrip` | Pi_Quad/Pi_Control/pyserver.py:53 | a row of `%d` fields joined by commas reads back as the same integers, in order |
| `Framing.FrameShape` | pyserver.py:64-65 | the frame is the payload, `*`, a hex field that reads back as the payload's checksum, then CR LF; its length is the payload's plus 5 |
| `Framing.FrameLowDigitEven` | pyserver.py:62-65 | the checksum field's second column is an even hex digit; its first column is a space exactly when the checksum is below 16 |
| `Framing.FrameRoundTrip` | Pi_Quad/Pi_Control/pyserver.py:25-28 | the receiver's frame check accepts every frame `sendMsg` builds and yields its payload |
| `Framing.FrameCanonical` | Pi_Quad/Pi_Control/pyserver.py:28 | every line the frame check accepts is exactly the frame of the payload it yields |
| `Framing.FrameInjective` | Pi_Quad/Pi_Control/pyserver.py:28-29 | two frames are equal exactly when their payloads are, so comparing with `outputOld` compares payloads |
| `Python.Lookup` | pyserver.py:59-60 | `p[key]` yields the field of an object, raises `KeyError` when the key is absent, and raises `TypeError` when `p` is not an object |
| `Python.Negate` | pyserver.py:60 | `-v` succeeds exactly on numbers (int, bool, float) and negates their value; anything else raises `TypeError` |
| `Python.Trunc` | pyserver.py:60 | `%d` of a float uses its truncation toward zero, which lies within 1 of the float, on the same side as zero |
| `Python.FormatD` | pyserver.py:60 | `%d` succeeds exactly on numbers; it renders an int in decimal, a bool as 1 or 0, and a float as the decimal of its truncation toward zero; anything else raises `TypeError` |
| `Python.FormatF` | Pi_Quad/Pi_Control/pyserver.py:56 | `%.Nf` succeeds exactly on numbers, and renders the number's value with N places; anything else raises `TypeError` |
| `PyServer.Throttle` | pyserver.py:60 | `1070 + thr*10` is defined exactly on numbers: an int stays an int, `1070 + 10*thr`, and any number's value becomes `1070 + thr*10`; anything else raises `TypeError` |
| `PyServer.RcPayloadOrder` | pyserver.py:60 | the `rcinput` payload is `dec(roll),dec(-pitch),dec(1070+10*thr),dec(yaw)`, and a receiver reads those four integers back in that order |
| `PyServer.RcPayloadMissingField` | pyserver.py:60 | a packet without `thr` (after a numeric `pitch`) raises `KeyError('thr')` |
| `Bridge.NormalizeQuotes` | pyserver.py:38 | quote replacement keeps the length and changes exactly the `'` positions, each to `"` |
| `Bridge.NormalizeQuotesIdempotent` | Pi_Quad/Pi_Control/pyserver.py:41 | no `'` survives the replacement, and replacing twice is replacing once |
| `Bridge.PrintIfChangedSpec` | pyserver.py:52-54 | a line is printed exactly when it differs from its slot; nothing is written; the slot then holds the line |
| `Bridge.TransmitSpec` | Pi_Quad/Pi_Control/pyserver.py:22-33 | `sendMsg` writes its frame once, always, and ends with a flush; it prints the frame exactly when it differs from `outputOld`, which then holds the frame |
| `Bridge.TransmitTwice` | Pi_Quad/Pi_Control/pyserver.py:29-33 | two consecutive sends of one payload give two serial writes and at most one print |
| `Bridge.SharedSlotCrossTalk` | Pi_Quad/Pi_Control/pyserver.py:12-33 | `outputOld` is one global for all kinds: a different payload sent in between makes a repeated payload print again |
| `Bridge.TransmitWritesValidFrame` | Pi_Quad/Pi_Control/pyserver.py:25-32 | the frame `sendMsg` writes passes the receiver's frame check and yields the payload sent |
| `PyServer.StepTelemetry` | pyserver.py:43-54 | the serial line is printed first, exactly when it differs from `readStrOld`, which then holds it; the rest of the iteration does not depend on the print |
| `PyServer.StepRcInput` | pyserver.py:59-70 | an `rcinput` packet writes and flushes its frame whether or not the frame equals `outputOld`; it prints the frame exactly when it differs; `outputOld` then holds the frame |
| `PyServer.StepOtherWritesNothing` | pyserver.py:59 | a packet that is not `rcinput`, or one that fails to parse, writes nothing and leaves `outputOld` unchanged |
| `PyServer.StepRepeated` | pyserver.py:52-70 | the same `rcinput` datagram and serial line twice in a row: the second iteration prints nothing and still writes and flushes the frame |
| `PyServer.RunWritesFrames` | pyserver.py:35-70 | over any finite run of the loop, every line written to the serial port passes the receiver's frame check |
| `PyServer.Server.Iterate` | pyserver.py:35-70 | one loop iteration updating `readStrOld`, `outputOld` and the output trace in place agrees with `Step` |
| `PyServer.ReadAllAccumulates` | pyserver.py:19-26 | `rv` ends as its start plus every character read; every line `readlineCR` returns is a prefix of the next one, since `rv` is never cleared |
| `PyServer.LineReader.ReadlineCR` | pyserver.py:19-26 | one call appends the character read to `rv`; it returns `rv` and sets `clean = 1` exactly on a carriage return or an empty read; otherwise it returns nothing |
| `PiControl.RcPayloadOrder` | Pi_Quad/Pi_Control/pyserver.py:53 | the `rcinput` payload is `dec(roll),dec(-pitch),dec(yaw),dec(thr)`, unscaled, and reads back as those four integers |
| `PiControl.SetPayloadFields` | Pi_Quad/Pi_Control/pyserver.py:56 | for numeric (int, bool or float) `rdev` and `pdev` and an integer `thrscl`, the `set` payload starts with `set,` and splits into `set`, `rdev` and `pdev` with two decimals, and `thrscl` in decimal |
| `PiControl.PidPayloadFields` | Pi_Quad/Pi_Control/pyserver.py:59 | for a comma-free string `pid` and numeric (int, bool or float) gains, the `pid` payload splits into the `pid` field, then `kp`, `ki`, `kd` with one decimal |
| `PiControl.SetPayloadMissingField` | Pi_Quad/Pi_Control/pyserver.py:56 | a `set` packet without `rdev` raises `KeyError('rdev')` |
| `PiControl.StepDispatch` | Pi_Quad/Pi_Control/pyserver.py:51-60 | a packet of type `rcinput`, `set` or `pid` whose payload renders writes exactly one frame, of that payload, and leaves it in `outputOld`; any other packet writes nothing and leaves `outputOld` unchanged |
| `PiControl.StepTelemetry` | Pi_Quad/Pi_Control/pyserver.py:46-49 | the serial line is printed first, exactly when it differs from `readStrOld`, which then holds it |
| `PiControl.Controller.SendMsg` | Pi_Quad/Pi_Control/pyserver.py:22-33 | `sendMsg`, updating `outputOld` and the trace in place, agrees with `Transmit` and leaves `readStrOld` alone |
| `PiControl.Controller.Iterate` | Pi_Quad/Pi_Control/pyserver.py:38-60 | one loop iteration, calling `SendMsg` for each answered type, agrees with `Step` |

## Left out

- Socket creation, `bind` and `recvfrom`, and opening the serial port. The datagram's text and the line `ser.readline()` returns are inputs to an iteration.
- Serial `read`, `readline`, `write` and `flush`, and `print`. Writes, flushes and prints are events in an output trace. A write cannot fail in the model.
- `json.loads` is a foreign library. It is the parameter `parse`, and `None` stands for the `ValueError` it raises. A JSON document is represented by `Python.Value`.
- `%.2f`, `%.1f`, and `str()` of a non-string value (`None`, a number, a list, a dict) are floating-point and library formatting. They are the parameters `fixed` and `show`; `show` receives the whole JSON value, so `null` and each array are told apart.
- `PyServer.Throttle`: a float throttle is scaled with exact real arithmetic, without IEEE double rounding or overflow. So `%d` of a scaled float may differ from Python's in the last unit, and a throttle so large that `thr*10` overflows to infinity (such as `1e308`) is rendered as a long integer here, where Python raises `OverflowError` and the process ends without a write.
- `Python.FormatF`: an int too large for a double (hundreds of digits) is passed to `fixed` as its exact value; Python 2's `%.2f`/`%.1f` raises `OverflowError` converting it to a float, so the process ends without a write. `PiControl.SetPayloadFields` and `PiControl.PidPayloadFields` claim success on such values for the same reason.
- `Python.Value`: JSON `NaN` and `Infinity` (which Python's parser accepts) are not representable. Neither are the exceptions `%d` raises on them (`ValueError` on NaN, `OverflowError` on infinity).
- `PiControl.StepDispatch`: Python 2.7's `json` yields `unicode` strings, and `%s` of a `unicode` value makes the whole formatted string `unicode`, so every `set` payload, and every `pid` payload whose axis is a string, is `unicode`. The model treats all strings alike and assumes `ser.write` accepts the frame. With the pyserial releases from 2.5 on, `write` refuses a `unicode` argument with `TypeError`: `sendMsg` would then print the frame and end the process at the write, where the model writes and flushes it (`Bridge.TransmitSpec`, `PiControl.Controller.SendMsg`). The `rcinput` payloads are built from `%d` only and are byte strings, so this does not touch them.
- `while True`: the loop is one iteration (`Step`, `Iterate`), plus `PyServer.Run` over a finite sequence of inputs that stops at the first exception.
- `time()` and the unused `start` variables have no effect on behaviour.
- The commented-out lines are not modelled: the `readlineCR`/`clean` handling in `main`, the `sleep`, and the second `readline`.
