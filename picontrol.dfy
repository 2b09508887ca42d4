/**
  The second bridge script (Pi_Control): the same loop, with the frame
  transmission moved into `sendMsg`, which updates the global `outputOld`, and
  three packet kinds instead of one. `rcinput` renders roll, negated pitch, yaw
  and throttle, unscaled; `set` renders the trim deviations with two decimals
  and the throttle scale as an integer; `pid` renders the axis name and the
  three gains with one decimal.

  How a binary float is written with a fixed number of decimals (`%.2f`,
  `%.1f`) is outside the model, as is `str()` of a non-string value: both are
  parameters, `fixed` and `show`.
 */
module PiControl {
  import opened Wrappers
  import opened Format
  import opened Checksum
  import opened Framing
  import opened Python
  import opened Bridge

  // ------------------------------------------------------------ payloads

  /** `"%d,%d,%d,%d" % (p['roll'], -p['pitch'], p['yaw'], p['thr'])`. */
  function RcPayload(p: Value): Result<string>
  {
    var roll :- Lookup(p, "roll");
    var pitch :- Lookup(p, "pitch");
    var negPitch :- Negate(pitch);
    var yaw :- Lookup(p, "yaw");
    var thr :- Lookup(p, "thr");
    var a :- FormatD(roll);
    var b :- FormatD(negPitch);
    var c :- FormatD(yaw);
    var d :- FormatD(thr);
    Ok(Csv([a, b, c, d]))
  }

  /** `"%s,%.2f,%.2f,%d" % (p['type'], p['rdev'], p['pdev'], p['thrscl'])`. */
  function SetPayload(p: Value, fixed: (real, nat) -> string, show: Value -> string): Result<string>
  {
    var kind :- Lookup(p, "type");
    var rdev :- Lookup(p, "rdev");
    var pdev :- Lookup(p, "pdev");
    var thrscl :- Lookup(p, "thrscl");
    var b :- FormatF(rdev, 2, fixed);
    var c :- FormatF(pdev, 2, fixed);
    var d :- FormatD(thrscl);
    Ok(Csv([FormatS(kind, show), b, c, d]))
  }

  /** `"%s,%.1f,%.1f,%.1f" % (p['pid'], p['kp'], p['ki'], p['kd'])`. */
  function PidPayload(p: Value, fixed: (real, nat) -> string, show: Value -> string): Result<string>
  {
    var axis :- Lookup(p, "pid");
    var kp :- Lookup(p, "kp");
    var ki :- Lookup(p, "ki");
    var kd :- Lookup(p, "kd");
    var b :- FormatF(kp, 1, fixed);
    var c :- FormatF(ki, 1, fixed);
    var d :- FormatF(kd, 1, fixed);
    Ok(Csv([FormatS(axis, show), b, c, d]))
  }

  /** `Field(p, k, v)`: `p` is an object whose field `k` is `v`. */
  predicate Field(p: Value, k: string, v: Value)
  {
    p.Obj? && k in p.fields && p.fields[k] == v
  }

  /** `NumberField(p, k, x)`: `p` is an object whose field `k` is a number (int, bool or float) of value `x`. */
  predicate NumberField(p: Value, k: string, x: real)
  {
    p.Obj? && k in p.fields && Numeric(p.fields[k]) == Some(x)
  }

  /** The fixed-decimal rendering never produces a comma (Python's `%.Nf` writes digits, a sign and a point). */
  ghost predicate CommaFree(fixed: (real, nat) -> string)
  {
    forall x: real, places: nat :: ',' !in fixed(x, places)
  }

  /**
    Unlike the first script, this one sends yaw before throttle and does not
    scale the throttle; a receiver reads the four integers back in that order.
   */
  lemma RcPayloadOrder(p: Value, roll: int, pitch: int, yaw: int, thr: int)
    requires Field(p, "roll", Int(roll)) && Field(p, "pitch", Int(pitch))
    requires Field(p, "yaw", Int(yaw)) && Field(p, "thr", Int(thr))
    ensures RcPayload(p) == Ok(Csv(DecAll([roll, -pitch, yaw, thr])))
    ensures ParseInts(Split(RcPayload(p).value)) == Some([roll, -pitch, yaw, thr])
  {
    var xs := [roll, -pitch, yaw, thr];
    assert DecAll(xs) == [Dec(roll), Dec(-pitch), Dec(yaw), Dec(thr)];
    IntRowRoundTrip(xs);
  }

  /**
    A `set` payload is the literal `set`, the two deviations with two decimals and
    the integer throttle scale; split at the commas, it gives those four fields.
   */
  lemma SetPayloadFields(p: Value, rdev: real, pdev: real, thrscl: int,
                         fixed: (real, nat) -> string, show: Value -> string)
    requires Field(p, "type", Str("set"))
    requires NumberField(p, "rdev", rdev) && NumberField(p, "pdev", pdev) && Field(p, "thrscl", Int(thrscl))
    requires CommaFree(fixed)
    ensures SetPayload(p, fixed, show).Ok?
    ensures var r := SetPayload(p, fixed, show).value;
      && r[..4] == "set,"
      && Split(r) == ["set", fixed(rdev, 2), fixed(pdev, 2), Dec(thrscl)]
  {
    var fields := ["set", fixed(rdev, 2), fixed(pdev, 2), Dec(thrscl)];
    DecAlphabet(thrscl);
    assert ',' !in fixed(rdev, 2) && ',' !in fixed(pdev, 2);
    SplitCsv(fields);
    assert Csv(fields) == "set," + Csv(fields[1..]);
  }

  /**
    A `pid` payload begins with the `pid` field (the axis), then the three gains
    with one decimal; split at the commas, it gives those four fields.
   */
  lemma PidPayloadFields(p: Value, axis: string, kp: real, ki: real, kd: real,
                         fixed: (real, nat) -> string, show: Value -> string)
    requires Field(p, "pid", Str(axis)) && ',' !in axis
    requires NumberField(p, "kp", kp) && NumberField(p, "ki", ki) && NumberField(p, "kd", kd)
    requires CommaFree(fixed)
    ensures PidPayload(p, fixed, show).Ok?
    ensures Split(PidPayload(p, fixed, show).value) == [axis, fixed(kp, 1), fixed(ki, 1), fixed(kd, 1)]
  {
    var fields := [axis, fixed(kp, 1), fixed(ki, 1), fixed(kd, 1)];
    assert ',' !in fixed(kp, 1) && ',' !in fixed(ki, 1) && ',' !in fixed(kd, 1);
    SplitCsv(fields);
  }

  /** A `set` packet without `rdev` ends the process with a `KeyError`. */
  lemma SetPayloadMissingField(p: Value, fixed: (real, nat) -> string, show: Value -> string)
    requires Field(p, "type", Str("set")) && "rdev" !in p.fields
    ensures SetPayload(p, fixed, show) == Err(KeyError("rdev"))
  {
  }

  // ------------------------------------------------------ the main loop

  /** The three packet types the loop answers, and the payload each one renders. */
  function Payload(kind: Value, p: Value, fixed: (real, nat) -> string, show: Value -> string): Option<Result<string>>
  {
    if kind == Str("rcinput") then Some(RcPayload(p))
    else if kind == Str("set") then Some(SetPayload(p, fixed, show))
    else if kind == Str("pid") then Some(PidPayload(p, fixed, show))
    else None
  }

  /**
    One pass of `while True` in `main`. The three `if`s are tested one after the
    other on the same `p['type']`, so at most one of them holds; a type that is
    none of the three does nothing.
   */
  function Step(s: State, data: string, parse: string -> Option<Value>, readStr: string,
                fixed: (real, nat) -> string, show: Value -> string): Outcome
  {
    match parse(NormalizeQuotes(data))
    case None => Outcome([], s, Some(ValueError))
    case Some(p) =>
      var (shown, readStrOld) := PrintIfChanged(s.readStrOld, readStr);
      var s1 := s.(readStrOld := readStrOld);
      match Lookup(p, "type")
      case Err(e) => Outcome(shown, s1, Some(e))
      case Ok(kind) =>
        match Payload(kind, p, fixed, show)
        case None => Outcome(shown, s1, None)
        case Some(Err(e)) => Outcome(shown, s1, Some(e))
        case Some(Ok(str)) =>
          var (sent, outputOld) := Transmit(s.outputOld, str);
          Outcome(shown + sent, s1.(outputOld := outputOld), None)
  }

  /** The parsed packet's `type`, when it is one the loop answers. */
  predicate Answered(parsed: Option<Value>)
  {
    && parsed.Some?
    && Lookup(parsed.value, "type").Ok?
    && Lookup(parsed.value, "type").value in {Str("rcinput"), Str("set"), Str("pid")}
  }

  /**
    A packet of type `rcinput`, `set` or `pid` whose payload renders causes exactly
    one `sendMsg`: one frame written, of that payload. Any other packet writes
    nothing and leaves `outputOld` as it was.
   */
  lemma StepDispatch(s: State, data: string, parse: string -> Option<Value>, readStr: string,
                     fixed: (real, nat) -> string, show: Value -> string)
    ensures var o, parsed := Step(s, data, parse, readStr, fixed, show), parse(NormalizeQuotes(data));
      if Answered(parsed) && o.error == None then
        var payload := Payload(Lookup(parsed.value, "type").value, parsed.value, fixed, show).value.value;
        && Writes(o.events) == [Frame(payload)]
        && o.next.outputOld == Some(Frame(payload))
      else
        && Writes(o.events) == []
        && o.next.outputOld == s.outputOld
  {
    var o, parsed := Step(s, data, parse, readStr, fixed, show), parse(NormalizeQuotes(data));
    if parsed.Some? {
      PrintIfChangedSpec(s.readStrOld, readStr);
      var kind := Lookup(parsed.value, "type");
      if kind.Ok? {
        var r := Payload(kind.value, parsed.value, fixed, show);
        if r.Some? && r.value.Ok? {
          var (shown, _) := PrintIfChanged(s.readStrOld, readStr);
          var (sent, _) := Transmit(s.outputOld, r.value.value);
          TraceAppend(shown, sent);
          TransmitSpec(s.outputOld, r.value.value);
        }
      }
    }
  }

  /**
    The telemetry line is printed, first, exactly when it differs from
    `readStrOld`, which then holds it.
   */
  lemma StepTelemetry(s: State, data: string, parse: string -> Option<Value>, readStr: string,
                      fixed: (real, nat) -> string, show: Value -> string)
    requires parse(NormalizeQuotes(data)).Some?
    ensures var o := Step(s, data, parse, readStr, fixed, show);
      && o.next.readStrOld == Some(readStr)
      && o.events == (if s.readStrOld == Some(readStr) then [] else [Print(readStr)])
                     + Step(s.(readStrOld := Some(readStr)), data, parse, readStr, fixed, show).events
  {
  }

  // ------------------------------------------------------- the process

  /** The script's running state: the global `outputOld`, `main`'s `readStrOld`, and everything printed and written so far. */
  class Controller {
    var readStrOld: Slot
    var outputOld: Slot
    var trace: seq<Event>

    constructor ()
      ensures Slots() == Initial && trace == []
    {
      readStrOld := None;
      outputOld := None;
      trace := [];
    }

    function Slots(): State
      reads this
    {
      State(readStrOld, outputOld)
    }

    /**
      `sendMsg(str)`: frame the payload, print the frame and remember it in
      `outputOld` if it differs from the last one, then write and flush it.
     */
    method SendMsg(str: string)
      modifies this
      ensures var (sent, next) := Transmit(old(outputOld), str);
        trace == old(trace) + sent && outputOld == next
      ensures readStrOld == old(readStrOld)
    {
      var chk := ComputeChksum(str);
      var output := str + "*" + Hex2(chk) + "\r\n";
      assert output == Frame(str);
      if outputOld != Some(output) {
        trace := trace + [Print(output)];
        outputOld := Some(output);
      }
      trace := trace + [Write(output), Flush];
    }

    /** One iteration of the loop; returns the exception that ends the process, if any. */
    method Iterate(data: string, parse: string -> Option<Value>, readStr: string,
                   fixed: (real, nat) -> string, show: Value -> string) returns (error: Option<Error>)
      modifies this
      ensures var o := Step(old(Slots()), data, parse, readStr, fixed, show);
        && trace == old(trace) + o.events
        && Slots() == o.next
        && error == o.error
    {
      var normalized := NormalizeQuotes(data);
      var parsed := parse(normalized);
      if parsed.None? {
        return Some(ValueError);
      }
      var p := parsed.value;
      if readStrOld != Some(readStr) {
        trace := trace + [Print(readStr)];
        readStrOld := Some(readStr);
      }
      var kind := Lookup(p, "type");
      if kind.Err? {
        return Some(kind.error);
      }
      if kind.value == Str("rcinput") {
        var str := RcPayload(p);
        if str.Err? {
          return Some(str.error);
        }
        SendMsg(str.value);
      }
      if kind.value == Str("set") {
        var str := SetPayload(p, fixed, show);
        if str.Err? {
          return Some(str.error);
        }
        SendMsg(str.value);
      }
      if kind.value == Str("pid") {
        var str := PidPayload(p, fixed, show);
        if str.Err? {
          return Some(str.error);
        }
        SendMsg(str.value);
      }
      return None;
    }
  }
}
