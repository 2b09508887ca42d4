/**
  The first bridge script: one iteration of its main loop takes a datagram and
  the line read from the serial port, prints the line if it changed, and for
  an `rcinput` packet builds the frame `roll,-pitch,1070+10*thr,yaw*hh\r\n`,
  prints it if it differs from the last frame and writes it to the serial port
  in every case. It also holds `readlineCR`, a character-at-a-time line
  reader over the globals `rv` and `clean`, which the loop no longer calls.

  The socket, the serial port and `json.loads` are outside the model: the
  datagram's text and the serial line are inputs, the parser is a parameter
  (`None` when it raises), and prints and writes are the output trace.
 */
module PyServer {
  import opened Wrappers
  import opened Format
  import opened Checksum
  import opened Framing
  import opened Python
  import opened Bridge

  /** `1070 + v*10`: the throttle stick scaled to a pulse width; numbers only, anything else raises. */
  function Throttle(v: Value): (r: Result<Value>)
    ensures v.Int? ==> r == Ok(Int(1070 + 10 * v.i))
    ensures r.Ok? <==> Numeric(v).Some?
    ensures r.Ok? ==> Numeric(r.value) == Some(1070.0 + Numeric(v).value * 10.0)
    ensures r.Err? ==> r.error == TypeError
  {
    match v
    case Int(i) => Ok(Int(1070 + i * 10))
    case Bool(b) => Ok(Int(1070 + BoolInt(b) * 10))
    case Float(x) => Ok(Float(1070.0 + x * 10.0))
    case _ => Err(TypeError)
  }

  /**
    `"%d,%d,%d,%d" % (p['roll'], -p['pitch'], 1070 + p['thr']*10, p['yaw'])`,
    with Python's order of evaluation: the tuple left to right, then the
    conversions left to right.
   */
  function RcPayload(p: Value): Result<string>
  {
    var roll :- Lookup(p, "roll");
    var pitch :- Lookup(p, "pitch");
    var negPitch :- Negate(pitch);
    var thr :- Lookup(p, "thr");
    var throttle :- Throttle(thr);
    var yaw :- Lookup(p, "yaw");
    var a :- FormatD(roll);
    var b :- FormatD(negPitch);
    var c :- FormatD(throttle);
    var d :- FormatD(yaw);
    Ok(Csv([a, b, c, d]))
  }

  /** An object whose four stick fields are integers. */
  predicate RcInts(p: Value, roll: int, pitch: int, thr: int, yaw: int)
  {
    && p.Obj?
    && "roll" in p.fields && p.fields["roll"] == Int(roll)
    && "pitch" in p.fields && p.fields["pitch"] == Int(pitch)
    && "thr" in p.fields && p.fields["thr"] == Int(thr)
    && "yaw" in p.fields && p.fields["yaw"] == Int(yaw)
  }

  /**
    The payload is roll, negated pitch, scaled throttle and yaw, in that order,
    and a receiver splitting it at the commas reads those four integers back.
   */
  lemma RcPayloadOrder(p: Value, roll: int, pitch: int, thr: int, yaw: int)
    requires RcInts(p, roll, pitch, thr, yaw)
    ensures RcPayload(p) == Ok(Csv(DecAll([roll, -pitch, 1070 + 10 * thr, yaw])))
    ensures ParseInts(Split(RcPayload(p).value)) == Some([roll, -pitch, 1070 + 10 * thr, yaw])
  {
    var xs := [roll, -pitch, 1070 + 10 * thr, yaw];
    assert DecAll(xs) == [Dec(roll), Dec(-pitch), Dec(1070 + 10 * thr), Dec(yaw)];
    IntRowRoundTrip(xs);
  }

  /** A missing stick field ends the process with a `KeyError` naming the first one missing. */
  lemma RcPayloadMissingField(p: Value)
    requires p.Obj? && "roll" in p.fields && "pitch" in p.fields && Numeric(p.fields["pitch"]).Some?
    requires "thr" !in p.fields
    ensures RcPayload(p) == Err(KeyError("thr"))
  {
  }

  // ------------------------------------------------------ the main loop

  /** The parsed packet is an object whose `type` is the string `rcinput`. */
  predicate IsRcInput(p: Value)
  {
    Lookup(p, "type") == Ok(Str("rcinput"))
  }

  /**
    One pass of `while True` in `main`: normalise quotes, parse (a failure
    raises before anything else happens), print the serial line if it changed,
    then for an `rcinput` packet transmit its frame.
   */
  function Step(s: State, data: string, parse: string -> Option<Value>, readStr: string): Outcome
  {
    match parse(NormalizeQuotes(data))
    case None => Outcome([], s, Some(ValueError))
    case Some(p) =>
      var (shown, readStrOld) := PrintIfChanged(s.readStrOld, readStr);
      var s1 := s.(readStrOld := readStrOld);
      match Lookup(p, "type")
      case Err(e) => Outcome(shown, s1, Some(e))
      case Ok(t) =>
        if t != Str("rcinput") then Outcome(shown, s1, None)
        else
          match RcPayload(p)
          case Err(e) => Outcome(shown, s1, Some(e))
          case Ok(payload) =>
            var (sent, outputOld) := Transmit(s.outputOld, payload);
            Outcome(shown + sent, s1.(outputOld := outputOld), None)
  }

  /**
    The telemetry line is printed, first, exactly when it differs from
    `readStrOld`, which then holds it; the rest of the iteration is what it would
    have been had the slot held the line already.
   */
  lemma StepTelemetry(s: State, data: string, parse: string -> Option<Value>, readStr: string)
    requires parse(NormalizeQuotes(data)).Some?
    ensures var o := Step(s, data, parse, readStr);
      && o.next.readStrOld == Some(readStr)
      && o.events == (if s.readStrOld == Some(readStr) then [] else [Print(readStr)])
                     + Step(s.(readStrOld := Some(readStr)), data, parse, readStr).events
  {
  }

  /**
    An `rcinput` packet whose payload renders writes its frame to the serial port
    and flushes, whether or not the frame equals `outputOld`; the frame is printed
    exactly when it differs, and `outputOld` then holds it.
   */
  lemma StepRcInput(s: State, data: string, parse: string -> Option<Value>, readStr: string)
    requires parse(NormalizeQuotes(data)).Some?
    requires IsRcInput(parse(NormalizeQuotes(data)).value)
    requires RcPayload(parse(NormalizeQuotes(data)).value).Ok?
    ensures var o, f := Step(s, data, parse, readStr), Frame(RcPayload(parse(NormalizeQuotes(data)).value).value);
      && o.error == None
      && Writes(o.events) == [f]
      && o.events[|o.events| - 1] == Flush
      && Prints(o.events) == Prints(PrintIfChanged(s.readStrOld, readStr).0) + (if s.outputOld == Some(f) then [] else [f])
      && o.next.outputOld == Some(f)
  {
    var p := parse(NormalizeQuotes(data)).value;
    var payload := RcPayload(p).value;
    var (shown, _) := PrintIfChanged(s.readStrOld, readStr);
    var (sent, _) := Transmit(s.outputOld, payload);
    TraceAppend(shown, sent);
    PrintIfChangedSpec(s.readStrOld, readStr);
    TransmitSpec(s.outputOld, payload);
  }

  /** Any packet that is not `rcinput` writes nothing and leaves `outputOld` alone. */
  lemma StepOtherWritesNothing(s: State, data: string, parse: string -> Option<Value>, readStr: string)
    requires parse(NormalizeQuotes(data)).Some? ==> !IsRcInput(parse(NormalizeQuotes(data)).value)
    ensures var o := Step(s, data, parse, readStr);
      Writes(o.events) == [] && o.next.outputOld == s.outputOld
  {
    PrintIfChangedSpec(s.readStrOld, readStr);
  }

  /**
    The same `rcinput` datagram and serial line twice in a row: the second
    iteration prints nothing and still writes and flushes the frame.
   */
  lemma StepRepeated(s: State, data: string, parse: string -> Option<Value>, readStr: string)
    requires parse(NormalizeQuotes(data)).Some?
    requires IsRcInput(parse(NormalizeQuotes(data)).value)
    requires RcPayload(parse(NormalizeQuotes(data)).value).Ok?
    ensures var o1 := Step(s, data, parse, readStr);
      var o2 := Step(o1.next, data, parse, readStr);
      o2.events == [Write(Frame(RcPayload(parse(NormalizeQuotes(data)).value).value)), Flush]
  {
  }

  /** An input to one iteration: the datagram's text and the line the serial port returned. */
  datatype Input = Input(data: string, readStr: string)

  /** The main loop over a finite stretch of inputs; it stops at the first exception. */
  function Run(s: State, parse: string -> Option<Value>, inputs: seq<Input>): Outcome
    decreases |inputs|
  {
    if inputs == [] then Outcome([], s, None)
    else
      var o := Step(s, inputs[0].data, parse, inputs[0].readStr);
      if o.error.Some? then o
      else
        var rest := Run(o.next, parse, inputs[1..]);
        Outcome(o.events + rest.events, rest.next, rest.error)
  }

  /** Every line the loop ever writes to the serial port is a well-formed frame whose checksum a receiver accepts. */
  lemma {:induction false} RunWritesFrames(s: State, parse: string -> Option<Value>, inputs: seq<Input>)
    ensures forall f :: f in Writes(Run(s, parse, inputs).events) ==> ParseFrame(f).Some?
    decreases |inputs|
  {
    if inputs != [] {
      var o := Step(s, inputs[0].data, parse, inputs[0].readStr);
      StepWritesFrames(s, inputs[0].data, parse, inputs[0].readStr);
      if o.error.None? {
        var rest := Run(o.next, parse, inputs[1..]);
        RunWritesFrames(o.next, parse, inputs[1..]);
        TraceAppend(o.events, rest.events);
      }
    }
  }

  lemma StepWritesFrames(s: State, data: string, parse: string -> Option<Value>, readStr: string)
    ensures forall f :: f in Writes(Step(s, data, parse, readStr).events) ==> ParseFrame(f).Some?
  {
    var parsed := parse(NormalizeQuotes(data));
    if parsed.Some? {
      PrintIfChangedSpec(s.readStrOld, readStr);
      if IsRcInput(parsed.value) && RcPayload(parsed.value).Ok? {
        StepRcInput(s, data, parse, readStr);
        FrameRoundTrip(RcPayload(parsed.value).value);
      }
    }
  }

  // ------------------------------------------------------- the process

  /** The script's running state: the two slots `main` keeps, and everything printed and written so far. */
  class Server {
    var readStrOld: Slot
    var outputOld: Slot
    var trace: seq<Event>

    constructor ()
      ensures Slots() == Initial && trace == []
    {
      readStrOld := None;
      outputOld := None;
      trace := [];
    }

    function Slots(): State
      reads this
    {
      State(readStrOld, outputOld)
    }

    /** One iteration of the loop, updating the slots in place; returns the exception that ends the process, if any. */
    method Iterate(data: string, parse: string -> Option<Value>, readStr: string) returns (error: Option<Error>)
      modifies this
      ensures var o := Step(old(Slots()), data, parse, readStr);
        && trace == old(trace) + o.events
        && Slots() == o.next
        && error == o.error
    {
      var normalized := NormalizeQuotes(data);
      var parsed := parse(normalized);
      if parsed.None? {
        return Some(ValueError);
      }
      var p := parsed.value;
      if readStrOld != Some(readStr) {
        trace := trace + [Print(readStr)];
        readStrOld := Some(readStr);
      }
      var kind := Lookup(p, "type");
      if kind.Err? {
        return Some(kind.error);
      }
      if kind.value == Str("rcinput") {
        var str := RcPayload(p);
        if str.Err? {
          return Some(str.error);
        }
        var chk := ComputeChksum(str.value);
        var output := str.value + "*" + Hex2(chk) + "\r\n";
        if outputOld != Some(output) {
          trace := trace + [Print(output)];
          outputOld := Some(output);
        }
        trace := trace + [Write(output), Flush];
      }
      return None;
    }
  }

  // ----------------------------------------------------------- readlineCR

  /** The globals `rv` (the line read so far) and `clean` (set once a line is complete). */
  datatype Reader = Reader(rv: string, clean: int)

  /** A read ends a line when it returns a carriage return or nothing (the serial timeout). */
  predicate EndsLine(ch: Option<char>) { ch == None || ch == Some('\r') }

  function CharsOf(ch: Option<char>): string
  {
    if ch.Some? then [ch.value] else []
  }

  /**
    `readlineCR`: append the character read (`ser.read()`, one character or none)
    to `rv`; on a carriage return or an empty read set `clean` and return `rv`,
    otherwise return nothing. It never empties `rv`.
   */
  function ReadCR(r: Reader, ch: Option<char>): (Reader, Option<string>)
  {
    var rv := r.rv + CharsOf(ch);
    if EndsLine(ch) then (Reader(rv, 1), Some(rv)) else (Reader(rv, r.clean), None)
  }

  /** Calls `readlineCR` once per read, collecting what each call returns. */
  function ReadAll(r: Reader, received: seq<Option<char>>): (Reader, seq<string>)
    decreases |received|
  {
    if received == [] then (r, [])
    else
      var (r1, lines) := ReadAll(r, received[..|received| - 1]);
      var (r2, line) := ReadCR(r1, received[|received| - 1]);
      (r2, lines + (if line.Some? then [line.value] else []))
  }

  function AllChars(received: seq<Option<char>>): string
    decreases |received|
  {
    if received == [] then [] else AllChars(received[..|received| - 1]) + CharsOf(received[|received| - 1])
  }

  /**
    Since `rv` is never cleared, it ends as its start plus every character read,
    and each line returned extends the one returned before it: a later "line"
    repeats every earlier one.
   */
  lemma {:induction false} ReadAllAccumulates(r: Reader, received: seq<Option<char>>)
    ensures var (r', lines) := ReadAll(r, received);
      && r'.rv == r.rv + AllChars(received)
      && (forall i :: 0 <= i < |lines| ==> r.rv <= lines[i] <= r'.rv)
      && (forall i, j :: 0 <= i < j < |lines| ==> lines[i] <= lines[j])
    decreases |received|
  {
    if received != [] {
      var init, ch := received[..|received| - 1], received[|received| - 1];
      ReadAllAccumulates(r, init);
      var (r1, lines1) := ReadAll(r, init);
      var (r2, line) := ReadCR(r1, ch);
      var lines := lines1 + (if line.Some? then [line.value] else []);
      assert r2.rv == r1.rv + CharsOf(ch);
      assert forall i :: 0 <= i < |lines1| ==> lines1[i] <= r2.rv by {
        forall i | 0 <= i < |lines1| ensures lines1[i] <= r2.rv {
          PrefixTrans(lines1[i], r1.rv, r2.rv);
        }
      }
      assert r.rv <= r2.rv by { PrefixTrans(r.rv, r1.rv, r2.rv); }
    }
  }

  lemma PrefixTrans(a: string, b: string, c: string)
    requires a <= b && b <= c
    ensures a <= c
  {
    assert c[..|a|] == b[..|a|];
  }

  /** The imperative reader over the two globals. */
  class LineReader {
    var rv: string
    var clean: int

    constructor ()
      ensures rv == "" && clean == 0
    {
      rv := "";
      clean := 0;
    }

    method ReadlineCR(ch: Option<char>) returns (line: Option<string>)
      modifies this
      ensures (Reader(rv, clean), line) == ReadCR(Reader(old(rv), old(clean)), ch)
      ensures rv == old(rv) + CharsOf(ch)
      ensures line.Some? <==> EndsLine(ch)
    {
      rv := rv + CharsOf(ch);
      line := None;
      if ch == Some('\r') || ch == None {
        clean := 1;
        line := Some(rv);
      }
    }
  }
}
