/**
  What both bridge scripts share around the frame: the datagram's quote
  normalisation, the "last value" slots that decide whether a line is printed,
  and the transmission of a payload (frame it, print it if it differs from the
  last frame, then write and flush it whatever the comparison said).

  The process's observable behaviour is a trace of events: lines printed to
  standard output, frames written to the serial port, and flushes.
 */
module Bridge {
  import opened Wrappers
  import opened Python
  import opened Framing

  datatype Event = Print(line: string) | Write(frame: string) | Flush

  /**
    A last-value slot (`readStrOld`, `outputOld`). The scripts start each one at
    the integer 0, which no string equals; `None` stands for that start value.
   */
  type Slot = Option<string>

  /** The slots carried from one iteration of the main loop to the next. */
  datatype State = State(readStrOld: Slot, outputOld: Slot)

  const Initial := State(None, None)

  /** One iteration's events, the slots after it, and the exception that ended the process, if any. */
  datatype Outcome = Outcome(events: seq<Event>, next: State, error: Option<Error>)

  // ------------------------------------------------------ quote normalisation

  /** `data.replace("'", "\"")`: every single quote becomes a double quote. */
  function NormalizeQuotes(data: string): (r: string)
    ensures |r| == |data|
    ensures forall k :: 0 <= k < |data| ==> r[k] == if data[k] == '\'' then '"' else data[k]
  {
    if data == [] then []
    else [if data[0] == '\'' then '"' else data[0]] + NormalizeQuotes(data[1..])
  }

  /** No single quote survives, and normalising twice is normalising once. */
  lemma NormalizeQuotesIdempotent(data: string)
    ensures '\'' !in NormalizeQuotes(data)
    ensures NormalizeQuotes(NormalizeQuotes(data)) == NormalizeQuotes(data)
  {
    var r := NormalizeQuotes(data);
    assert forall k :: 0 <= k < |r| ==> r[k] != '\'';
  }

  // ---------------------------------------------------- print if changed

  /** `if (line != old): print line; old = line`. */
  function PrintIfChanged(slot: Slot, line: string): (seq<Event>, Slot)
  {
    (if slot == Some(line) then [] else [Print(line)], Some(line))
  }

  /** Lines written to standard output, in order. */
  function Prints(events: seq<Event>): seq<string>
  {
    if events == [] then []
    else (if events[0].Print? then [events[0].line] else []) + Prints(events[1..])
  }

  /** Frames written to the serial port, in order. */
  function Writes(events: seq<Event>): seq<string>
  {
    if events == [] then []
    else (if events[0].Write? then [events[0].frame] else []) + Writes(events[1..])
  }

  lemma {:induction false} TraceAppend(a: seq<Event>, b: seq<Event>)
    ensures Prints(a + b) == Prints(a) + Prints(b)
    ensures Writes(a + b) == Writes(a) + Writes(b)
  {
    if a != [] {
      assert (a + b)[1..] == a[1..] + b;
      TraceAppend(a[1..], b);
    } else {
      assert a + b == b;
    }
  }

  /** The line is printed exactly when it differs from the slot, nothing is written, and the slot then holds it. */
  lemma PrintIfChangedSpec(slot: Slot, line: string)
    ensures var (events, next) := PrintIfChanged(slot, line);
      && Prints(events) == (if slot == Some(line) then [] else [line])
      && Writes(events) == []
      && next == Some(line)
  {
  }

  // ---------------------------------------------------------- transmission

  /**
    Sending a payload: build its frame, print the frame if it differs from
    `outputOld`, remember it, then write and flush it unconditionally.
   */
  function Transmit(outputOld: Slot, payload: string): (seq<Event>, Slot)
  {
    var output := Frame(payload);
    var (printed, next) := PrintIfChanged(outputOld, output);
    (printed + [Write(output), Flush], next)
  }

  /**
    Every transmission writes its frame, once, whether or not it equals the last
    one; the frame is printed exactly when it differs from `outputOld`, and
    `outputOld` then holds it.
   */
  lemma TransmitSpec(outputOld: Slot, payload: string)
    ensures var (events, next) := Transmit(outputOld, payload);
      && Writes(events) == [Frame(payload)]
      && Prints(events) == (if outputOld == Some(Frame(payload)) then [] else [Frame(payload)])
      && next == Some(Frame(payload))
      && events[|events| - 1] == Flush
  {
    var output := Frame(payload);
    var (printed, next) := PrintIfChanged(outputOld, output);
    var tail := [Write(output), Flush];
    assert tail[1..] == [Flush] && [Flush][1..] == [];
    assert Writes(tail) == [output] && Prints(tail) == [];
    if outputOld != Some(output) {
      assert [Print(output)][1..] == [];
    }
    TraceAppend(printed, tail);
  }

  /** The same payload sent twice in a row: two serial writes, one print. */
  lemma TransmitTwice(outputOld: Slot, payload: string)
    ensures var (first, slot) := Transmit(outputOld, payload);
      var (second, _) := Transmit(slot, payload);
      && Writes(first + second) == [Frame(payload), Frame(payload)]
      && |Prints(first + second)| == if outputOld == Some(Frame(payload)) then 0 else 1
  {
    var (first, slot) := Transmit(outputOld, payload);
    var (second, _) := Transmit(slot, payload);
    TransmitSpec(outputOld, payload);
    TransmitSpec(slot, payload);
    TraceAppend(first, second);
  }

  /**
    There is one `outputOld` for every kind of message: a different payload sent
    in between makes a repeated payload print again.
   */
  lemma SharedSlotCrossTalk(outputOld: Slot, a: string, b: string)
    requires a != b
    ensures var (_, s1) := Transmit(outputOld, a);
      var (_, s2) := Transmit(s1, b);
      var (third, _) := Transmit(s2, a);
      Prints(third) == [Frame(a)]
  {
    var (_, s1) := Transmit(outputOld, a);
    var (_, s2) := Transmit(s1, b);
    TransmitSpec(outputOld, a);
    TransmitSpec(s1, b);
    TransmitSpec(s2, a);
    FrameInjective(a, b);
  }

  /** Every frame in a transmission's writes is accepted by a receiver and yields the payload sent. */
  lemma TransmitWritesValidFrame(outputOld: Slot, payload: string)
    ensures forall f :: f in Writes(Transmit(outputOld, payload).0) ==> ParseFrame(f) == Some(payload)
  {
    TransmitSpec(outputOld, payload);
    FrameRoundTrip(payload);
  }
}
