/**
  Frame assembly, `"%s*%2x\r\n" % (payload, chksum(payload))`: the payload, an
  asterisk, the checksum in two lower-case hexadecimal columns (space-padded,
  not zero-padded), and a carriage return and line feed. `ParseFrame` is what a
  receiver of the serial line checks; the lemmas prove it accepts exactly the
  frames the bridge builds.
 */
module Framing {
  import opened Wrappers
  import opened Format
  import opened Checksum

  const Terminator := "\r\n"

  function Frame(payload: string): string
  {
    payload + "*" + Hex2(Chksum(payload)) + Terminator
  }

  /** The shape of every frame: five characters longer than its payload, the checksum field after `*`, then CR LF. */
  lemma FrameShape(payload: string)
    ensures var f, n := Frame(payload), |payload|;
      && |f| == n + 5
      && f[..n] == payload
      && f[n] == '*'
      && ParseHex2(f[n + 1..n + 3]) == Some(Chksum(payload))
      && f[n + 3..] == Terminator
  {
    var c := Chksum(payload);
    ChksumRange(payload);
    Hex2RoundTrip(c);
    var f, n := Frame(payload), |payload|;
    assert f[n + 1..n + 3] == Hex2(c);
  }

  /**
    The checksum field's second column is always an even hexadecimal digit,
    and its first column is a space exactly when the checksum is below 16.
   */
  lemma FrameLowDigitEven(payload: string)
    ensures var f, n, c := Frame(payload), |payload|, Chksum(payload);
      && |f| == n + 5
      && f[n + 2] in "02468ace"
      && (f[n + 1] == ' ' <==> c < 16)
  {
    var c := Chksum(payload);
    ChksumRange(payload);
    var h := Hex2(c);
    assert c % 16 % 2 == 0;
    assert h[1] == HexChar(c % 16);
    assert h[0] == ' ' <==> c < 16;
  }

  /** Reads a frame: the text before `*`, provided the checksum field matches it and CR LF ends the line. */
  function ParseFrame(f: string): Option<string>
  {
    if |f| < 5 || f[|f| - 2..] != Terminator || f[|f| - 5] != '*' then None
    else
      var payload := f[..|f| - 5];
      if ParseHex2(f[|f| - 4..|f| - 2]) == Some(Chksum(payload)) then Some(payload) else None
  }

  /** Every frame the bridge builds is accepted and yields its payload. */
  lemma FrameRoundTrip(payload: string)
    ensures ParseFrame(Frame(payload)) == Some(payload)
  {
    FrameShape(payload);
    var f, n := Frame(payload), |payload|;
    assert f[|f| - 2..] == f[n + 3..];
    assert f[|f| - 4..|f| - 2] == f[n + 1..n + 3];
  }

  /** Every line the receiver accepts is the frame of what it yields. */
  lemma FrameCanonical(f: string)
    requires ParseFrame(f).Some?
    ensures f == Frame(ParseFrame(f).value)
  {
    var payload := ParseFrame(f).value;
    var h := f[|f| - 4..|f| - 2];
    Hex2Canonical(h);
    assert Hex2(Chksum(payload)) == h;
    assert f == payload + "*" + h + Terminator;
  }

  /** Distinct payloads give distinct frames, so comparing frames compares payloads. */
  lemma FrameInjective(a: string, b: string)
    ensures Frame(a) == Frame(b) <==> a == b
  {
    FrameRoundTrip(a);
    FrameRoundTrip(b);
  }
}
