/**
  The telemetry line from the daemon's server (src/daemon/telemetry_server.c)
  to the Python client (src/python/msp/thermal.py): printing, sending in
  pieces, receiving in pieces, parsing, and the decision taken at the end.
 */
module TelemetryWire {
  import opened Wrappers
  import opened Rounding
  import opened Text
  import opened Telemetry

  // ---------------------------------------------------------------------
  // Printing
  // ---------------------------------------------------------------------

  function Abs(x: real): real { if x < 0.0 then -x else x }

  /** The whole number of thousandths that "%.3f" prints, without the sign. */
  function Thousandths(x: real): (m: nat)
  {
    RoundMonotone(0.0, Abs(x) * 1000.0);
    RoundInteger(0);
    RoundHalfEven(Abs(x) * 1000.0)
  }

  function Pad3(n: nat): string
    requires n < 1000
  {
    [Digit(n / 100), Digit(n / 10 % 10), Digit(n % 10)]
  }

  function Magnitude(m: nat): string {
    Digits(m / 1000) + "." + Pad3(m % 1000)
  }

  function FormatFinite(negative: bool, m: nat): string {
    if negative then "-" + Magnitude(m) else Magnitude(m)
  }

  /** The conversion "%.3f". */
  function FormatTemp(t: Temp): string {
    match t
    case PosInf => "inf"
    case NegInf => "-inf"
    case NotANumber => "nan"
    case Finite(c) => FormatFinite(c < 0.0, Thousandths(c))
  }

  function Flag(security: bool): string { if security then "1" else "0" }

  function Layout(a: string, b: string, c: string, tail: string): string {
    a + (" " + (b + (" " + (c + tail))))
  }

  /** The line that snprintf would produce in an unlimited buffer. */
  function Line(s: Sample): string {
    Layout(FormatTemp(s.temperature), Digits(s.sram), Flag(s.security), "\n")
  }

  const LINE_BUFFER: nat := 128

  /** The bytes handed to WriteAll: snprintf stops one short of the buffer's size. */
  function Payload(s: Sample): string {
    var line := Line(s);
    if |line| < LINE_BUFFER then line else line[..LINE_BUFFER - 1]
  }

  /** Whatever the line, at most 127 characters of it leave the buffer, and they are its first. */
  lemma PayloadFits(s: Sample)
    ensures Payload(s) <= Line(s) && |Payload(s)| == if |Line(s)| < 127 then |Line(s)| else 127
  {
  }

  // 2 to the power 128 and 2 to the power 64.
  const FLOAT_LIMIT: nat := 340282366920938463463374607431768211456
  const SIZE_LIMIT: nat := 18446744073709551616

  lemma LimitsArePowers()
    ensures SIZE_LIMIT == 0x1_0000_0000_0000_0000 && FLOAT_LIMIT == SIZE_LIMIT * SIZE_LIMIT
  {
  }

  lemma LimitsInDigits()
    ensures SIZE_LIMIT < Pow10(20) && FLOAT_LIMIT < Pow10(39)
  {
    assert Pow10(10) == 10000000000;
    Pow10Splits(10, 10);
    Pow10Splits(10, 20);
    Pow10Splits(9, 30);
  }

  lemma MagnitudeLength(c: real)
    requires Abs(c) < FLOAT_LIMIT as real
    ensures |Magnitude(Thousandths(c))| <= 43
  {
    RoundMonotone(Abs(c) * 1000.0, (FLOAT_LIMIT * 1000) as real);
    RoundInteger(FLOAT_LIMIT * 1000);
    LimitsInDigits();
    DigitsLength(Thousandths(c) / 1000, 39);
  }

  /** Every float and every 64-bit size fits, so the truncation never happens. */
  lemma LineIsShort(s: Sample)
    requires s.temperature.Finite? ==> Abs(s.temperature.celsius) < FLOAT_LIMIT as real
    requires s.sram < SIZE_LIMIT
    ensures |Line(s)| <= 68
    ensures Payload(s) == Line(s)
  {
    LimitsInDigits();
    DigitsLength(s.sram, 20);
    if s.temperature.Finite? {
      MagnitudeLength(s.temperature.celsius);
    }
  }

  // ---------------------------------------------------------------------
  // Sending
  // ---------------------------------------------------------------------

  /** What one call of write() may do. */
  datatype WriteEvent = Wrote(n: nat) | Interrupted | Failed

  datatype WriteStatus = Sent | Broken | Waiting

  /** The number of bytes the first calls accepted; write() never accepts more than it is offered. */
  function Accepted(events: seq<WriteEvent>, length: nat): (n: nat)
    ensures n <= length
  {
    if events == [] then 0
    else
      var before := Accepted(events[..|events| - 1], length);
      match events[|events| - 1]
      case Wrote(n) => if before + n <= length then before + n else length
      case Interrupted => before
      case Failed => before
  }

  /** What the calls report to have written, taken together. */
  function WrittenBytes(events: seq<WriteEvent>): nat {
    if events == [] then 0
    else WrittenBytes(events[..|events| - 1]) + if events[|events| - 1].Wrote? then events[|events| - 1].n else 0
  }

  function Min(m: nat, n: nat): nat { if m <= n then m else n }

  lemma {:induction false} AcceptedIsWritten(events: seq<WriteEvent>, length: nat)
    ensures Accepted(events, length) == Min(WrittenBytes(events), length)
  {
    if events != [] {
      AcceptedIsWritten(events[..|events| - 1], length);
    }
  }

  /**
    Writes the whole buffer through calls that behave as the events say.
    Waiting means that the events ran out before the loop ended.
   */
  method WriteAll(buf: string, events: seq<WriteEvent>) returns (status: WriteStatus, sent: string, ghost used: nat)
    ensures used <= |events| && sent == buf[..Min(WrittenBytes(events[..used]), |buf|)]
    ensures status.Sent? <==> sent == buf
    ensures status.Sent? <==> WrittenBytes(events[..used]) >= |buf|
    ensures status.Broken? ==> used > 0 && events[used - 1].Failed?
    ensures status.Waiting? ==> used == |events|
    ensures forall i | 0 <= i < used && events[i].Failed? :: status.Broken? && i == used - 1
  {
    used := 0;
    var written := 0;
    var i := 0;
    while written < |buf|
      invariant 0 <= i == used <= |events| && written == Accepted(events[..i], |buf|)
      invariant forall j | 0 <= j < i :: !events[j].Failed?
      decreases |events| - i
    {
      if i == |events| {
        AcceptedIsWritten(events[..used], |buf|);
        return Waiting, buf[..written], used;
      }
      assert events[..i + 1][..i] == events[..i];
      used := i + 1;
      match events[i] {
        case Interrupted =>
        case Failed =>
          AcceptedIsWritten(events[..used], |buf|);
          return Broken, buf[..written], used;
        case Wrote(n) => written := if written + n <= |buf| then written + n else |buf|;
      }
      i := i + 1;
    }
    AcceptedIsWritten(events[..used], |buf|);
    return Sent, buf[..written], used;
  }

  // ---------------------------------------------------------------------
  // Parsing
  // ---------------------------------------------------------------------

  /** Python's int() on a signed decimal numeral. */
  function ParseInt(s: string): Option<int> {
    if s == "" then None
    else if s[0] == '-' && AllDigits(s[1..]) then (var v: int := Value(s[1..]); Some(-v))
    else if s[0] == '+' && AllDigits(s[1..]) then Some(Value(s[1..]))
    else if AllDigits(s) then Some(Value(s))
    else None
  }

  function Integral(s: string): (w: string)
    ensures w <= s && (w == "" || AllDigits(w))
  {
    if s == "" || !IsDigit(s[0]) then "" else [s[0]] + Integral(s[1..])
  }

  /** A decimal numeral with or without a point. */
  function ParseDecimal(s: string): Option<real> {
    var whole := Integral(s);
    var rest := s[|whole|..];
    if rest == "" then
      if whole == "" then None else Some(Value(whole) as real)
    else if rest[0] != '.' then None
    else
      var fraction := rest[1..];
      if fraction == "" then
        if whole == "" then None else Some(Value(whole) as real)
      else if AllDigits(fraction) then
        Some(Value(whole) as real + Value(fraction) as real / Pow10(|fraction|) as real)
      else None
  }

  function ParseUnsigned(s: string): Option<Temp> {
    if s == "" then None
    else if IsDigit(s[0]) || s[0] == '.' then
      match ParseDecimal(s)
      case None => None
      case Some(x) => Some(Finite(x))
    else
      var name := Lower(s);
      if name == "inf" || name == "infinity" then Some(PosInf)
      else if name == "nan" then Some(NotANumber)
      else None
  }

  function Negated(t: Temp): Temp {
    match t
    case Finite(c) => Finite(-c)
    case PosInf => NegInf
    case NegInf => PosInf
    case NotANumber => NotANumber
  }

  /** Python's float() on decimal numerals and the three special names. */
  function ParseFloat(s: string): Option<Temp> {
    if s == "" then None
    else if s[0] == '+' then ParseUnsigned(s[1..])
    else if s[0] == '-' then
      match ParseUnsigned(s[1..])
      case None => None
      case Some(t) => Some(Negated(t))
    else ParseUnsigned(s)
  }

  datatype ReadError = ConnectionFailed | NotAscii | Malformed

  /** A parsed reading; the client does not insist on a non-negative size. */
  datatype Reading = Reading(temperature: Temp, sram: int, security: bool)

  predicate IsAscii(text: string) { forall i | 0 <= i < |text| :: (text[i] as int) < 128 }

  function ParseParts(parts: seq<string>): Result<Reading, ReadError> {
    if |parts| != 3 then Err(Malformed)
    else
      match (ParseFloat(parts[0]), ParseInt(parts[1]))
      case (Some(t), Some(n)) => Ok(Reading(t, n, parts[2] != "0"))
      case _ => Err(Malformed)
  }

  function Parse(text: string): Result<Reading, ReadError> {
    if IsAscii(text) then ParseParts(Fields(Strip(text))) else Err(NotAscii)
  }

  // ---------------------------------------------------------------------
  // Receiving
  // ---------------------------------------------------------------------

  /** What one call of recv() may do; the empty chunk is the end of the stream. */
  datatype RecvEvent = Chunk(data: string) | OsError

  function Joined(chunks: seq<string>): string {
    if chunks == [] then "" else Joined(chunks[..|chunks| - 1]) + chunks[|chunks| - 1]
  }

  lemma {:induction false} JoinedSplit(chunks: seq<string>, more: seq<string>)
    ensures Joined(chunks + more) == Joined(chunks) + Joined(more)
  {
    if more == [] {
      assert chunks + more == chunks;
    } else {
      JoinedSplit(chunks, more[..|more| - 1]);
      assert (chunks + more)[..|chunks + more| - 1] == chunks + more[..|more| - 1];
    }
  }

  /** Every piece is found at the place where the pieces before it end. */
  lemma JoinedInOrder(chunks: seq<string>, i: nat)
    requires i < |chunks|
    ensures Joined(chunks) == Joined(chunks[..i]) + chunks[i] + Joined(chunks[i + 1..])
  {
    JoinedSplit(chunks[..i + 1], chunks[i + 1..]);
    assert chunks == chunks[..i + 1] + chunks[i + 1..];
    assert chunks[..i + 1][..i] == chunks[..i];
  }

  /** The events bring these pieces and then the end of the stream. */
  ghost predicate IsDelivery(events: seq<RecvEvent>, chunks: seq<string>) {
    && |chunks| < |events|
    && (forall i | 0 <= i < |chunks| :: events[i] == Chunk(chunks[i]) && events[i] != Chunk(""))
    && events[|chunks|] == Chunk("")
  }

  /** The events deliver the given bytes, in some pieces. */
  ghost predicate Delivers(events: seq<RecvEvent>, data: string) {
    exists chunks: seq<string> :: IsDelivery(events, chunks) && Joined(chunks) == data
  }

  lemma DeliveryUnique(events: seq<RecvEvent>, chunks: seq<string>, other: seq<string>)
    requires IsDelivery(events, chunks) && IsDelivery(events, other)
    ensures chunks == other
  {
    if |chunks| < |other| {
      assert false;
    }
    if |other| < |chunks| {
      assert false;
    }
    forall i | 0 <= i < |chunks| ensures chunks[i] == other[i] {
      assert events[i] == Chunk(chunks[i]);
    }
  }

  /** Two pieces and the end of the stream deliver; pieces and an error, or no end, deliver nothing. */
  lemma DeliveryByExample(data: string)
    ensures Delivers([Chunk("36.6 0"), Chunk(" 1"), Chunk("")], "36.6 0 1")
    ensures !Delivers([Chunk("36.6 0"), OsError], data) && !Delivers([Chunk("36.6 0")], data)
  {
    var chunks := ["36.6 0", " 1"];
    assert chunks[..1] == ["36.6 0"] && chunks[..1][..0] == [];
    assert Joined(chunks[..1]) == "36.6 0";
    assert IsDelivery([Chunk("36.6 0"), Chunk(" 1"), Chunk("")], chunks);
  }

  /** A connection on which no further event comes runs into its timeout. */
  method ReadFull(events: seq<RecvEvent>) returns (r: Result<Reading, ReadError>)
    ensures forall data | Delivers(events, data) :: r == Parse(data)
    ensures (forall data :: !Delivers(events, data)) ==> r == Err(ConnectionFailed)
  {
    var chunks: seq<string> := [];
    var i := 0;
    while true
      invariant 0 <= i <= |events| && |chunks| == i
      invariant forall j | 0 <= j < i :: events[j] == Chunk(chunks[j]) && events[j] != Chunk("")
      decreases |events| - i
    {
      if i == |events| || events[i].OsError? {
        return Err(ConnectionFailed);
      }
      var chunk := events[i].data;
      if chunk == "" {
        break;
      }
      chunks := chunks + [chunk];
      i := i + 1;
    }
    assert IsDelivery(events, chunks);
    assert Delivers(events, Joined(chunks));
    forall data | Delivers(events, data) ensures data == Joined(chunks) {
      var other :| IsDelivery(events, other) && Joined(other) == data;
      DeliveryUnique(events, chunks, other);
    }
    r := Parse(Joined(chunks));
  }

  // ---------------------------------------------------------------------
  // Round trip
  // ---------------------------------------------------------------------

  /** A temperature rounded to three decimals. */
  function Rounded(t: Temp): Temp {
    if t.Finite? then Finite(RoundHalfEven(t.celsius * 1000.0) as real / 1000.0) else t
  }

  lemma {:induction false} IntegralOf(w: string, rest: string)
    requires w == "" || AllDigits(w)
    requires rest == "" || !IsDigit(rest[0])
    ensures Integral(w + rest) == w
  {
    if w == "" {
      assert w + rest == rest;
    } else {
      IntegralOf(w[1..], rest);
      assert (w + rest)[1..] == w[1..] + rest;
    }
  }

  lemma ValueOfPad3(n: nat)
    requires n < 1000
    ensures AllDigits(Pad3(n)) && Value(Pad3(n)) == n
  {
    var s := Pad3(n);
    assert s[..2] == [Digit(n / 100), Digit(n / 10 % 10)];
    assert s[..2][..1] == [Digit(n / 100)];
    assert s[..1][..0] == "";
    assert Value(s[..2][..1]) == n / 100;
    assert Value(s[..2]) == n / 10;
  }

  lemma ParseMagnitude(m: nat)
    ensures ParseDecimal(Magnitude(m)) == Some(m as real / 1000.0)
  {
    var whole, fraction := Digits(m / 1000), Pad3(m % 1000);
    assert Magnitude(m) == whole + ("." + fraction);
    IntegralOf(whole, "." + fraction);
    assert (whole + ("." + fraction))[|whole|..] == "." + fraction;
    assert ("." + fraction)[1..] == fraction;
    ValueOfDigits(m / 1000);
    ValueOfPad3(m % 1000);
    assert Pow10(3) == 1000;
    assert m == 1000 * (m / 1000) + m % 1000;
  }

  /** No printed magnitude looks like a sign or a name. */
  lemma MagnitudeStartsWithDigit(m: nat)
    ensures Magnitude(m) != "" && IsDigit(Magnitude(m)[0])
  {
    assert Magnitude(m)[0] == Digits(m / 1000)[0];
  }

  lemma ParseUnsignedMagnitude(m: nat)
    ensures ParseUnsigned(Magnitude(m)) == Some(Finite(m as real / 1000.0))
  {
    MagnitudeStartsWithDigit(m);
    ParseMagnitude(m);
  }

  lemma ParseNegative(w: string)
    requires w != "" && IsDigit(w[0]) && ParseUnsigned(w).Some?
    ensures ParseFloat("-" + w) == Some(Negated(ParseUnsigned(w).value))
    ensures ParseFloat(w) == ParseUnsigned(w)
  {
    assert ("-" + w)[1..] == w;
  }

  lemma ParseMagnitudeText(m: nat)
    ensures ParseFloat(Magnitude(m)) == Some(Finite(m as real / 1000.0))
    ensures ParseFloat("-" + Magnitude(m)) == Some(Negated(Finite(m as real / 1000.0)))
  {
    MagnitudeStartsWithDigit(m);
    ParseUnsignedMagnitude(m);
    ParseNegative(Magnitude(m));
  }

  lemma ParseSigned(negative: bool, m: nat)
    ensures ParseFloat(FormatFinite(negative, m)) ==
      Some(Finite(if negative then -(m as real / 1000.0) else m as real / 1000.0))
  {
    ParseMagnitudeText(m);
  }

  lemma RoundedIsSigned(c: real)
    ensures Rounded(Finite(c)) ==
      Finite(if c < 0.0 then -(Thousandths(c) as real / 1000.0) else Thousandths(c) as real / 1000.0)
  {
    if c < 0.0 {
      RoundNegates(c * 1000.0);
      assert Abs(c) * 1000.0 == -(c * 1000.0);
    }
  }

  lemma ParseNames()
    ensures ParseFloat("inf") == Some(PosInf)
    ensures ParseFloat("-inf") == Some(NegInf)
    ensures ParseFloat("nan") == Some(NotANumber)
  {
    assert Lower("inf") == "inf";
    assert Lower("nan") == "nan";
    assert "-inf"[1..] == "inf";
  }

  lemma ParsePrintedFinite(c: real)
    ensures ParseFloat(FormatTemp(Finite(c))) == Some(Rounded(Finite(c)))
  {
    var text := FormatFinite(c < 0.0, Thousandths(c));
    ParseSigned(c < 0.0, Thousandths(c));
    RoundedIsSigned(c);
    assert FormatTemp(Finite(c)) == text;
  }

  lemma ParsePrintedTemp(t: Temp)
    ensures ParseFloat(FormatTemp(t)) == Some(Rounded(t))
  {
    match t
    case Finite(c) => ParsePrintedFinite(c);
    case PosInf => ParseNames();
    case NegInf => ParseNames();
    case NotANumber => ParseNames();
  }

  lemma ParsePrintedSize(n: nat)
    ensures ParseInt(Digits(n)) == Some(n)
  {
    ValueOfDigits(n);
  }

  predicate Printable(s: string) { forall i | 0 <= i < |s| :: '!' <= s[i] <= '~' }

  lemma PrintableWords(s: Sample)
    ensures Printable(FormatTemp(s.temperature)) && FormatTemp(s.temperature) != ""
    ensures Printable(Digits(s.sram)) && Printable(Flag(s.security))
  {
    if s.temperature.Finite? {
      var m := Thousandths(s.temperature.celsius);
      assert AllDigits(Digits(m / 1000)) && Printable(Pad3(m % 1000));
      assert Printable(Magnitude(m));
    }
  }

  lemma NextField(w: string, rest: string)
    requires w != "" && Printable(w) && (rest == "" || IsSpace(rest[0]))
    ensures Fields(" " + (w + rest)) == [w] + Fields(rest)
  {
    assert (" " + (w + rest))[1..] == w + rest;
    FieldsCons(w, rest);
  }

  lemma FieldsOfThree(a: string, b: string, c: string, tail: string)
    requires a != "" && b != "" && c != "" && Printable(a) && Printable(b) && Printable(c)
    requires forall i | 0 <= i < |tail| :: IsSpace(tail[i])
    ensures Fields(Layout(a, b, c, tail)) == [a, b, c]
  {
    FieldsOfSpaces(tail);
    NextField(c, tail);
    NextField(b, " " + (c + tail));
    FieldsCons(a, " " + (b + (" " + (c + tail))));
  }

  lemma LayoutIsAscii(a: string, b: string, c: string, tail: string)
    requires Printable(a) && Printable(b) && Printable(c) && (tail == "" || tail == "\n")
    ensures IsAscii(Layout(a, b, c, tail))
  {
    assert IsAscii(c + tail);
    assert IsAscii(" " + (c + tail));
    assert IsAscii(b + (" " + (c + tail)));
    assert IsAscii(" " + (b + (" " + (c + tail))));
  }

  lemma ParsePrinted(s: Sample, tail: string)
    requires tail == "" || tail == "\n"
    ensures Parse(Layout(FormatTemp(s.temperature), Digits(s.sram), Flag(s.security), tail))
      == Ok(Reading(Rounded(s.temperature), s.sram, s.security))
  {
    PrintableWords(s);
    var a, b, c := FormatTemp(s.temperature), Digits(s.sram), Flag(s.security);
    LayoutIsAscii(a, b, c, tail);
    FieldsOfStripped(Layout(a, b, c, tail));
    FieldsOfThree(a, b, c, tail);
    ParsePrintedTemp(s.temperature);
    ParsePrintedSize(s.sram);
  }

  /** Reading back a printed line gives the sample, with the temperature rounded to three decimals. */
  lemma ParseLine(s: Sample)
    ensures Parse(Line(s)) == Ok(Reading(Rounded(s.temperature), s.sram, s.security))
  {
    ParsePrinted(s, "\n");
  }

  /** The layout on the wire, by example. */
  lemma LineByExample()
    ensures Line(Sample(Finite(36.6), 1024, false)) == "36.600 1024 0\n"
  {
    NearestEvenUnique(36600.0, RoundHalfEven(36600.0), 36600);
    assert Magnitude(36600) == "36.600" by {
      assert Digits(36) == "36";
    }
    assert Digits(1024) == "1024" by {
      assert Digits(10) == "10" && Digits(102) == "102";
    }
  }

  lemma NegativeByExample()
    ensures FormatTemp(Finite(-0.5)) == "-0.500"
    ensures FormatTemp(Finite(-0.0004)) == "-0.000"
  {
    NearestEvenUnique(500.0, RoundHalfEven(500.0), 500);
    NearestEvenUnique(0.4, RoundHalfEven(0.4), 0);
  }

  lemma InfinityByExample()
    ensures Line(Sample(PosInf, 0, true)) == "inf 0 1\n"
  {
  }

  /** Spellings that the server does not print but the client understands, and some that it does not. */
  lemma OtherNames()
    ensures ParseFloat("Infinity") == Some(PosInf) && ParseFloat("-NaN") == Some(NotANumber)
  {
    assert Lower("Infinity") == "infinity" && Lower("NaN") == "nan";
    assert "-NaN"[1..] == "NaN";
  }

  lemma OtherDecimals()
    ensures ParseDecimal("1.5") == Some(1.5) && ParseDecimal(".5") == Some(0.5)
    ensures ParseDecimal("2.") == Some(2.0) && ParseDecimal(".") == None && ParseDecimal("1x") == None
  {
  }

  lemma OtherIntegers()
    ensures ParseInt("-7") == Some(-7) && ParseInt("+7") == Some(7) && ParseInt("7.0") == None
  {
    assert "-7"[1..] == "7" && "+7"[1..] == "7";
    assert "7"[..0] == "";
  }

  /** Only ASCII texts of exactly three fields are accepted. */
  lemma AcceptedHaveThreeFields(text: string)
    ensures Parse(text).Ok? ==> IsAscii(text) && |Fields(text)| == 3
    ensures Parse(text) == Err(NotAscii) <==> !IsAscii(text)
  {
    FieldsOfStripped(text);
  }

  /** What the client makes of a line that arrives. */
  function Received(s: Sample): (reading: Reading)
    ensures reading == Reading(Rounded(s.temperature), s.sram, s.security)
  {
    ParseLine(s);
    Parse(Line(s)).value
  }

  lemma SecondPart(a: string, b: string, p: string)
    requires p <= a + (" " + (b + " ")) && |a| < |p|
    ensures p == a + (" " + p[|a| + 1..]) && p[|a| + 1..] <= b + " "
  {
    var whole := a + (" " + (b + " "));
    assert whole[|a| + 1..] == b + " ";
    assert p[|a| + 1..] == whole[|a| + 1..|p|];
    assert p[|a|] == ' ';
  }

  lemma OneWord(w: string)
    requires Printable(w)
    ensures |Fields(w)| <= 1
  {
    if w != "" {
      FieldsCons(w, "");
      assert w + "" == w;
    }
  }

  lemma PrefixHasOneField(b: string, q: string)
    requires Printable(b) && b != "" && q <= b + " "
    ensures |Fields(q)| <= 1
  {
    if |q| <= |b| {
      assert q == b[..|q|];
      OneWord(q);
    } else {
      assert q == b + " ";
      FieldsCons(b, " ");
      FieldsOfSpaces(" ");
    }
  }

  lemma PrefixHasFewFields(a: string, b: string, p: string)
    requires Printable(a) && Printable(b) && a != "" && b != ""
    requires p <= a + (" " + (b + " "))
    ensures |Fields(p)| <= 2
  {
    if |p| <= |a| {
      assert p == a[..|p|];
      OneWord(p);
    } else {
      var q := p[|a| + 1..];
      SecondPart(a, b, p);
      FieldsCons(a, " " + q);
      PrefixHasOneField(b, q);
      assert (" " + q)[1..] == q;
    }
  }

  lemma LayoutWithoutEnd(a: string, b: string, c: string)
    ensures Layout(a, b, c, "\n") == Layout(a, b, c, "") + "\n"
  {
    assert c + "" == c;
    assert c + "\n" == (c + "") + "\n";
    assert " " + (c + "\n") == (" " + (c + "")) + "\n";
    assert b + (" " + (c + "\n")) == (b + (" " + (c + ""))) + "\n";
  }

  lemma LayoutFront(a: string, b: string, c: string, p: string)
    requires |c| == 1 && p <= Layout(a, b, c, "\n") && |p| + 1 < |Layout(a, b, c, "\n")|
    ensures p <= a + (" " + (b + " "))
  {
    var front := a + (" " + (b + " "));
    assert Layout(a, b, c, "\n") == front + (c + "\n");
    assert |p| <= |front|;
  }

  /** A line cut short is rejected, or only its line end is missing and it reads the same. */
  lemma PrefixSafety(s: Sample, p: string)
    requires p <= Line(s) && p != Line(s)
    ensures Parse(p).Err? || Parse(p) == Parse(Line(s))
    ensures Parse(p).Ok? <==> |p| == |Line(s)| - 1
  {
    PrintableWords(s);
    var a, b, c := FormatTemp(s.temperature), Digits(s.sram), Flag(s.security);
    ParseLine(s);
    if |p| == |Line(s)| - 1 {
      LayoutWithoutEnd(a, b, c);
      assert p == Layout(a, b, c, "");
      ParsePrinted(s, "");
    } else {
      LayoutFront(a, b, c, p);
      PrefixHasFewFields(a, b, p);
      FieldsOfStripped(p);
    }
  }

  /**
    Whatever part of the line the server gets to send, the client that receives
    it reads the rounded sample if that was all of it, and otherwise rejects it
    or reads that same sample.
   */
  lemma EndToEnd(s: Sample, sent: string)
    requires s.temperature.Finite? ==> Abs(s.temperature.celsius) < FLOAT_LIMIT as real
    requires s.sram < SIZE_LIMIT && sent <= Payload(s)
    ensures sent == Payload(s) ==> Parse(sent) == Ok(Received(s))
    ensures sent != Payload(s) ==> Parse(sent).Err? || Parse(sent) == Ok(Received(s))
  {
    LineIsShort(s);
    ParseLine(s);
    if sent != Payload(s) {
      PrefixSafety(s, sent);
    }
  }

  /** The network may lose a connection but does not alter what it delivers. */
  ghost predicate Faithful(network: string -> seq<RecvEvent>) {
    forall sent, data | Delivers(network(sent), data) :: data == sent
  }

  /** One query: the server prints and writes, the network carries, the client reads and parses. */
  method Query(s: Sample, writes: seq<WriteEvent>, network: string -> seq<RecvEvent>)
    returns (r: Result<Reading, ReadError>, status: WriteStatus)
    requires s.temperature.Finite? ==> Abs(s.temperature.celsius) < FLOAT_LIMIT as real
    requires s.sram < SIZE_LIMIT && Faithful(network)
    ensures r.Err? || r == Ok(Received(s))
    ensures status.Sent? && Delivers(network(Line(s)), Line(s)) ==> r.Ok?
  {
    var sent: string;
    ghost var used: nat;
    status, sent, used := WriteAll(Payload(s), writes);
    r := ReadFull(network(sent));
    LineIsShort(s);
    if Delivers(network(sent), sent) {
      EndToEnd(s, sent);
    }
  }

  // ---------------------------------------------------------------------
  // The decision behind the wire
  // ---------------------------------------------------------------------

  /** The sample that the executor's probe builds from a reading. */
  function SampleOf(reading: Reading): Sample
    requires reading.sram >= 0
  {
    Sample(reading.temperature, reading.sram, reading.security)
  }

  predicate IsWhole(x: real) { x == x.Floor as real }

  lemma RoundsToItselfIff(x: real)
    ensures RoundHalfEven(x) as real == x <==> IsWhole(x)
  {
    if IsWhole(x) {
      RoundInteger(x.Floor);
    }
  }

  lemma ThousandthsOf(c: real, x: real)
    ensures x / 1000.0 == c <==> x == c * 1000.0
  {
  }

  lemma RoundedSameIff(c: real)
    ensures Rounded(Finite(c)) == Finite(c) <==> IsWhole(c * 1000.0)
  {
    RoundsToItselfIff(c * 1000.0);
    ThousandthsOf(c, RoundHalfEven(c * 1000.0) as real);
  }

  /** What Python reads is the daemon's number exactly if that is no finite number or a whole number of thousandths. */
  lemma SameNumberIff(s: Sample)
    ensures Received(s).temperature == s.temperature <==>
      (s.temperature.Finite? ==> IsWhole(s.temperature.celsius * 1000.0))
  {
    if s.temperature.Finite? {
      RoundedSameIff(s.temperature.celsius);
    }
  }

  /** Rounding to thousandths keeps a temperature above 85 unless it exceeds 85 by half a thousandth or less. */
  lemma RoundedAboveCritical(c: real)
    ensures Rounded(Finite(c)).Above(CRITICAL_TEMP_C) <==> c > 85.0005
  {
    var n := RoundHalfEven(c * 1000.0);
    if c > 85.0005 {
      RoundMonotone(85000.5, c * 1000.0);
      NearestEvenUnique(85000.5, RoundHalfEven(85000.5), 85000);
      assert n as real >= c * 1000.0 - 0.5;
      assert n > 85000;
    } else {
      RoundMonotone(c * 1000.0, 85000.5);
      NearestEvenUnique(85000.5, RoundHalfEven(85000.5), 85000);
    }
  }

  /** A violation of the daemon that the executor behind the wire does not see. */
  predicate Missed(p: Policy, s: Sample) {
    Violated(s) && p.Evaluate(SampleOf(Received(s))).None?
  }

  /**
    With the daemon's limits, the executor behind the wire decides as the
    daemon does on the same sample, except that it misses a violation that
    consists in nothing but 85 < t <= 85.0005.
   */
  lemma DecisionsAgree(p: Policy, s: Sample)
    requires MirrorsDaemon(p)
    ensures p.Evaluate(SampleOf(Received(s))).Some? ==> Violated(s)
    ensures Missed(p, s) <==>
      s.temperature.Finite? && 85.0 < s.temperature.celsius <= 85.0005 && s.sram <= MAX_SRAM_ALLOC && !s.security
  {
    if s.temperature.Finite? {
      RoundedAboveCritical(s.temperature.celsius);
    }
  }

  lemma MillidegreesRounded(millidegrees: int)
    ensures Rounded(Finite(millidegrees as real / 1000.0)) == Finite(millidegrees as real / 1000.0)
  {
    ThousandthsOf(millidegrees as real / 1000.0, millidegrees as real);
    RoundedSameIff(millidegrees as real / 1000.0);
  }

  /** A whole number of millidegrees, as one zone reports it, arrives unchanged and is never misjudged. */
  lemma MillidegreesAgree(p: Policy, s: Sample, millidegrees: int)
    requires MirrorsDaemon(p) && s.temperature == Finite(millidegrees as real / 1000.0)
    ensures SampleOf(Received(s)) == s
    ensures p.Evaluate(SampleOf(Received(s))).Some? <==> Violated(s)
  {
    MillidegreesRounded(millidegrees);
  }
}
