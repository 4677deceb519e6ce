/**
 Reading lines from the connection and collecting the text after DATA. The connection is what the
 receive calls will yield: bytes and transient faults, and after them the end of the connection.
 */
module SmtpFraming {

  datatype Event = Byte(c: char) | Fault

  type Stream = seq<Event>

  const MAX_LINE := 1024
  const MAX_FAULTS := 3

  /** Twice a limit below this does not wrap. */
  const HALF_RANGE: nat := 0x8000_0000_0000_0000

  /** A line, or what was read of it when reading failed, and what is left of the stream. */
  datatype Line = Line(ok: bool, text: string, tooLong: bool, rest: Stream)

  /** `text` is what was read of the line so far, `faults` the number of faults in a row just seen. */
  function LineFrom(input: Stream, text: string, faults: nat): (r: Line)
    ensures |r.rest| <= |input| && (r.ok ==> |r.rest| < |input|)
  {
    if input == [] then Line(false, text, false, [])
    else match input[0]
      case Fault =>
        if faults + 1 > MAX_FAULTS then Line(false, text, false, input[1..]) else LineFrom(input[1..], text, faults + 1)
      case Byte(c) =>
        if c == '\r' then LineFrom(input[1..], text, 0)
        else if c == '\n' then Line(true, text, false, input[1..])
        else if |text| + 1 > MAX_LINE then Line(false, text + [c], true, input[1..])
        else LineFrom(input[1..], text + [c], 0)
  }

  function ReadLine(input: Stream): (r: Line)
    ensures |r.rest| <= |input| && (r.ok ==> |r.rest| < |input|)
  {
    LineFrom(input, "", 0)
  }

  /** readLine, receive call by receive call. */
  method ReceiveLine(input: Stream) returns (r: Line)
    ensures r == ReadLine(input)
  {
    var text, faults, i := "", 0, 0;
    while true
      invariant 0 <= i <= |input|
      invariant LineFrom(input[i..], text, faults) == ReadLine(input)
      decreases |input| - i
    {
      if i == |input| {
        return Line(false, text, false, []);
      }
      var e := input[i];
      i := i + 1;
      assert input[i - 1..][1..] == input[i..];
      if e.Fault? {
        faults := faults + 1;
        if faults > MAX_FAULTS {
          return Line(false, text, false, input[i..]);
        }
      } else {
        faults := 0;
        if e.c == '\n' {
          return Line(true, text, false, input[i..]);
        }
        if e.c != '\r' {
          text := text + [e.c];
          if |text| > MAX_LINE {
            return Line(false, text, true, input[i..]);
          }
        }
      }
    }
  }

  // ------------------------------------------------------------------ collecting the message

  datatype Collected =
    | Text(body: string, rest: Stream, tooLong: bool)
    | TooBig(rest: Stream)
    | TooComplex(rest: Stream)

  function Unstuffed(line: string): string {
    if line != "" && line[0] == '.' then line[1..] else line
  }

  /** size_t arithmetic. */
  function Wrap64(n: nat): nat {
    n % 0x1_0000_0000_0000_0000
  }

  /**
   The loop of handleData; a line that cannot be read ends it like the final dot does, also one that readLine
   has answered as too long.
   */
  function Collect(input: Stream, body: string, size: nat, maxSize: nat): (r: Collected)
    ensures |r.rest| <= |input|
    decreases |input|
  {
    var line := ReadLine(input);
    if !line.ok || line.text == "." then Text(body, line.rest, line.tooLong)
    else
      var text := Unstuffed(line.text);
      var size' := Wrap64(size + |text| + 2);
      if size' > maxSize then TooBig(line.rest)
      else if |body| > Wrap64(maxSize * 2) then TooComplex(line.rest)
      else Collect(line.rest, body + text + "\n", size', maxSize)
  }

  method CollectData(input: Stream, maxSize: nat) returns (r: Collected)
    ensures r == Collect(input, "", 0, maxSize)
  {
    var rest, body := input, "";
    var size: nat := 0;
    while true
      invariant Collect(rest, body, size, maxSize) == Collect(input, "", 0, maxSize)
      decreases |rest|
    {
      var line := ReceiveLine(rest);
      rest := line.rest;
      if !line.ok { return Text(body, rest, line.tooLong); }
      if line.text == "." { return Text(body, rest, line.tooLong); }
      var text := line.text;
      if text != "" && text[0] == '.' {
        text := text[1..];
      }
      size := Wrap64(size + |text| + 2);
      if size > maxSize { return TooBig(rest); }
      if |body| > Wrap64(maxSize * 2) { return TooComplex(rest); }
      body := body + text + "\n";
    }
  }

  // ------------------------------------------------------------------ the guard that cannot fire

  /**
   The collected text never exceeds the counted size, so for any limit below 2^63 neither counter
   wraps and the second size guard never fires. The configuration allows limits of up to 100 MB.
   */
  lemma {:induction false} TextWithinSize(input: Stream, body: string, size: nat, maxSize: nat)
    requires |body| <= size <= maxSize < HALF_RANGE
    ensures var r := Collect(input, body, size, maxSize);
            !r.TooComplex? && (r.Text? ==> |r.body| <= maxSize)
    decreases |input|
  {
    var line := ReadLine(input);
    if line.ok && line.text != "." {
      assert |line.text| <= MAX_LINE by { LineShort(input, "", 0); }
      hide ReadLine;
      var text := Unstuffed(line.text);
      assert size + |text| + 2 < 0x1_0000_0000_0000_0000;
      if size + |text| + 2 <= maxSize {
        TextWithinSize(line.rest, body + text + "\n", size + |text| + 2, maxSize);
      }
    }
  }

  lemma {:induction false} LineShort(input: Stream, text: string, faults: nat)
    requires |text| <= MAX_LINE
    ensures LineFrom(input, text, faults).ok ==> |LineFrom(input, text, faults).text| <= MAX_LINE
    decreases |input|
  {
    if input != [] {
      match input[0]
      case Fault => LineShort(input[1..], text, faults + 1);
      case Byte(c) =>
        if c == '\r' { LineShort(input[1..], text, 0); }
        else if c != '\n' && |text| + 1 <= MAX_LINE { LineShort(input[1..], text + [c], 0); }
    }
  }

  // ------------------------------------------------------------------ the round trip

  function Bytes(s: string): Stream {
    seq(|s|, i requires 0 <= i < |s| => Byte(s[i]))
  }

  /** Dot-stuffing as section 4.5.2 of RFC 5321 asks of a sender. */
  function Stuffed(line: string): string {
    if line != "" && line[0] == '.' then "." + line else line
  }

  function Wire(lines: seq<string>): string {
    if lines == [] then ".\r\n" else Stuffed(lines[0]) + "\r\n" + Wire(lines[1..])
  }

  function Joined(lines: seq<string>): string {
    if lines == [] then "" else lines[0] + "\n" + Joined(lines[1..])
  }

  function Counted(lines: seq<string>): nat {
    if lines == [] then 0 else |lines[0]| + 2 + Counted(lines[1..])
  }

  predicate Sendable(line: string) {
    '\r' !in line && '\n' !in line && |Stuffed(line)| <= MAX_LINE
  }

  /** The stream carries `s`, with no more than three faults in a row, and then `rest`. */
  ghost predicate Carries(input: Stream, faults: nat, s: string, rest: Stream)
    decreases |input|
  {
    if s == "" then input == rest
    else
      && input != []
      && match input[0]
         case Fault => faults < MAX_FAULTS && Carries(input[1..], faults + 1, s, rest)
         case Byte(c) => c == s[0] && Carries(input[1..], 0, s[1..], rest)
  }

  lemma {:induction false} CarriesSplit(input: Stream, faults: nat, s: string, t: string, rest: Stream) returns (mid: Stream)
    requires Carries(input, faults, s + t, rest) && s != ""
    ensures Carries(input, faults, s, mid) && Carries(mid, 0, t, rest)
    decreases |input|
  {
    match input[0]
    case Fault => mid := CarriesSplit(input[1..], faults + 1, s, t, rest);
    case Byte(c) =>
      assert (s + t)[1..] == s[1..] + t;
      if s[1..] == "" {
        assert s[1..] + t == t;
        mid := input[1..];
      } else {
        mid := CarriesSplit(input[1..], 0, s[1..], t, rest);
      }
  }

  /** A line of admissible characters followed by CRLF is read back, faults or not. */
  lemma {:induction false} LineRead(input: Stream, faults: nat, text: string, line: string, rest: Stream)
    requires Carries(input, faults, line + "\r\n", rest)
    requires '\r' !in line && '\n' !in line && |text| + |line| <= MAX_LINE
    ensures LineFrom(input, text, faults) == Line(true, text + line, false, rest)
    decreases |input|
  {
    var s := line + "\r\n";
    match input[0]
    case Fault => LineRead(input[1..], faults + 1, text, line, rest);
    case Byte(c) =>
      if line == "" {
        assert s[1..] == "\n";
        NewlineRead(input[1..], 0, text, rest);
        assert text + line == text;
      } else {
        assert s[1..] == line[1..] + "\r\n";
        assert c == line[0] && c in line;
        LineRead(input[1..], 0, text + [c], line[1..], rest);
        assert text + [c] + line[1..] == text + line;
      }
  }

  lemma {:induction false} NewlineRead(input: Stream, faults: nat, text: string, rest: Stream)
    requires Carries(input, faults, "\n", rest)
    ensures LineFrom(input, text, faults) == Line(true, text, false, rest)
    decreases |input|
  {
    match input[0]
    case Fault => NewlineRead(input[1..], faults + 1, text, rest);
    case Byte(c) =>
  }

  lemma StuffingUndone(line: string)
    ensures Unstuffed(Stuffed(line)) == line && Stuffed(line) != "."
  {
  }

  lemma StuffedRead(line: string, input: Stream, mid: Stream)
    requires Carries(input, 0, Stuffed(line) + "\r\n", mid) && Sendable(line)
    ensures ReadLine(input) == Line(true, Stuffed(line), false, mid)
    ensures Unstuffed(Stuffed(line)) == line && Stuffed(line) != "." && |line| <= MAX_LINE
  {
    LineRead(input, 0, "", Stuffed(line), mid);
    assert "" + Stuffed(line) == Stuffed(line);
    StuffingUndone(line);
  }

  /** One stuffed line of the wire adds its text to what was collected. */
  lemma CollectsLine(line: string, input: Stream, mid: Stream, body: string, size: nat, maxSize: nat)
    requires Carries(input, 0, Stuffed(line) + "\r\n", mid) && Sendable(line)
    requires |body| <= size && size + |line| + 2 <= maxSize < HALF_RANGE
    ensures |mid| < |input|
    ensures Collect(input, body, size, maxSize) == Collect(mid, body + line + "\n", size + |line| + 2, maxSize)
  {
    StuffedRead(line, input, mid);
  }

  lemma JoinedGrows(body: string, lines: seq<string>)
    requires lines != []
    ensures body + lines[0] + "\n" + Joined(lines[1..]) == body + Joined(lines)
  {
  }

  lemma CollectsDot(input: Stream, rest: Stream, body: string, size: nat, maxSize: nat)
    requires Carries(input, 0, ".\r\n", rest)
    ensures Collect(input, body, size, maxSize) == Text(body, rest, false)
  {
    assert "." + "\r\n" == ".\r\n";
    LineRead(input, 0, "", ".", rest);
    assert "" + "." == ".";
  }

  /** The first line of the wire and what follows it. */
  lemma WireSplits(lines: seq<string>, input: Stream, rest: Stream) returns (mid: Stream)
    requires lines != [] && Carries(input, 0, Wire(lines), rest)
    ensures Carries(input, 0, Stuffed(lines[0]) + "\r\n", mid) && Carries(mid, 0, Wire(lines[1..]), rest)
  {
    var line := Stuffed(lines[0]) + "\r\n";
    assert Wire(lines) == line + Wire(lines[1..]);
    mid := CarriesSplit(input, 0, line, Wire(lines[1..]), rest);
  }

  lemma {:induction false} CollectsLines(lines: seq<string>, input: Stream, rest: Stream, body: string, size: nat, maxSize: nat)
    requires Carries(input, 0, Wire(lines), rest) && forall i :: 0 <= i < |lines| ==> Sendable(lines[i])
    requires |body| <= size && size + Counted(lines) <= maxSize < HALF_RANGE
    ensures Collect(input, body, size, maxSize) == Text(body + Joined(lines), rest, false)
    decreases |lines|
  {
    if lines == [] {
      CollectsDot(input, rest, body, size, maxSize);
      assert body + "" == body;
    } else {
      var mid := WireSplits(lines, input, rest);
      CollectsLine(lines[0], input, mid, body, size, maxSize);
      CollectsLines(lines[1..], mid, rest, body + lines[0] + "\n", size + |lines[0]| + 2, maxSize);
      JoinedGrows(body, lines);
    }
  }

  /**
   Every list of lines within the limits, sent dot-stuffed with CRLF and a final dot, is collected
   line by line, and the bytes behind the final dot stay unread; up to three receive faults in a
   row between bytes change nothing.
   */
  lemma DataRoundTrip(lines: seq<string>, input: Stream, rest: Stream, maxSize: nat)
    requires Carries(input, 0, Wire(lines), rest) && forall i :: 0 <= i < |lines| ==> Sendable(lines[i])
    requires Counted(lines) <= maxSize < HALF_RANGE
    ensures Collect(input, "", 0, maxSize) == Text(Joined(lines), rest, false)
  {
    CollectsLines(lines, input, rest, "", 0, maxSize);
    assert "" + Joined(lines) == Joined(lines);
  }

  /** The line with which the counted size passes the limit is refused as too big. */
  lemma TooBigLine(line: string, input: Stream, mid: Stream, body: string, size: nat, maxSize: nat)
    requires Carries(input, 0, Stuffed(line) + "\r\n", mid) && Sendable(line)
    requires size <= maxSize < HALF_RANGE && size + |line| + 2 > maxSize
    ensures Collect(input, body, size, maxSize).TooBig?
  {
    StuffedRead(line, input, mid);
  }

  lemma {:induction false} Oversize(lines: seq<string>, input: Stream, rest: Stream, body: string, size: nat, maxSize: nat)
    requires Carries(input, 0, Wire(lines), rest) && forall i :: 0 <= i < |lines| ==> Sendable(lines[i])
    requires |body| <= size <= maxSize < HALF_RANGE && size + Counted(lines) > maxSize
    ensures Collect(input, body, size, maxSize).TooBig?
    decreases |lines|
  {
    var mid := WireSplits(lines, input, rest);
    if size + |lines[0]| + 2 > maxSize {
      TooBigLine(lines[0], input, mid, body, size, maxSize);
    } else {
      CollectsLine(lines[0], input, mid, body, size, maxSize);
      Oversize(lines[1..], mid, rest, body + lines[0] + "\n", size + |lines[0]| + 2, maxSize);
    }
  }

  /** A message of sendable lines is refused exactly when its size, two octets counted for every line end, is over the limit. */
  lemma SizeDecides(lines: seq<string>, input: Stream, rest: Stream, maxSize: nat)
    requires Carries(input, 0, Wire(lines), rest) && forall i :: 0 <= i < |lines| ==> Sendable(lines[i])
    requires maxSize < HALF_RANGE
    ensures Collect(input, "", 0, maxSize).TooBig? <==> Counted(lines) > maxSize
  {
    if Counted(lines) > maxSize {
      Oversize(lines, input, rest, "", 0, maxSize);
    } else {
      DataRoundTrip(lines, input, rest, maxSize);
    }
  }

  lemma SecondLineMeetsGuard(a: string, b: string, input: Stream, mid: Stream, rest: Stream)
    requires Carries(input, 0, Stuffed(a) + "\r\n", mid) && Carries(mid, 0, Stuffed(b) + "\r\n", rest)
    requires Sendable(a) && Sendable(b)
    ensures Collect(input, "", 0, HALF_RANGE) == TooComplex(rest)
  {
    hide ReadLine, Stuffed, Carries;
    StuffedRead(a, input, mid);
    StuffedRead(b, mid, rest);
    assert Collect(input, "", 0, HALF_RANGE) == Collect(mid, "" + a + "\n", |a| + 2, HALF_RANGE);
  }

  lemma OneLineAccepted(a: string, input: Stream, mid: Stream, rest: Stream)
    requires Carries(input, 0, Stuffed(a) + "\r\n", mid) && Carries(mid, 0, ".\r\n", rest) && Sendable(a)
    ensures Collect(input, "", 0, HALF_RANGE) == Text(a + "\n", rest, false)
  {
    hide ReadLine, Stuffed, Carries;
    StuffedRead(a, input, mid);
    assert "" + a + "\n" == a + "\n";
    assert Collect(input, "", 0, HALF_RANGE) == Collect(mid, a + "\n", |a| + 2, HALF_RANGE);
    CollectsDot(mid, rest, a + "\n", |a| + 2, HALF_RANGE);
  }

  /**
   About handleData alone, since no configuration allows such a limit: at 2^63 the doubled limit wraps to zero,
   and the guard refuses a message exactly if it has at least two lines.
   */
  lemma GuardFiresWhenItWraps(lines: seq<string>, input: Stream, rest: Stream)
    requires Carries(input, 0, Wire(lines), rest) && forall i :: 0 <= i < |lines| ==> Sendable(lines[i])
    ensures Collect(input, "", 0, HALF_RANGE).TooComplex? <==> |lines| >= 2
  {
    if |lines| == 0 {
      CollectsDot(input, rest, "", 0, HALF_RANGE);
    } else {
      var mid := WireSplits(lines, input, rest);
      if |lines| == 1 {
        assert Wire(lines[1..]) == ".\r\n";
        OneLineAccepted(lines[0], input, mid, rest);
      } else {
        var next := WireSplits(lines[1..], mid, rest);
        assert Sendable(lines[0]) && Sendable(lines[1]) && lines[1..][0] == lines[1];
        SecondLineMeetsGuard(lines[0], lines[1], input, mid, next);
      }
    }
  }

  /** What was collected determines the lines. */
  lemma {:induction false} LinesRecovered(a: seq<string>, b: seq<string>)
    requires Joined(a) == Joined(b)
    requires forall i :: 0 <= i < |a| ==> '\n' !in a[i]
    requires forall i :: 0 <= i < |b| ==> '\n' !in b[i]
    ensures a == b
  {
    if a != [] && b != [] {
      var s := Joined(a);
      assert s[|a[0]|] == '\n' && s[|b[0]|] == '\n';
      assert s[..|a[0]|] == a[0] && s[..|b[0]|] == b[0];
      assert |a[0]| == |b[0]|;
      assert s[|a[0]| + 1..] == Joined(a[1..]) && s[|b[0]| + 1..] == Joined(b[1..]);
      LinesRecovered(a[1..], b[1..]);
      assert a == [a[0]] + a[1..] && b == [b[0]] + b[1..];
    }
  }

  // ------------------------------------------------------------------ lines that are not as they should be

  function WithoutCr(s: string): string {
    if s == "" then "" else (if s[0] == '\r' then "" else [s[0]]) + WithoutCr(s[1..])
  }

  /** What LineFrom makes of a line with `text` read before. */
  ghost predicate LineOutcome(r: Line, text: string, line: string, rest: Stream) {
    if |text| + |WithoutCr(line)| <= 1024 then r == Line(true, text + WithoutCr(line), false, rest) else !r.ok && r.tooLong
  }

  lemma OutcomeGrows(r: Line, text: string, line: string, rest: Stream)
    requires line != ""
    requires LineOutcome(r, if line[0] == '\r' then text else text + [line[0]], line[1..], rest)
    ensures LineOutcome(r, text, line, rest)
  {
    if line[0] == '\r' {
      assert "" + WithoutCr(line[1..]) == WithoutCr(line[1..]);
    } else {
      assert text + [line[0]] + WithoutCr(line[1..]) == text + ([line[0]] + WithoutCr(line[1..]));
    }
  }

  /**
   Whatever stands in front of a line feed is read without its carriage returns if that is at most 1024
   characters; a longer line ends the reading and is answered as too long.
   */
  lemma {:induction false} AnyLineRead(input: Stream, faults: nat, text: string, line: string, rest: Stream)
    requires Carries(input, faults, line + "\n", rest) && '\n' !in line && |text| <= 1024
    ensures LineOutcome(LineFrom(input, text, faults), text, line, rest)
    decreases |input|
  {
    hide LineOutcome;
    var s := line + "\n";
    if input[0].Fault? {
      AnyLineRead(input[1..], faults + 1, text, line, rest);
    } else if line == "" {
      EmptyLineRead(input, text, faults, rest);
    } else {
      var c := line[0];
      assert s[1..] == line[1..] + "\n" && c == s[0] && c in line;
      if c == '\r' {
        AnyLineRead(input[1..], 0, text, line[1..], rest);
        OutcomeGrows(LineFrom(input[1..], text, 0), text, line, rest);
      } else if |text| < 1024 {
        AnyLineRead(input[1..], 0, text + [c], line[1..], rest);
        OutcomeGrows(LineFrom(input[1..], text + [c], 0), text, line, rest);
      } else {
        LineTooLong(input, text, faults, line, rest);
      }
    }
  }

  lemma EmptyLineRead(input: Stream, text: string, faults: nat, rest: Stream)
    requires Carries(input, faults, "" + "\n", rest) && input[0].Byte? && |text| <= 1024
    ensures LineOutcome(LineFrom(input, text, faults), text, "", rest)
  {
    assert ("" + "\n")[1..] == "" && text + "" == text;
  }

  lemma LineTooLong(input: Stream, text: string, faults: nat, line: string, rest: Stream)
    requires input != [] && line != "" && input[0] == Byte(line[0]) && line[0] != '\r' && line[0] != '\n' && |text| == 1024
    ensures LineOutcome(LineFrom(input, text, faults), text, line, rest)
  {
  }

  function Faults(n: nat): Stream {
    if n == 0 then [] else [Fault] + Faults(n - 1)
  }

  /** Four faults in a row end the reading, three do not; so does the end of the connection. */
  lemma {:induction false} FaultsRead(n: nat, input: Stream, text: string, faults: nat)
    requires faults + n <= 4
    ensures LineFrom(Faults(n) + input, text, faults) ==
            if n > 0 && faults + n == 4 then Line(false, text, false, input) else LineFrom(input, text, faults + n)
    ensures LineFrom([], text, faults) == Line(false, text, false, [])
  {
    var s := Faults(n) + input;
    if n == 0 {
      assert s == input;
    } else {
      assert s[0] == Fault && s[1..] == Faults(n - 1) + input;
      FaultsRead(n - 1, input, text, faults + 1);
    }
  }

  /** The lines of a message in wire form, without the final dot. */
  function Unended(lines: seq<string>): string {
    if lines == [] then "" else Stuffed(lines[0]) + "\r\n" + Unended(lines[1..])
  }

  /** A connection that ends in the middle of a message does not undo it: what came so far is collected all the same. */
  lemma {:induction false} CutOffCollected(lines: seq<string>, input: Stream, body: string, size: nat, maxSize: nat)
    requires Carries(input, 0, Unended(lines), []) && forall i :: 0 <= i < |lines| ==> Sendable(lines[i])
    requires |body| <= size && size + Counted(lines) <= maxSize < HALF_RANGE
    ensures Collect(input, body, size, maxSize) == Text(body + Joined(lines), [], false)
    decreases |lines|
  {
    if lines == [] {
      assert body + "" == body;
    } else {
      var line := Stuffed(lines[0]) + "\r\n";
      assert Unended(lines) == line + Unended(lines[1..]);
      var mid := CarriesSplit(input, 0, line, Unended(lines[1..]), []);
      CollectsLine(lines[0], input, mid, body, size, maxSize);
      CutOffCollected(lines[1..], mid, body + lines[0] + "\n", size + |lines[0]| + 2, maxSize);
      JoinedGrows(body, lines);
    }
  }

  /** So does a line that is too long: it ends the message, and what came before it is collected. */
  lemma {:induction false} OverlongCollected(lines: seq<string>, long: string, input: Stream, rest: Stream, body: string, size: nat, maxSize: nat)
    requires Carries(input, 0, Unended(lines) + (long + "\n"), rest) && '\n' !in long && |WithoutCr(long)| > 1024
    requires (forall i :: 0 <= i < |lines| ==> Sendable(lines[i])) && |body| <= size && size + Counted(lines) <= maxSize < HALF_RANGE
    ensures var r := Collect(input, body, size, maxSize); r.Text? && r.body == body + Joined(lines) && r.tooLong
    decreases |lines|
  {
    if lines == [] {
      assert Unended(lines) + (long + "\n") == long + "\n" && body + "" == body;
      AnyLineRead(input, 0, "", long, rest);
    } else {
      var line := Stuffed(lines[0]) + "\r\n";
      var more := Unended(lines[1..]) + (long + "\n");
      assert Unended(lines) + (long + "\n") == line + more;
      var mid := CarriesSplit(input, 0, line, more, rest);
      CollectsLine(lines[0], input, mid, body, size, maxSize);
      OverlongCollected(lines[1..], long, mid, rest, body + lines[0] + "\n", size + |lines[0]| + 2, maxSize);
      JoinedGrows(body, lines);
    }
  }

  /** A plain stream without faults carries its bytes. */
  lemma {:induction false} BytesCarry(s: string, rest: Stream)
    ensures Carries(Bytes(s) + rest, 0, s, rest)
  {
    if s == "" {
      assert Bytes(s) + rest == rest;
    } else {
      assert (Bytes(s) + rest)[1..] == Bytes(s[1..]) + rest;
      BytesCarry(s[1..], rest);
    }
  }
}
