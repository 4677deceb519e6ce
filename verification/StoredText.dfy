/** The text of a stored message: header lines, an empty line, and the raw data; and how a reader of mail takes it apart. */
module StoredText {
  import opened Options
  import opened Strings

  datatype StoredMessage = StoredMessage(id: string, from: string, recipients: seq<string>, rawData: string, mailboxUser: string)

  function ToLines(recipients: seq<string>): string {
    if recipients == [] then "" else "To: " + recipients[0] + "\r\n" + ToLines(recipients[1..])
  }

  /** The text of a stored message. */
  function Rendered(msg: StoredMessage, id: string): string {
    "From: " + msg.from + "\r\n" + ToLines(msg.recipients) + "Message-ID: <" + id + "@local>\r\n" + "\r\n" + msg.rawData
  }

  lemma ToLinesSnoc(rs: seq<string>, r: string)
    ensures ToLines(rs + [r]) == ToLines(rs) + "To: " + r + "\r\n"
  {
    if rs != [] {
      ToLinesSnoc(rs[1..], r);
      assert (rs + [r])[1..] == rs[1..] + [r];
    } else {
      assert (rs + [r])[1..] == [];
    }
  }

  method Render(msg: StoredMessage, id: string) returns (content: string)
    ensures content == Rendered(msg, id)
  {
    content := "From: " + msg.from + "\r\n";
    var i := 0;
    while i < |msg.recipients|
      invariant 0 <= i <= |msg.recipients|
      invariant content == "From: " + msg.from + "\r\n" + ToLines(msg.recipients[..i])
    {
      ToLinesSnoc(msg.recipients[..i], msg.recipients[i]);
      assert msg.recipients[..i + 1] == msg.recipients[..i] + [msg.recipients[i]];
      content := content + "To: " + msg.recipients[i] + "\r\n";
      i := i + 1;
    }
    assert msg.recipients[..i] == msg.recipients;
    content := content + "Message-ID: <" + id + "@local>\r\n" + "\r\n" + msg.rawData;
  }

  // ------------------------------------------------------------------ reading it

  datatype Mail = Mail(headers: seq<string>, body: string)

  /** A reader of mail: the lines ended by CRLF up to the first empty one, and the text behind that. */
  function ReadMail(text: string): Option<Mail>
    decreases |text|
  {
    var k := Find(text, "\r\n", 0);
    if k.None? then None
    else if k.value == 0 then Some(Mail([], text[2..]))
    else
      var more := ReadMail(text[k.value + 2..]);
      if more.None? then None else Some(Mail([text[..k.value]] + more.value.headers, more.value.body))
  }

  predicate OneLine(s: string) { Find(s, "\r\n", 0).None? }

  function Block(lines: seq<string>): string {
    if lines == [] then "" else lines[0] + "\r\n" + Block(lines[1..])
  }

  /** The line break behind a line is the first one unless the line has one inside. */
  lemma FirstBreak(line: string, rest: string)
    ensures Find(line + "\r\n" + rest, "\r\n", 0).Some?
    ensures var k := Find(line + "\r\n" + rest, "\r\n", 0).value; k <= |line| && (k == |line| <==> OneLine(line))
  {
    hide Find;
    var text := line + "\r\n" + rest;
    assert text[|line|..|line| + 2] == "\r\n";
    NoneEarlier(text, "\r\n", 0);
    NoneEarlier(line, "\r\n", 0);
    forall k | 0 <= k < |line| ensures OccursAt(text, "\r\n", k) <==> OccursAt(line, "\r\n", k) {
      if k + 2 <= |line| {
        assert text[k..k + 2] == line[k..k + 2];
      } else if OccursAt(text, "\r\n", k) {
        OccursChar(text, "\r\n", k, 1);
      }
    }
    assert OccursAt(text, "\r\n", |line|);
  }

  lemma LineRead(line: string, rest: string)
    requires line != "" && OneLine(line)
    ensures ReadMail(line + "\r\n" + rest) ==
            if ReadMail(rest).None? then None
            else Some(Mail([line] + ReadMail(rest).value.headers, ReadMail(rest).value.body))
  {
    hide OneLine;
    FirstBreak(line, rest);
    var text := line + "\r\n" + rest;
    assert text[..|line|] == line && text[|line| + 2..] == rest;
  }

  /** With a line break inside, a line is read as less. */
  lemma LineCut(line: string, rest: string)
    requires !OneLine(line)
    ensures var r := ReadMail(line + "\r\n" + rest); r.Some? && r.value.headers != [] ==> |r.value.headers[0]| < |line|
  {
    hide OneLine;
    FirstBreak(line, rest);
  }

  /** Header lines and a body are read back exactly if every header line is one line. */
  lemma {:induction false} BlockRead(lines: seq<string>, body: string)
    requires forall i :: 0 <= i < |lines| ==> lines[i] != ""
    ensures ReadMail(Block(lines) + "\r\n" + body) == Some(Mail(lines, body)) <==> forall i :: 0 <= i < |lines| ==> OneLine(lines[i])
  {
    hide OneLine, Find;
    var text := Block(lines) + "\r\n" + body;
    if lines == [] {
      assert text == "" + "\r\n" + body;
      FirstBreak("", body);
      assert text[2..] == body;
    } else {
      var rest := Block(lines[1..]) + "\r\n" + body;
      assert text == lines[0] + "\r\n" + rest;
      BlockRead(lines[1..], body);
      if OneLine(lines[0]) {
        LineRead(lines[0], rest);
        if ReadMail(rest).Some? { HeadAndTail(lines, ReadMail(rest), body); }
      } else {
        LineCut(lines[0], rest);
      }
    }
  }

  lemma HeadAndTail(lines: seq<string>, more: Option<Mail>, body: string)
    requires lines != [] && more.Some?
    ensures Mail([lines[0]] + more.value.headers, more.value.body) == Mail(lines, body) <==> more.value == Mail(lines[1..], body)
  {
    assert [lines[0]] + lines[1..] == lines;
    assert ([lines[0]] + more.value.headers)[1..] == more.value.headers;
  }

  /** The header lines of a stored message: the sender, every recipient in order, the id. */
  function HeaderLines(msg: StoredMessage, id: string): seq<string> {
    ["From: " + msg.from]
    + ToHeaders(msg.recipients)
    + ["Message-ID: <" + id + "@local>"]
  }

  function ToHeaders(recipients: seq<string>): seq<string> {
    seq(|recipients|, i requires 0 <= i < |recipients| => "To: " + recipients[i])
  }

  lemma {:induction false} BlockJoins(a: seq<string>, b: seq<string>)
    ensures Block(a + b) == Block(a) + Block(b)
  {
    if a == [] {
      assert a + b == b;
    } else {
      assert (a + b)[1..] == a[1..] + b;
      BlockJoins(a[1..], b);
    }
  }

  lemma {:induction false} ToLinesAreBlock(recipients: seq<string>)
    ensures Block(ToHeaders(recipients)) == ToLines(recipients)
  {
    if recipients != [] {
      assert ToHeaders(recipients)[1..] == ToHeaders(recipients[1..]);
      ToLinesAreBlock(recipients[1..]);
    }
  }

  lemma RenderedIsBlock(msg: StoredMessage, id: string)
    ensures Rendered(msg, id) == Block(HeaderLines(msg, id)) + "\r\n" + msg.rawData
  {
    var first, last := "From: " + msg.from, "Message-ID: <" + id + "@local>";
    assert HeaderLines(msg, id) == [first] + ToHeaders(msg.recipients) + [last];
    BlockJoins([first] + ToHeaders(msg.recipients), [last]);
    BlockJoins([first], ToHeaders(msg.recipients));
    ToLinesAreBlock(msg.recipients);
    assert [first][1..] == [] && [last][1..] == [];
    assert Block([first]) == first + "\r\n" && Block([last]) == last + "\r\n";
    assert last + "\r\n" == "Message-ID: <" + id + "@local>\r\n";
  }

  lemma BreakInside(front: string, s: string, back: string)
    requires !OneLine(s)
    ensures !OneLine(front + s + back)
  {
    hide OneLine;
    var t := front + s + back;
    var k := BreakFound("", s, "") by { assert "" + s + "" == s; }
    HasBreak(t, |front| + k) by { assert t[|front| + k..|front| + k + 2] == s[k..k + 2]; }
  }

  lemma BreakFound(front: string, s: string, back: string) returns (k: nat)
    requires '\r' !in front && '\n' !in front && '\r' !in back && '\n' !in back && !OneLine(front + s + back)
    ensures OccursAt(s, "\r\n", k)
  {
    hide Find;
    var t := front + s + back;
    var j := Find(t, "\r\n", 0).value;
    OccursChar(t, "\r\n", j, 0);
    OccursChar(t, "\r\n", j, 1);
    assert t[j] == '\r' && t[j + 1] == '\n' && |front| <= j && j + 2 <= |front| + |s|;
    k := j - |front|;
    assert s[k..k + 2] == t[j..j + 2];
  }

  lemma HasBreak(s: string, k: nat)
    requires OccursAt(s, "\r\n", k)
    ensures !OneLine(s)
  {
    hide Find;
    NoneEarlier(s, "\r\n", 0);
  }

  lemma OneLineInside(front: string, s: string, back: string)
    requires '\r' !in front && '\n' !in front && '\r' !in back && '\n' !in back
    ensures OneLine(front + s + back) <==> OneLine(s)
  {
    hide OneLine;
    if !OneLine(s) { BreakInside(front, s, back); }
    if !OneLine(front + s + back) {
      var k := BreakFound(front, s, back);
      HasBreak(s, k);
    }
  }

  /** The text of a stored file tells a reader of mail this sender, these recipients, this id and this raw data. */
  ghost predicate IsStored(text: string, msg: StoredMessage, id: string) {
    && (exists front :: text == front + "\r\n" + msg.rawData)
    && (ReadMail(text) == Some(Mail(HeaderLines(msg, id), msg.rawData))
        <==> OneLine(msg.from) && OneLine(id) && forall i :: 0 <= i < |msg.recipients| ==> OneLine(msg.recipients[i]))
  }

  /**
   Reading the stored text gives back the header lines and the raw data, for any message, if and only if no
   line break hides in the sender, a recipient or the id; in any case the file ends with the raw data.
   */
  lemma StoredRead(msg: StoredMessage, id: string)
    ensures IsStored(Rendered(msg, id), msg, id)
  {
    hide OneLine, ReadMail, Rendered, Block;
    var lines, n := HeaderLines(msg, id), |msg.recipients|;
    RenderedIsBlock(msg, id);
    BlockRead(lines, msg.rawData);
    OneLineInside("From: ", msg.from, "");
    assert "From: " + msg.from + "" == lines[0];
    OneLineInside("Message-ID: <", id, "@local>");
    assert lines[n + 1] == "Message-ID: <" + id + "@local>";
    forall i | 0 <= i < n ensures lines[i + 1] == "To: " + msg.recipients[i] && (OneLine(lines[i + 1]) <==> OneLine(msg.recipients[i])) {
      OneLineInside("To: ", msg.recipients[i], "");
      assert "To: " + msg.recipients[i] + "" == lines[i + 1];
    }
    assert forall j :: 0 < j <= n ==> lines[j] == lines[(j - 1) + 1];
  }

  /** Without line breaks in sender and recipients, as in every SMTP session, a reader gets exactly what was stored. */
  lemma PlainIsReadBack(text: string, msg: StoredMessage, ms: nat)
    requires IsStored(text, msg, Decimal(ms))
    requires '\n' !in msg.from && forall i :: 0 <= i < |msg.recipients| ==> '\n' !in msg.recipients[i]
    ensures ReadMail(text) == Some(Mail(HeaderLines(msg, Decimal(ms)), msg.rawData))
  {
    hide ReadMail, Find;
    NoLineFeed(msg.from);
    NoLineFeed(Decimal(ms));
    forall i | 0 <= i < |msg.recipients| ensures OneLine(msg.recipients[i]) {
      NoLineFeed(msg.recipients[i]);
    }
  }

  lemma NoLineFeed(s: string)
    requires '\n' !in s
    ensures OneLine(s)
  {
    hide Find;
    if !OneLine(s) {
      OccursChar(s, "\r\n", Find(s, "\r\n", 0).value, 1);
    }
  }
}
