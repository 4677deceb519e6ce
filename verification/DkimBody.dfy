/**
 Canonicalization of a message body for DKIM (section 3.4 of RFC 6376) as the server does it: carriage
 returns are dropped, line feeds written as CRLF, and empty lines at the end removed. `None` is the
 exception that `substr` throws when its position wraps around.
 */
module DkimBody {
  import opened Options
  import opened Strings

  const CRLF := "\r\n"

  function DropCR(s: string): (r: string)
    ensures '\r' !in r
    ensures '\r' !in s ==> r == s
  {
    if s == "" then ""
    else if s[|s| - 1] == '\r' then DropCR(s[..|s| - 1])
    else DropCR(s[..|s| - 1]) + [s[|s| - 1]]
  }

  function ExpandLF(s: string): (r: string)
    ensures |r| >= |s| && (|r| == 0 <==> |s| == 0)
  {
    if s == "" then ""
    else if s[|s| - 1] == '\n' then ExpandLF(s[..|s| - 1]) + CRLF
    else ExpandLF(s[..|s| - 1]) + [s[|s| - 1]]
  }

  function StripLF(s: string): (r: string)
    ensures |r| <= |s| && r == s[..|r|] && (r == "" || r[|r| - 1] != '\n')
    ensures forall k :: |r| <= k < |s| ==> s[k] == '\n'
  {
    if s != "" && s[|s| - 1] == '\n' then StripLF(s[..|s| - 1]) else s
  }

  /** What is left of a body: no carriage return and no line feed at the end. */
  function Reduced(body: string): string { StripLF(DropCR(body)) }

  /** One character, then at least one line feed. */
  predicate Throws(body: string) {
    |Reduced(body)| == 1 < |DropCR(body)|
  }

  function Canonical(body: string): Option<string> {
    if Throws(body) then None else Some(ExpandLF(Reduced(body)) + CRLF)
  }

  predicate EndsInCRLF(b: string) {
    |b| >= 2 && b[|b| - 2..] == CRLF
  }

  lemma CRLFEndsLF(t: string)
    requires '\r' !in t
    ensures EndsInCRLF(ExpandLF(t)) <==> t != "" && t[|t| - 1] == '\n'
  {
    var b := ExpandLF(t);
    if EndsInCRLF(b) {
      assert b[|b| - 1] == b[|b| - 2..][1] == '\n';
      assert t[|t| - 1] == b[|b| - 1];
    }
  }

  lemma ShortExpansion(t: string)
    ensures |ExpandLF(t)| == 1 <==> |t| == 1 && t[0] != '\n'
  {
    if |t| == 1 {
      assert t[..0] == "" && t == [t[0]];
    } else if |t| > 1 {
      assert |ExpandLF(t[..|t| - 1])| >= |t| - 1;
    }
  }

  lemma {:induction false} StripIs(t: string, n: nat)
    requires n <= |t| && (forall k :: n <= k < |t| ==> t[k] == '\n') && (n == 0 || t[n - 1] != '\n')
    ensures StripLF(t) == t[..n]
  {
    if n < |t| {
      StripIs(t[..|t| - 1], n);
      assert t[..|t| - 1][..n] == t[..n];
    } else {
      assert t[..n] == t;
    }
  }

  lemma NothingExpands()
    ensures ExpandLF(DropCR("")) == ""
  {
  }

  /** One turn of the first loop. */
  lemma CharAdded(body: string, i: nat)
    requires i < |body|
    ensures ExpandLF(DropCR(body[..i + 1])) == ExpandLF(DropCR(body[..i])) +
              (if body[i] == '\r' then "" else if body[i] == '\n' then CRLF else [body[i]])
  {
    var d := DropCR(body[..i]);
    assert body[..i + 1][..i] == body[..i];
    if body[i] != '\r' {
      assert DropCR(body[..i + 1]) == d + [body[i]] && (d + [body[i]])[..|d|] == d;
    }
  }

  /** Nothing but line feeds from n on. */
  predicate OnlyLFs(t: string, n: nat) {
    n <= |t| && forall k :: n <= k < |t| ==> t[k] == '\n'
  }

  lemma LastCRLF(t: string, n: nat)
    requires '\r' !in t && n <= |t| && EndsInCRLF(ExpandLF(t[..n]))
    ensures n > 0 && t[n - 1] == '\n' && ExpandLF(t[..n]) == ExpandLF(t[..n - 1]) + CRLF
  {
    CRLFEndsLF(t[..n]);
    assert t[..n][..n - 1] == t[..n - 1];
  }

  /** What stands before the last CRLF decides how the second loop goes on. */
  lemma BeforeLastCRLF(u: string)
    requires '\r' !in u
    ensures |ExpandLF(u)| == 0 ==> u == ""
    ensures |ExpandLF(u)| == 1 ==> |u| == 1 && u[0] != '\n'
    ensures |ExpandLF(u)| >= 2 ==> u != "" && (EndsInCRLF(ExpandLF(u)) <==> u[|u| - 1] == '\n')
    ensures |ExpandLF(u)| >= 2 && |u| == 1 ==> u[0] == '\n'
  {
    CRLFEndsLF(u);
    ShortExpansion(u);
  }

  /** The text u is what is left when only line feeds have been removed and none is at its end. */
  lemma Left(body: string, n: nat)
    requires OnlyLFs(DropCR(body), n) && (n == 0 || DropCR(body)[n - 1] != '\n')
    ensures Canonical(body) == if n == 1 < |DropCR(body)| then None else Some(ExpandLF(DropCR(body)[..n]) + CRLF)
  {
    StripIs(DropCR(body), n);
  }

  /** The first loop: carriage returns are dropped and line feeds written as CRLF. */
  method Expand(body: string) returns (b: string)
    ensures b == ExpandLF(DropCR(body))
  {
    hide ExpandLF, DropCR;
    b := "";
    var i := 0;
    NothingExpands();
    while i < |body|
      invariant i <= |body| && b == ExpandLF(DropCR(body[..i]))
    {
      CharAdded(body, i);
      if body[i] == '\n' {
        b := b + CRLF;
      } else if body[i] != '\r' {
        b := b + [body[i]];
      }
      i := i + 1;
    }
    assert body[..i] == body;
  }

  /** canonicalizeBodyRelaxed: the first loop, and then the second, which takes line breaks off the end. */
  method CanonicalizeBodyRelaxed(body: string) returns (r: Option<string>)
    ensures r == Canonical(body)
  {
    hide ExpandLF, DropCR, StripLF, Canonical, Shortened, EndsInCRLF;
    var b := Expand(body);
    ghost var n: nat := |DropCR(body)|;
    NothingTaken(body);
    while EndsInCRLF(b)
      invariant n <= |DropCR(body)| && Shortened(body, n, b) && (n < |DropCR(body)| ==> EndsInCRLF(b))
      decreases |b|
    {
      BreakTaken(body, n, b);
      var pos := |b| - 2;
      if pos == 0 { break; }
      if pos == 1 { return None; }
      if b[pos - 2..pos] != CRLF { break; }
      b := b[..pos];
      n := n - 1;
    }

    if !EndsInCRLF(b) {
      NoBreak(body, b);
      b := b + CRLF;
    }
    r := Some(b);
  }

  /** The second loop has taken off all line feeds from n on. */
  ghost predicate Shortened(body: string, n: nat, b: string) {
    OnlyLFs(DropCR(body), n) && b == ExpandLF(DropCR(body)[..n])
  }

  lemma NothingTaken(body: string)
    ensures Shortened(body, |DropCR(body)|, ExpandLF(DropCR(body)))
  {
    assert DropCR(body)[..|DropCR(body)|] == DropCR(body);
  }

  /** One more line break at the end: what is in front of it decides how the second loop goes on. */
  lemma BreakTaken(body: string, n: nat, b: string)
    requires Shortened(body, n, b) && EndsInCRLF(b)
    ensures n > 0 && |b| >= 2 && Shortened(body, n - 1, b[..|b| - 2])
    ensures |b| == 2 ==> Canonical(body) == Some(b)
    ensures |b| == 3 ==> Canonical(body) == None
    ensures |b| >= 4 && b[|b| - 4..|b| - 2] != CRLF ==> Canonical(body) == Some(b)
    ensures |b| >= 4 && b[|b| - 4..|b| - 2] == CRLF ==> EndsInCRLF(b[..|b| - 2])
  {
    hide ExpandLF, DropCR, StripLF, Canonical;
    var t, u := DropCR(body), b[..|b| - 2];
    LastCRLF(t, n);
    BeforeLastCRLF(t[..n - 1]);
    assert u == ExpandLF(t[..n - 1]);
    if |b| >= 4 { assert b[|b| - 4..|b| - 2] == u[|u| - 2..]; }
    if |b| < 4 || b[|b| - 4..|b| - 2] != CRLF { Left(body, n - 1); }
  }

  lemma NoBreak(body: string, b: string)
    requires Shortened(body, |DropCR(body)|, b) && !EndsInCRLF(b)
    ensures Canonical(body) == Some(b + CRLF)
  {
    hide ExpandLF, DropCR, StripLF, Canonical;
    var t := DropCR(body);
    assert t[..|t|] == t;
    CRLFEndsLF(t);
    Left(body, |t|);
  }

  // ------------------------------------------------------------------ what the form tells apart

  /** A line break or another character at the end of a text, with the carriage returns dropped. */
  lemma DropsAdded(b: string, c: char)
    requires c != '\r'
    ensures DropCR(b + CRLF) == DropCR(b) + "\n" && DropCR(b + [c]) == DropCR(b) + [c]
  {
    var head := b + "\r";
    assert b + CRLF == head + "\n" && (head + "\n")[..|head|] == head && head[..|b|] == b;
    assert (b + [c])[..|b|] == b;
  }

  lemma NothingDropped()
    ensures DropCR("") == ""
  {
  }

  lemma {:induction false} ExpandUndone(t: string)
    requires '\r' !in t
    ensures DropCR(ExpandLF(t)) == t
  {
    hide DropCR;
    if t == "" {
      NothingDropped();
    } else {
      var rest := t[..|t| - 1];
      ExpandUndone(rest);
      DropsAdded(ExpandLF(rest), t[|t| - 1]);
      assert t == rest + [t[|t| - 1]];
    }
  }

  /** Reading the canonical form again finds the same text with one line feed behind it. */
  lemma CanonicalReduces(text: string)
    requires '\r' !in text && (text == "" || text[|text| - 1] != '\n')
    ensures DropCR(ExpandLF(text) + CRLF) == text + "\n"
    ensures Reduced(ExpandLF(text) + CRLF) == text
  {
    var t := text + "\n";
    assert t[..|t| - 1] == text;
    ExpandUndone(t);
    StripIs(t, |text|);
  }

  /** Two bodies have the same canonical form exactly when they agree without CRs and final line feeds. */
  lemma SameForm(a: string, b: string)
    requires !Throws(a) && !Throws(b)
    ensures Canonical(a) == Canonical(b) <==> Reduced(a) == Reduced(b)
  {
    CanonicalReduces(Reduced(a));
    CanonicalReduces(Reduced(b));
  }

  /** The form of the form: the same again, except that a single character makes it throw. */
  lemma Idempotent(body: string)
    requires !Throws(body)
    ensures Canonical(Canonical(body).value) == Canonical(body) <==> |Reduced(body)| != 1
  {
    CanonicalReduces(Reduced(body));
  }

  // ------------------------------------------------------------------ bodies as lines

  predicate PlainLine(line: string) { '\r' !in line && '\n' !in line }

  function Wire(lines: seq<string>): string {
    if lines == [] then "" else Wire(lines[..|lines| - 1]) + lines[|lines| - 1] + CRLF
  }

  /** The lines without the empty ones at the end. */
  function Trimmed(lines: seq<string>): seq<string> {
    if lines != [] && lines[|lines| - 1] == "" then Trimmed(lines[..|lines| - 1]) else lines
  }

  /** The text of the lines, line feeds between them. */
  function Text(lines: seq<string>): string {
    if lines == [] then ""
    else if |lines| == 1 then lines[0]
    else Text(lines[..|lines| - 1]) + "\n" + lines[|lines| - 1]
  }

  lemma {:induction false} DropCRJoins(a: string, b: string)
    ensures DropCR(a + b) == DropCR(a) + DropCR(b)
  {
    if b == "" {
      assert a + b == a;
    } else {
      var c := b[..|b| - 1];
      assert (a + b)[..|a + b| - 1] == a + c;
      DropCRJoins(a, c);
      assert DropCR(a) + (DropCR(c) + [b[|b| - 1]]) == (DropCR(a) + DropCR(c)) + [b[|b| - 1]];
    }
  }

  lemma LineDrops(line: string)
    requires PlainLine(line)
    ensures DropCR(line + CRLF) == line + "\n"
  {
    assert DropCR(CRLF) == "\n" by {
      assert CRLF[..1] == "\r" && "\r"[..0] == "";
    }
    DropCRJoins(line, CRLF);
  }

  lemma {:induction false} WireDrops(lines: seq<string>)
    requires lines != [] && forall i :: 0 <= i < |lines| ==> PlainLine(lines[i])
    ensures DropCR(Wire(lines)) == Text(lines) + "\n"
  {
    var rest, line := lines[..|lines| - 1], lines[|lines| - 1];
    LineDrops(line);
    DropCRJoins(Wire(rest), line + CRLF);
    assert Wire(rest) + line + CRLF == Wire(rest) + (line + CRLF);
    if rest == [] {
      assert Text(lines) == line;
    } else {
      WireDrops(rest);
      assert (Text(rest) + "\n") + (line + "\n") == Text(lines) + "\n";
    }
  }

  lemma StripOneMore(t: string)
    ensures StripLF(t + "\n") == StripLF(t)
  {
    assert (t + "\n")[..|t|] == t;
  }

  lemma {:induction false} TextStrips(lines: seq<string>)
    requires forall i :: 0 <= i < |lines| ==> PlainLine(lines[i])
    ensures StripLF(Text(lines)) == Text(Trimmed(lines))
  {
    if lines != [] {
      var rest, line := lines[..|lines| - 1], lines[|lines| - 1];
      if line == "" {
        TextStrips(rest);
        if rest == [] {
          assert Text(lines) == "";
        } else {
          assert Text(lines) == Text(rest) + "\n";
          StripOneMore(Text(rest));
        }
      } else {
        var t := Text(lines);
        assert t[|t| - 1] == line[|line| - 1];
      }
    }
  }

  lemma {:induction false} TextExpands(lines: seq<string>)
    requires lines != [] && forall i :: 0 <= i < |lines| ==> PlainLine(lines[i])
    ensures ExpandLF(Text(lines)) + CRLF == Wire(lines)
  {
    var rest, line := lines[..|lines| - 1], lines[|lines| - 1];
    if rest == [] {
      PlainExpands("", line);
      assert Wire(lines) == Wire(rest) + line + CRLF && Wire(rest) == "";
      assert "" + line == line;
    } else {
      TextExpands(rest);
      PlainExpands(Text(rest) + "\n", line);
      assert (Text(rest) + "\n")[..|Text(rest)|] == Text(rest);
    }
  }

  lemma {:induction false} PlainExpands(head: string, line: string)
    requires PlainLine(line)
    ensures ExpandLF(head + line) == ExpandLF(head) + line
  {
    if line == "" {
      assert head + line == head;
    } else {
      var rest := line[..|line| - 1];
      PlainExpands(head, rest);
      assert (head + line)[..|head + line| - 1] == head + rest;
      assert ExpandLF(head) + line == (ExpandLF(head) + rest) + [line[|line| - 1]];
    }
  }

  lemma TrimmedPlain(lines: seq<string>)
    requires forall i :: 0 <= i < |lines| ==> PlainLine(lines[i])
    ensures var kept := Trimmed(lines);
            (forall i :: 0 <= i < |kept| ==> PlainLine(kept[i])) && (kept == [] || kept[|kept| - 1] != "")
  {
  }

  /**
   The canonical form of a body of lines is the same lines without the empty ones at the end, and one CRLF
   when none is left; a body with one line of a single character left throws.
   */
  lemma CanonicalLines(lines: seq<string>)
    requires lines != [] && forall i :: 0 <= i < |lines| ==> PlainLine(lines[i])
    ensures var kept := Trimmed(lines);
            Canonical(Wire(lines)) ==
              if kept == [] then Some(CRLF) else if |kept| == 1 == |kept[0]| then None else Some(Wire(kept))
  {
    WireDrops(lines);
    StripOneMore(Text(lines));
    TextStrips(lines);
    TrimmedPlain(lines);
    var kept := Trimmed(lines);
    assert Reduced(Wire(lines)) == Text(kept) && |Text(kept)| <= |Text(lines)|;
    if kept == [] {
      assert ExpandLF("") + CRLF == CRLF;
    } else {
      TextExpands(kept);
      assert |Text(kept)| == 1 <==> |kept| == 1 == |kept[0]|;
    }
  }
}
