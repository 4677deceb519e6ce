/**
 Canonicalization of header fields for DKIM (section 3.4.2 of RFC 6376): folded lines are joined, the last
 field of every wanted name is chosen, and its value is reduced to its words with single spaces between them.
 */
module DkimHeaders {
  import opened Lines
  import opened Options
  import opened Strings
  import opened WordLists

  const WSP := {' ', '\t'}

  predicate IsWsp(c: char) { c in WSP }

  /** Neither end is whitespace, no tab, and no two spaces in a row. */
  predicate SingleSpaced(s: string) {
    && (s != "" ==> !IsWsp(s[0]) && !IsWsp(s[|s| - 1]))
    && (forall i :: 0 <= i < |s| ==> s[i] != '\t')
    && (forall i :: 0 < i < |s| ==> !(IsWsp(s[i]) && IsWsp(s[i - 1])))
  }

  lemma {:induction false} JoinIsSingleSpaced(ws: seq<string>)
    requires AllWords(ws, WSP)
    ensures SingleSpaced(Join(ws)) && (Join(ws) == "" <==> ws == [])
  {
    if |ws| > 1 {
      var rest, w := ws[..|ws| - 1], ws[|ws| - 1];
      JoinIsSingleSpaced(rest);
      assert IsWord(w, WSP);
    } else if |ws| == 1 {
      assert IsWord(ws[0], WSP);
    }
  }

  // ------------------------------------------------------------------ compressWsp and the trimming

  function Compressed(s: string): string {
    if s == "" then ""
    else
      var rest, c := s[..|s| - 1], s[|s| - 1];
      if !IsWsp(c) then Compressed(rest) + [c]
      else if rest != "" && IsWsp(rest[|rest| - 1]) then Compressed(rest)
      else Compressed(rest) + " "
  }

  method CompressWsp(s: string) returns (out: string)
    ensures out == Compressed(s)
  {
    out := "";
    var inWsp := false;
    var i := 0;
    while i < |s|
      invariant i <= |s| && out == Compressed(s[..i])
      invariant inWsp <==> i > 0 && IsWsp(s[i - 1])
    {
      assert s[..i + 1][..i] == s[..i];
      if s[i] == ' ' || s[i] == '\t' {
        if !inWsp { out := out + " "; }
        inWsp := true;
      } else {
        out := out + [s[i]];
        inWsp := false;
      }
      i := i + 1;
    }
    assert s[..i] == s;
  }

  /** Without whitespace in front, compression leaves the words joined, and a space for whitespace at the end. */
  lemma {:induction false} CompressedIsJoined(s: string)
    requires s == "" || !IsWsp(s[0])
    ensures Compressed(s) == Join(Words(s, WSP)) + (if s == "" || EndsInside(s, WSP) then "" else " ")
  {
    if s != "" {
      var rest, c := s[..|s| - 1], s[|s| - 1];
      CompressedIsJoined(rest);
      FirstWord(rest);
      if !IsWsp(c) {
        GrownJoins(Words(rest, WSP), EndsInside(rest, WSP), c);
      }
    }
  }

  lemma GrownJoins(ws: seq<string>, inside: bool, c: char)
    requires !IsWsp(c) && (inside ==> ws != [])
    ensures Join(Grown(ws, inside, c, WSP)) == Join(ws) + (if inside || ws == [] then "" else " ") + [c]
  {
    if inside {
      LastWordGrows(ws, c);
    } else {
      assert (ws + [[c]])[..|ws|] == ws;
    }
  }

  lemma {:induction false} FirstWord(s: string)
    ensures s != "" && !IsWsp(s[0]) ==> Words(s, WSP) != []
  {
    if s != "" && !IsWsp(s[0]) {
      if |s| > 1 { FirstWord(s[..|s| - 1]); }
    }
  }

  lemma LastWordGrows(ws: seq<string>, c: char)
    requires ws != []
    ensures Join(ws[..|ws| - 1] + [ws[|ws| - 1] + [c]]) == Join(ws) + [c]
  {
    var more := ws[..|ws| - 1] + [ws[|ws| - 1] + [c]];
    assert more[..|more| - 1] == ws[..|ws| - 1];
  }

  /** The value of a field: erase up to the first and behind the last visible character, then compress. */
  method CanonicalValue(text: string) returns (value: string)
    ensures value == Join(Words(text, WSP))
  {
    var first := 0;
    while first < |text| && IsWsp(text[first])
      invariant first <= |text| && Blank(text[..first], WSP)
    {
      first := first + 1;
    }
    var last := |text|;
    while last > first && IsWsp(text[last - 1])
      invariant first <= last <= |text| && Blank(text[last..], WSP)
    {
      last := last - 1;
    }
    value := CompressWsp(text[first..last]);

    ghost var front, middle, back := text[..first], text[first..last], text[last..];
    assert front + middle + back == text;
    BlankHasNoWords(front, WSP);
    BlankHasNoWords(back, WSP);
    WordsSplit(front, middle, WSP);
    assert back == "" || IsWsp(back[0]);
    WordsSplit(front + middle, back, WSP);
    assert middle == "" || (!IsWsp(middle[0]) && EndsInside(middle, WSP));
    CompressedIsJoined(middle);
    assert Words(front, WSP) + Words(middle, WSP) == Words(middle, WSP) && Words(middle, WSP) + Words(back, WSP) == Words(middle, WSP);
  }

  // ------------------------------------------------------------------ lines

  function Chomp(line: string): string {
    if line != "" && line[|line| - 1] == '\r' then line[..|line| - 1] else line
  }

  function Chomped(lines: seq<string>): (r: seq<string>)
    ensures |r| == |lines| && forall i :: 0 <= i < |r| ==> r[i] == Chomp(lines[i])
  {
    seq(|lines|, i requires 0 <= i < |lines| => Chomp(lines[i]))
  }

  lemma ChompedJoins(a: seq<string>, b: seq<string>)
    ensures Chomped(a + b) == Chomped(a) + Chomped(b)
  {
  }

  function PhysicalLines(s: string): seq<string> { Chomped(SplitLines(s)) }

  /** The logical lines finished so far and the one still growing. */
  datatype Unfolding = Unfolding(lines: seq<string>, current: string) {
    function Flushed(): seq<string> {
      if current == "" then lines else lines + [current]
    }

    function Absorb(line: string): Unfolding {
      if line != "" && IsWsp(line[0]) then Unfolding(lines, current + " " + line[1..])
      else Unfolding(Flushed(), line)
    }
  }

  function Unfold(physical: seq<string>): Unfolding {
    if physical == [] then Unfolding([], "")
    else Unfold(physical[..|physical| - 1]).Absorb(physical[|physical| - 1])
  }

  function LogicalLines(headers: string): seq<string> {
    Unfold(PhysicalLines(headers)).Flushed()
  }

  /** The unfolding of the lines before an offset is `u`. */
  ghost predicate UnfoldedTo(headers: string, off: nat, u: Unfolding) {
    off <= |headers| && exists done :: Unfold(done) == u && done + PhysicalLines(headers[off..]) == PhysicalLines(headers)
  }

  lemma NextAbsorbed(headers: string, off: nat, u: Unfolding, line: string, next: nat)
    requires UnfoldedTo(headers, off, u) && next <= |headers|
    requires PhysicalLines(headers[off..]) == [line] + PhysicalLines(headers[next..])
    ensures UnfoldedTo(headers, next, u.Absorb(line))
  {
    hide PhysicalLines;
    var rest := PhysicalLines(headers[next..]);
    var done :| Unfold(done) == u && done + ([line] + rest) == PhysicalLines(headers);
    assert (done + [line]) + rest == done + ([line] + rest);
    assert (done + [line])[..|done|] == done;
  }

  lemma UnfoldedAll(headers: string, u: Unfolding)
    requires UnfoldedTo(headers, |headers|, u)
    ensures LogicalLines(headers) == u.Flushed()
  {
    var done :| Unfold(done) == u && done + PhysicalLines(headers[|headers|..]) == PhysicalLines(headers);
    assert done + [] == done;
  }

  method ReadLogicalLines(headers: string) returns (lines: seq<string>)
    ensures lines == LogicalLines(headers)
  {
    lines := [];
    var current, off := "", 0;
    assert UnfoldedTo(headers, 0, Unfolding([], "")) by {
      assert headers[0..] == headers && [] + PhysicalLines(headers) == PhysicalLines(headers) && Unfold([]) == Unfolding([], "");
    }
    while off < |headers|
      invariant UnfoldedTo(headers, off, Unfolding(lines, current))
    {
      var line, next := GetLine(headers, off);
      ChompedJoins([line], SplitLines(headers[next..]));
      assert Chomped([line]) == [Chomp(line)];
      if line != "" && line[|line| - 1] == '\r' {
        line := line[..|line| - 1];
      }
      NextAbsorbed(headers, off, Unfolding(lines, current), line, next);
      if line != "" && (line[0] == ' ' || line[0] == '\t') {
        current := current + " " + line[1..];
      } else {
        if current != "" { lines := lines + [current]; }
        current := line;
      }
      off := next;
    }
    UnfoldedAll(headers, Unfolding(lines, current));
    if current != "" { lines := lines + [current]; }
  }

  // ------------------------------------------------------------------ fields

  function LowerChar(c: char): char {
    if 'A' <= c <= 'Z' then (c as int + 32) as char else c
  }

  function Lower(s: string): string {
    seq(|s|, i requires 0 <= i < |s| => LowerChar(s[i]))
  }

  lemma LowerTwice(s: string)
    ensures Lower(Lower(s)) == Lower(s)
  {
  }

  datatype Field = Field(name: string, words: seq<string>)

  /** A line with a colon is a field: its name in lower case, and the words of its value. */
  function FieldOf(line: string): Option<Field> {
    var pos := Find(line, ":", 0);
    if pos.None? then None else Some(Field(Lower(line[..pos.value]), Words(line[pos.value + 1..], WSP)))
  }

  predicate Names(line: string, want: string) {
    FieldOf(line).Some? && FieldOf(line).value.name == want
  }

  /** The last field of that name. */
  function LastField(lines: seq<string>, want: string): (r: Option<Field>)
    ensures r.Some? ==> r.value.name == want
  {
    if lines == [] then None
    else if Names(lines[|lines| - 1], want) then FieldOf(lines[|lines| - 1])
    else LastField(lines[..|lines| - 1], want)
  }

  function SelectedFields(lines: seq<string>, names: seq<string>): seq<Field> {
    if names == [] then []
    else
      var field := LastField(lines, Lower(names[|names| - 1]));
      (if field.Some? then [field.value] else []) + SelectedFields(lines, names[..|names| - 1])
  }

  function Shown(f: Field): string { f.name + ":" + Join(f.words) }

  function ShownAll(fs: seq<Field>): (r: seq<string>)
    ensures |r| == |fs| && forall i :: 0 <= i < |fs| ==> r[i] == Shown(fs[i])
  {
    seq(|fs|, i requires 0 <= i < |fs| => Shown(fs[i]))
  }

  function Canonical(headers: string, names: seq<string>): seq<string> {
    ShownAll(SelectedFields(LogicalLines(headers), names))
  }

  /** The loops of canonicalizeHeadersRelaxed: the names from the back, for each the lines from the back. */
  method CanonicalizeHeadersRelaxed(headers: string, headerNames: seq<string>) returns (out: seq<string>)
    ensures out == Canonical(headers, headerNames)
  {
    hide LastField, LogicalLines, Lower;
    var lines := ReadLogicalLines(headers);
    out := [];
    ghost var fields: seq<Field> := [];
    var i := |headerNames|;
    assert headerNames[..i] == headerNames && fields + SelectedFields(lines, headerNames) == SelectedFields(lines, headerNames);
    while i > 0
      invariant i <= |headerNames| && out == ShownAll(fields)
      invariant fields + SelectedFields(lines, headerNames[..i]) == SelectedFields(lines, headerNames)
    {
      i := i - 1;
      var found := FindLast(lines, Lower(headerNames[i]));
      assert headerNames[..i + 1][..i] == headerNames[..i];
      if found.Some? {
        out := out + [found.value];
        ghost var field := LastField(lines, Lower(headerNames[i])).value;
        assert fields + ([field] + SelectedFields(lines, headerNames[..i])) == (fields + [field]) + SelectedFields(lines, headerNames[..i]);
        fields := fields + [field];
      } else {
        assert [] + SelectedFields(lines, headerNames[..i]) == SelectedFields(lines, headerNames[..i]);
      }
    }
    assert fields + [] == fields;
  }

  /** The inner loop: the last field of a name, as it is put out. */
  method FindLast(lines: seq<string>, want: string) returns (shown: Option<string>)
    ensures var field := LastField(lines, want);
            shown == if field.None? then None else Some(Shown(field.value))
  {
    var j := |lines|;
    assert lines[..j] == lines;
    while j > 0
      invariant j <= |lines| && LastField(lines[..j], want) == LastField(lines, want)
    {
      j := j - 1;
      assert lines[..j + 1][..j] == lines[..j];
      var pos := Find(lines[j], ":", 0);
      if pos.Some? {
        var name := Lower(lines[j][..pos.value]);
        if name == want {
          var value := CanonicalValue(lines[j][pos.value + 1..]);
          return Some(name + ":" + value);
        }
      }
    }
    shown := None;
  }

  /** The chosen field is one of that name, and no field behind it has the name. */
  lemma {:induction false} LastFieldIsLast(lines: seq<string>, want: string)
    ensures LastField(lines, want).None? <==> forall i :: 0 <= i < |lines| ==> !Names(lines[i], want)
    ensures LastField(lines, want).Some? ==> exists i ::
              && 0 <= i < |lines| && Names(lines[i], want) && FieldOf(lines[i]) == LastField(lines, want)
              && forall j :: i < j < |lines| ==> !Names(lines[j], want)
  {
    hide FieldOf;
    if lines != [] && !Names(lines[|lines| - 1], want) {
      var rest := lines[..|lines| - 1];
      LastFieldIsLast(rest, want);
      if LastField(rest, want).Some? {
        var i :| && 0 <= i < |rest| && Names(rest[i], want) && FieldOf(rest[i]) == LastField(rest, want)
                 && forall j :: i < j < |rest| ==> !Names(rest[j], want);
        assert lines[i] == rest[i];
      }
    }
  }

  // ------------------------------------------------------------------ folding changes nothing

  /** Lines that stay the same field whatever continuation lines follow. */
  predicate Alike(x: string, y: string) {
    x == y || (FieldOf(x).Some? && FieldOf(x) == FieldOf(y))
  }

  predicate AllAlike(xs: seq<string>, ys: seq<string>) {
    |xs| == |ys| && forall i :: 0 <= i < |xs| ==> Alike(xs[i], ys[i])
  }

  predicate AlikeSoFar(u: Unfolding, v: Unfolding) {
    AllAlike(u.lines, v.lines) && Alike(u.current, v.current)
  }

  lemma FieldGrows(x: string, t: string)
    requires FieldOf(x).Some?
    ensures FieldOf(x + " " + t) == Some(Field(FieldOf(x).value.name, FieldOf(x).value.words + Words(t, WSP)))
  {
    hide Find, Words, Lower;
    FindChar(x, ':', 0);
    var pos := Find(x, ":", 0).value;
    var y := x + " " + t;
    FindCharIs(y, ':', 0, pos);
    assert y[..pos] == x[..pos] && y[pos + 1..] == x[pos + 1..] + " " + t;
    OneRun(x[pos + 1..], " ", t, WSP);
  }

  lemma AlikeAbsorbs(u: Unfolding, v: Unfolding, line: string)
    requires AlikeSoFar(u, v)
    ensures AlikeSoFar(u.Absorb(line), v.Absorb(line))
  {
    if line != "" && IsWsp(line[0]) && u.current != v.current {
      FieldGrows(u.current, line[1..]);
      FieldGrows(v.current, line[1..]);
    }
  }

  lemma {:induction false} AlikeContinues(p: seq<string>, q: seq<string>, rest: seq<string>)
    requires AlikeSoFar(Unfold(p), Unfold(q))
    ensures AlikeSoFar(Unfold(p + rest), Unfold(q + rest))
  {
    if rest == [] {
      assert p + rest == p && q + rest == q;
    } else {
      var init, line := rest[..|rest| - 1], rest[|rest| - 1];
      AlikeContinues(p, q, init);
      AlikeAbsorbs(Unfold(p + init), Unfold(q + init), line);
      assert (p + rest)[..|p + rest| - 1] == p + init && (q + rest)[..|q + rest| - 1] == q + init;
    }
  }

  lemma {:induction false} AlikeFinds(xs: seq<string>, ys: seq<string>, want: string)
    requires AllAlike(xs, ys)
    ensures LastField(xs, want) == LastField(ys, want)
  {
    if xs != [] {
      assert Alike(xs[|xs| - 1], ys[|ys| - 1]);
      AlikeFinds(xs[..|xs| - 1], ys[..|ys| - 1], want);
    }
  }

  lemma {:induction false} SameFieldsSelected(xs: seq<string>, ys: seq<string>, names: seq<string>)
    requires forall i :: 0 <= i < |names| ==> LastField(xs, Lower(names[i])) == LastField(ys, Lower(names[i]))
    ensures SelectedFields(xs, names) == SelectedFields(ys, names)
  {
    if names != [] {
      SameFieldsSelected(xs, ys, names[..|names| - 1]);
    }
  }
}
