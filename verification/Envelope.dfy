/** The text of a queued message: sender and recipient lines in front of the raw mail, written by enqueue and read back by fetchReady. */
module Envelope {
  import opened Options
  import opened Strings

  const FROM_TAG := "FROM: "
  const TO_TAG := "TO: "

  function Compose(from: string, to: string, raw: string): string {
    FROM_TAG + from + "\n" + TO_TAG + to + "\n" + "---RAW---\n" + raw
  }

  predicate Trailing(c: char) {
    c == ' ' || c == '\r'
  }

  /** `s` without its trailing spaces and carriage returns. */
  function TrimBack(s: string): (r: string)
    ensures r <= s
    ensures r == "" || !Trailing(r[|r| - 1])
    ensures forall k :: |r| <= k < |s| ==> Trailing(s[k])
  {
    if s != "" && Trailing(s[|s| - 1]) then TrimBack(s[..|s| - 1]) else s
  }

  /** What fetchReady reads after the first `tag`: the rest of that line, trimmed at its end. */
  function Field(text: string, tag: string): string {
    var pos := Find(text, tag, 0);
    if pos.None? then ""
    else
      var end := Find(text, "\n", pos.value);
      if end.None? || end.value < pos.value + |tag| then ""
      else TrimBack(text[pos.value + |tag|..end.value])
  }

  method TrimmedBack(s: string) returns (r: string)
    ensures r == TrimBack(s)
  {
    r := s;
    while r != "" && Trailing(r[|r| - 1])
      invariant TrimBack(r) == TrimBack(s)
      decreases |r|
    {
      r := r[..|r| - 1];
    }
  }

  method ReadField(text: string, tag: string) returns (r: string)
    requires '\n' !in tag
    ensures r == Field(text, tag)
  {
    hide Find;
    r := "";
    var pos := Find(text, tag, 0);
    if pos.Some? {
      var end := Find(text, "\n", pos.value);
      if end.Some? {
        NewlineAfterTag(text, tag, pos.value, end.value);
        r := TrimmedBack(text[pos.value + |tag|..end.value]);
      }
    }
  }

  lemma NewlineAfterTag(text: string, tag: string, pos: nat, end: nat)
    requires '\n' !in tag && OccursAt(text, tag, pos) && Find(text, "\n", pos) == Some(end)
    ensures end >= pos + |tag|
  {
    FindChar(text, '\n', pos);
    forall i | pos <= i < pos + |tag| ensures text[i] != '\n' {
      OccursChar(text, tag, pos, i - pos);
    }
  }

  /** An address that survives: one line, not ending in a space or carriage return. */
  predicate Clean(a: string) {
    '\n' !in a && (a == "" || !Trailing(a[|a| - 1]))
  }

  /** Whatever is read back is clean. */
  lemma FieldIsClean(text: string, tag: string)
    ensures Clean(Field(text, tag))
  {
    var pos := Find(text, tag, 0);
    if pos.Some? {
      var end := Find(text, "\n", pos.value);
      FindChar(text, '\n', pos.value);
      if end.Some? && end.value >= pos.value + |tag| {
        var line := text[pos.value + |tag|..end.value];
        assert '\n' !in line;
        assert TrimBack(line) <= line;
      }
    }
  }

  lemma TrimBackOfClean(a: string)
    requires Clean(a)
    ensures TrimBack(a) == a
  {
  }

  /** The field behind a tag whose first occurrence is known, on a line known to end at `end`. */
  lemma FieldIs(text: string, tag: string, pos: nat, end: nat)
    requires OccursAt(text, tag, pos) && forall j :: 0 <= j < pos ==> !OccursAt(text, tag, j)
    requires pos + |tag| <= end < |text| && text[end] == '\n' && forall j :: pos <= j < end ==> text[j] != '\n'
    ensures Field(text, tag) == TrimBack(text[pos + |tag|..end])
  {
    FindIs(text, tag, 0, pos);
    FindCharIs(text, '\n', pos, end);
  }

  lemma FromLine(from: string, to: string, raw: string)
    requires Clean(from)
    ensures Field(Compose(from, to, raw), FROM_TAG) == from
  {
    var text := Compose(from, to, raw);
    assert text[..6] == FROM_TAG;
    assert text[6..6 + |from|] == from;
    forall j | 0 <= j < 6 + |from| ensures text[j] != '\n' {
      if j < 6 { assert text[j] == FROM_TAG[j]; } else { assert text[j] == from[j - 6]; }
    }
    FieldIs(text, FROM_TAG, 0, 6 + |from|);
    TrimBackOfClean(from);
  }

  /** Before the second line `TO: ` can only stand inside the sender. */
  lemma TagOnlyInSender(from: string, to: string, raw: string, j: nat)
    requires '\n' !in from && j < 7 + |from| && OccursAt(Compose(from, to, raw), TO_TAG, j)
    ensures 6 <= j && OccursAt(from, TO_TAG, j - 6)
  {
    var text := Compose(from, to, raw);
    assert text[..6] == FROM_TAG && text[6..6 + |from|] == from && text[6 + |from|] == '\n';
    OccursChar(text, TO_TAG, j, 0);
    forall i | 0 <= i < 6 ensures text[i] == FROM_TAG[i] != 'T' {
    }
    if j + 4 > 6 + |from| {
      OccursChar(text, TO_TAG, j, 6 + |from| - j);
    }
    assert from[j - 6..j - 2] == text[j..j + 4];
  }

  lemma ToLineBehindSender(from: string, to: string, raw: string)
    requires Clean(from) && Clean(to) && Find(from, TO_TAG, 0).None?
    ensures Field(Compose(from, to, raw), TO_TAG) == to
  {
    hide Find, Field;
    var text := Compose(from, to, raw);
    var pos := 7 + |from|;
    assert text[pos..pos + 4] == TO_TAG && text[pos + 4..pos + 4 + |to|] == to;
    NoneEarlier(from, TO_TAG, 0);
    forall j | 0 <= j < pos ensures !OccursAt(text, TO_TAG, j) {
      if OccursAt(text, TO_TAG, j) { TagOnlyInSender(from, to, raw, j); }
    }
    forall j | pos <= j < pos + 4 + |to| ensures text[j] != '\n' {
      if j < pos + 4 { OccursChar(text, TO_TAG, pos, j - pos); } else { assert text[j] == to[j - pos - 4]; }
    }
    FieldIs(text, TO_TAG, pos, pos + 4 + |to|);
    TrimBackOfClean(to);
  }

  lemma ToLineInSender(from: string, to: string, raw: string, hit: nat)
    requires Clean(from) && Find(from, TO_TAG, 0) == Some(hit)
    ensures Field(Compose(from, to, raw), TO_TAG) == TrimBack(from[hit + 4..])
  {
    var text := Compose(from, to, raw);
    assert text[6..6 + |from|] == from && text[6 + |from|] == '\n';
    NoneEarlier(from, TO_TAG, 0);
    forall j | 0 <= j < 6 + hit ensures !OccursAt(text, TO_TAG, j) {
      if OccursAt(text, TO_TAG, j) { TagOnlyInSender(from, to, raw, j); }
    }
    FieldInside(text, from, hit);
  }

  lemma FieldInside(text: string, from: string, hit: nat)
    requires |text| > 6 + |from| && text[6..6 + |from|] == from && text[6 + |from|] == '\n' && '\n' !in from
    requires OccursAt(from, TO_TAG, hit) && forall j :: 0 <= j < 6 + hit ==> !OccursAt(text, TO_TAG, j)
    ensures Field(text, TO_TAG) == TrimBack(from[hit + 4..])
  {
    var pos := 6 + hit;
    SliceOfSlice(text, 6, 6 + |from|, hit, hit + 4);
    forall j | pos <= j < 6 + |from| ensures text[j] != '\n' {
      assert text[j] == from[j - 6];
    }
    FieldIs(text, TO_TAG, pos, 6 + |from|);
    assert text[pos + 4..6 + |from|] == from[hit + 4..];
  }

  /**
   A worker reads back exactly the sender and recipient given to enqueue, whatever the raw mail
   contains, if and only if both are clean and the sender does not hide another recipient behind
   a `TO: ` of its own.
   */
  lemma AddressesSurvive(from: string, to: string, raw: string)
    ensures
      var text := Compose(from, to, raw);
      var hit := Find(from, TO_TAG, 0);
      Field(text, FROM_TAG) == from && Field(text, TO_TAG) == to
      <==> Clean(from) && Clean(to) && (hit.Some? ==> to == TrimBack(from[hit.value + 4..]))
  {
    FieldIsClean(Compose(from, to, raw), FROM_TAG);
    FieldIsClean(Compose(from, to, raw), TO_TAG);
    if Clean(from) && Clean(to) {
      FromLine(from, to, raw);
      var hit := Find(from, TO_TAG, 0);
      if hit.None? { ToLineBehindSender(from, to, raw); } else { ToLineInSender(from, to, raw, hit.value); }
    }
  }

  // ------------------------------------------------------------------ the mail itself

  /** The line that ends the envelope, with the line feed in front of it. */
  const MARK := "\n---RAW---\n"

  /** A reader of queue files: the text behind the first line that is `---RAW---`. */
  function RawOf(text: string): Option<string> {
    var pos := Find(text, MARK, 0);
    if pos.None? then None else Some(text[pos.value + |MARK|..])
  }

  /** The value brings a whole line `---RAW---` of its own. */
  predicate BringsMark(a: string) {
    Find(a + "\n", MARK, 0).Some?
  }

  /** The addresses as they stand in front of the mark. */
  function Head(from: string, to: string): string {
    FROM_TAG + from + "\n" + TO_TAG + to
  }

  lemma ComposedParts(from: string, to: string, raw: string)
    ensures Compose(from, to, raw) == Head(from, to) + MARK + raw
  {
    assert MARK == "\n" + "---RAW---\n";
    var h := Head(from, to);
    assert h + MARK == h + "\n" + "---RAW---\n";
  }

  lemma MarkChars(s: string, k: nat)
    requires OccursAt(s, MARK, k)
    ensures s[k] == '\n' && s[k + 10] == '\n' && forall i :: k < i < k + 10 ==> s[i] == (if k + 4 <= i < k + 7 then "RAW"[i - k - 4] else '-')
  {
    forall i | 0 <= i < 11 ensures s[k + i] == MARK[i] { OccursChar(s, MARK, k, i); }
    forall i | k < i < k + 10 ensures s[i] == MARK[i - k] { assert s[k + (i - k)] == MARK[i - k]; }
    assert s[k + 0] == MARK[0] && s[k + 10] == MARK[10];
  }

  lemma OccursWithin(s: string, a: nat, b: nat, k: nat)
    requires a <= b <= |s| && a + k + |MARK| <= b
    ensures OccursAt(s[a..b], MARK, k) <==> OccursAt(s, MARK, a + k)
  {
    SliceOfSlice(s, a, b, k, k + |MARK|);
  }

  /** The lines of the envelope in a text whose second line starts at `n` and whose mark is at `m`. */
  ghost predicate Laid(text: string, from: string, to: string, n: nat, m: nat) {
    && n == 7 + |from| && m == n + 4 + |to| && m + 11 <= |text|
    && text[..6] == FROM_TAG && text[6..n] == from + "\n" && text[n..n + 4] == TO_TAG && text[n + 4..m + 1] == to + "\n"
    && OccursAt(text, MARK, m)
  }

  lemma ComposedIsLaid(from: string, to: string, raw: string)
    ensures Laid(Compose(from, to, raw), from, to, 7 + |from|, |Head(from, to)|)
  {
    var text, n, m := Compose(from, to, raw), 7 + |from|, |Head(from, to)|;
    ComposedParts(from, to, raw);
    assert text[..6] == FROM_TAG && text[6..n] == from + "\n";
    assert text[n..n + 4] == TO_TAG && text[n + 4..m + 1] == to + "\n";
    assert text[m..m + 11] == MARK;
  }

  lemma TagsHaveNoLineFeed(text: string, from: string, to: string, n: nat, m: nat, k: nat)
    requires Laid(text, from, to, n, m) && (k < 6 || n <= k < n + 4)
    ensures text[k] != '\n' && text[n - 1] == '\n' && text[n] == 'T' && text[m] == '\n'
  {
    assert text[n..n + 4][0] == 'T';
    assert text[6..n][n - 7] == '\n' && text[n + 4..m + 1][m - n - 4] == '\n';
    if k < 6 { assert text[..6][k] == FROM_TAG[k]; } else { assert text[n..n + 4][k - n] == TO_TAG[k - n]; }
  }

  /** A mark in front of the real one lies in one of the addresses. */
  lemma EarlyMark(text: string, from: string, to: string, n: nat, m: nat, k: nat)
    requires Laid(text, from, to, n, m) && k < m && OccursAt(text, MARK, k)
    ensures BringsMark(from) || BringsMark(to)
  {
    hide Find;
    MarkChars(text, k);
    TagsHaveNoLineFeed(text, from, to, n, m, 0);
    if k < 6 || n <= k < n + 4 { TagsHaveNoLineFeed(text, from, to, n, m, k); }
    assert k != n - 1;
    if k < n {
      OccursWithin(text, 6, n, k - 6);
      NoneEarlier(from + "\n", MARK, 0);
    } else {
      OccursWithin(text, n + 4, m + 1, k - (n + 4));
      NoneEarlier(to + "\n", MARK, 0);
    }
  }

  /** A mark that an address brings stands in front of the real one. */
  lemma BroughtMark(text: string, from: string, to: string, n: nat, m: nat) returns (k: nat)
    requires Laid(text, from, to, n, m) && (BringsMark(from) || BringsMark(to))
    ensures k < m && OccursAt(text, MARK, k)
  {
    hide Find;
    if BringsMark(from) {
      var j := Find(from + "\n", MARK, 0).value;
      OccursWithin(text, 6, n, j);
      k := 6 + j;
    } else {
      var j := Find(to + "\n", MARK, 0).value;
      OccursWithin(text, n + 4, m + 1, j);
      k := n + 4 + j;
    }
  }

  /**
   The raw mail given to enqueue is read back exactly, for any addresses and any mail, if and only if neither
   address brings a line `---RAW---` of its own; and in any case the file ends with that line and the mail.
   */
  lemma RawSurvives(from: string, to: string, raw: string)
    ensures RawOf(Compose(from, to, raw)) == Some(raw) <==> !BringsMark(from) && !BringsMark(to)
    ensures Ends(Compose(from, to, raw), "\n---RAW---\n" + raw)
  {
    hide Find, BringsMark, Laid;
    var text, m := Compose(from, to, raw), |Head(from, to)|;
    ComposedIsLaid(from, to, raw);
    MarkFirst(text, from, to, 7 + |from|, m);
    ComposedParts(from, to, raw);
    assert text[m + |MARK|..] == raw && text[m..] == MARK + raw;
  }

  /** The first mark is the real one exactly if no address brings one. */
  lemma MarkFirst(text: string, from: string, to: string, n: nat, m: nat)
    requires Laid(text, from, to, n, m)
    ensures Find(text, MARK, 0).Some? && Find(text, MARK, 0).value <= m
    ensures Find(text, MARK, 0) == Some(m) <==> !BringsMark(from) && !BringsMark(to)
  {
    hide Find, BringsMark;
    var pos := Find(text, MARK, 0);
    NoneEarlier(text, MARK, 0);
    if pos.value < m {
      EarlyMark(text, from, to, n, m, pos.value);
    } else if BringsMark(from) || BringsMark(to) {
      var k := BroughtMark(text, from, to, n, m);
      assert false;
    }
  }

  predicate Ends(s: string, tail: string) {
    |tail| <= |s| && s[|s| - |tail|..] == tail
  }

  /** The text of a queue file tells a reader this sender, this recipient and this mail, as far as the addresses allow. */
  ghost predicate IsMail(text: string, from: string, to: string, raw: string) {
    && Ends(text, "\n---RAW---\n" + raw)
    && (RawOf(text) == Some(raw) <==> !BringsMark(from) && !BringsMark(to))
    && (Field(text, "FROM: ") == from && Field(text, "TO: ") == to
        <==> Clean(from) && Clean(to) && (Find(from, "TO: ", 0).Some? ==> to == TrimBack(from[Find(from, "TO: ", 0).value + 4..])))
  }

  lemma ComposedIsMail(from: string, to: string, raw: string)
    ensures IsMail(Compose(from, to, raw), from, to, raw)
  {
    hide RawOf, Ends, Find, Compose, Field, BringsMark, Clean;
    RawSurvives(from, to, raw);
    AddressesSurvive(from, to, raw);
  }
}
