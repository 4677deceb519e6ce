/**
 Canonical headers as input again. An output line whose name begins with a space is read as the continuation
 of the line before it, so the output is its own canonical form exactly when no such line spoils a field that
 is needed.
 */
module DkimStability {
  import opened DkimHeaderLaws
  import opened DkimHeaders
  import opened Lines
  import opened Options
  import opened Strings
  import opened WordLists

  // ------------------------------------------------------------------ reading the output

  function Emitted(out: seq<string>): string {
    if out == [] then "" else out[0] + "\r\n" + Emitted(out[1..])
  }

  /** A line as the output has them: not empty, no line feed, and no tab in front. */
  predicate IsOutputLine(s: string) { s != "" && '\n' !in s && s[0] != '\t' }

  lemma {:induction false} EmittedLines(out: seq<string>)
    requires forall i :: 0 <= i < |out| ==> IsOutputLine(out[i])
    ensures PhysicalLines(Emitted(out)) == out
  {
    if out != [] {
      CutLine(out[0], Emitted(out[1..]));
      EmittedLines(out[1..]);
    }
  }

  /** The output lines as they are read: one that begins with a space is appended to the line before it. */
  function Merged(out: seq<string>): seq<string> {
    if out == [] then []
    else
      var before, o := Merged(out[..|out| - 1]), out[|out| - 1];
      if before == [] || o == "" || o[0] != ' ' then before + [o]
      else before[..|before| - 1] + [before[|before| - 1] + o]
  }

  lemma {:induction false} UnfoldsToMerged(out: seq<string>)
    requires forall i :: 0 <= i < |out| ==> IsOutputLine(out[i])
    ensures Unfold(out).Flushed() == Merged(out)
    ensures out != [] ==> Merged(out) != [] && Unfold(out).current != "" && Unfold(out).current == Merged(out)[|Merged(out)| - 1]
  {
    if out != [] {
      var front, o := out[..|out| - 1], out[|out| - 1];
      UnfoldsToMerged(front);
      if o[0] == ' ' {
        assert " " + o[1..] == o;
        var u := Unfold(front);
        assert u.current + " " + o[1..] == u.current + o;
        if front == [] {
          assert "" + o == o;
        }
      }
    }
  }

  lemma NoLineFeedRead(s: string)
    ensures forall i :: 0 <= i < |PhysicalLines(s)| ==> '\n' !in PhysicalLines(s)[i]
  {
    NoLineFeedInLines(s);
  }

  lemma {:induction false} NoLineFeedUnfolded(physical: seq<string>)
    requires forall i :: 0 <= i < |physical| ==> '\n' !in physical[i]
    ensures var u := Unfold(physical);
            '\n' !in u.current && forall i :: 0 <= i < |u.lines| ==> '\n' !in u.lines[i]
  {
    if physical != [] {
      NoLineFeedUnfolded(physical[..|physical| - 1]);
    }
  }

  lemma {:induction false} NoLineFeedWords(s: string)
    requires '\n' !in s
    ensures forall i :: 0 <= i < |Words(s, WSP)| ==> '\n' !in Words(s, WSP)[i]
  {
    if s != "" {
      NoLineFeedWords(s[..|s| - 1]);
    }
  }

  lemma {:induction false} NoTabUnfolded(physical: seq<string>)
    ensures var u := Unfold(physical);
            && (u.current != "" ==> u.current[0] != '\t')
            && forall i :: 0 <= i < |u.lines| ==> u.lines[i] != "" && u.lines[i][0] != '\t'
  {
    if physical != [] {
      NoTabUnfolded(physical[..|physical| - 1]);
    }
  }

  lemma ShownIsLine(line: string)
    requires FieldOf(line).Some? && '\n' !in line && line != "" && line[0] != '\t'
    ensures IsOutputLine(Shown(FieldOf(line).value))
  {
    FindChar(line, ':', 0);
    var pos, f := Find(line, ":", 0).value, FieldOf(line).value;
    NoLineFeedWords(line[pos + 1..]);
    NotInJoin(f.words, '\n');
    forall i | 0 <= i < pos ensures f.name[i] != '\n' {
      assert line[i] in line;
    }
  }

  lemma OutputIsLines(headers: string, names: seq<string>, i: nat)
    requires i < |Canonical(headers, names)|
    ensures IsOutputLine(Canonical(headers, names)[i])
  {
    var lines := LogicalLines(headers);
    var f := SelectedFields(lines, names)[i];
    SelectedAreFound(lines, names, i);
    FoundIsCanonical(lines, f.name);
    var n :| 0 <= n < |lines| && FieldOf(lines[n]) == Some(f);
    NoLineFeedRead(headers);
    NoLineFeedUnfolded(PhysicalLines(headers));
    NoTabUnfolded(PhysicalLines(headers));
    ShownIsLine(lines[n]);
  }

  lemma {:induction false} FoundIsSelected(lines: seq<string>, names: seq<string>, k: nat)
    requires k < |names| && LastField(lines, Lower(names[k])).Some?
    ensures exists i :: 0 <= i < |SelectedFields(lines, names)|
                        && LastField(lines, Lower(names[k])) == Some(SelectedFields(lines, names)[i])
  {
    var fields, rest := SelectedFields(lines, names), names[..|names| - 1];
    if k == |names| - 1 {
      assert LastField(lines, Lower(names[k])) == Some(fields[0]);
    } else {
      FoundIsSelected(lines, rest, k);
      var i :| 0 <= i < |SelectedFields(lines, rest)| && LastField(lines, Lower(names[k])) == Some(SelectedFields(lines, rest)[i]);
      var skip := |fields| - |SelectedFields(lines, rest)|;
      assert fields[skip..] == SelectedFields(lines, rest) && fields[skip + i] == SelectedFields(lines, rest)[i];
    }
  }

  // ------------------------------------------------------------------ fields of the merged lines

  predicate StartsBlank(f: Field) { f.name != "" && f.name[0] == ' ' }

  /** The words that a merged line adds to the field before it. */
  function ExtraWords(f: Field): seq<string> { Words(Shown(f)[1..], WSP) }

  function Longer(g: Field, f: Field): Field { Field(g.name, g.words + ExtraWords(f)) }

  function MergedFields(fs: seq<Field>): (r: seq<Field>)
    ensures r == [] <==> fs == []
  {
    if fs == [] then []
    else
      var before, f := MergedFields(fs[..|fs| - 1]), fs[|fs| - 1];
      if before == [] || !StartsBlank(f) then before + [f]
      else before[..|before| - 1] + [Longer(before[|before| - 1], f)]
  }

  predicate AllCanonical(fs: seq<Field>) { forall i :: 0 <= i < |fs| ==> IsCanonical(fs[i]) }

  predicate ReadAs(lines: seq<string>, fs: seq<Field>) {
    |lines| == |fs| && forall i :: 0 <= i < |lines| ==> FieldOf(lines[i]) == Some(fs[i])
  }

  lemma MergeOne(line: string, g: Field, f: Field)
    requires FieldOf(line) == Some(g) && StartsBlank(f)
    ensures FieldOf(line + Shown(f)) == Some(Longer(g, f))
  {
    var o := Shown(f);
    assert o == " " + o[1..] && line + o == line + " " + o[1..];
    FieldGrows(line, o[1..]);
  }

  lemma ShownStart(f: Field)
    ensures Shown(f) != "" && (Shown(f)[0] == ' ' <==> StartsBlank(f))
  {
  }

  lemma {:induction false} MergedRead(fs: seq<Field>)
    requires AllCanonical(fs)
    ensures ReadAs(Merged(ShownAll(fs)), MergedFields(fs))
  {
    hide FieldOf, Shown, ExtraWords, StartsBlank, IsCanonical;
    if fs != [] {
      var front, f := fs[..|fs| - 1], fs[|fs| - 1];
      MergedRead(front);
      var out := ShownAll(fs);
      assert out[..|out| - 1] == ShownAll(front) && out[|out| - 1] == Shown(f);
      ShownIsRead(f);
      ShownStart(f);
      var before := Merged(ShownAll(front));
      if before != [] && StartsBlank(f) {
        MergeOne(before[|before| - 1], MergedFields(front)[|before| - 1], f);
      }
    }
  }

  function FindField(fs: seq<Field>, want: string): Option<Field> {
    if fs == [] then None
    else if fs[|fs| - 1].name == want then Some(fs[|fs| - 1])
    else FindField(fs[..|fs| - 1], want)
  }

  lemma {:induction false} FoundAmong(lines: seq<string>, fs: seq<Field>, want: string)
    requires ReadAs(lines, fs)
    ensures LastField(lines, want) == FindField(fs, want)
  {
    if lines != [] {
      FoundAmong(lines[..|lines| - 1], fs[..|fs| - 1], want);
    }
  }

  // ------------------------------------------------------------------ which fields survive

  /** What becomes of a name when the output is read: never the name of a line, the last such line alone, or merged with more. */
  datatype Fate = Never | Alone | Joined

  /** The name of the last line that does not continue another. */
  function HeadName(fs: seq<Field>): string
    requires fs != []
  {
    if |fs| == 1 || !StartsBlank(fs[|fs| - 1]) then fs[|fs| - 1].name else HeadName(fs[..|fs| - 1])
  }

  function FateOf(fs: seq<Field>, name: string): Fate {
    if fs == [] then Never
    else
      var front, f := fs[..|fs| - 1], fs[|fs| - 1];
      if front == [] || !StartsBlank(f) then if f.name == name then Alone else FateOf(front, name)
      else if HeadName(front) == name then Joined else FateOf(front, name)
  }

  lemma {:induction false} ColonIsWord(s: string)
    requires ':' in s
    ensures Words(s, WSP) != []
  {
    var front, c := s[..|s| - 1], s[|s| - 1];
    if c == ':' {
    } else {
      assert ':' in front;
      ColonIsWord(front);
    }
  }

  lemma ExtraIsNotEmpty(f: Field)
    requires StartsBlank(f)
    ensures ExtraWords(f) != []
  {
    var o := Shown(f);
    assert o[1..][|f.name| - 1] == ':';
    ColonIsWord(o[1..]);
  }

  /** The field found for a name among the merged lines, when all output lines of that name show one field. */
  ghost predicate FateFits(fs: seq<Field>, name: string, f: Field) {
    var found := FindField(MergedFields(fs), name);
    match FateOf(fs, name)
    case Never => found.None?
    case Alone => found == Some(f)
    case Joined => found.Some? && |found.value.words| > |f.words|
  }

  ghost predicate LastFits(fs: seq<Field>, name: string) {
    var merged := MergedFields(fs);
    fs != [] ==>
      && merged != [] && merged[|merged| - 1].name == HeadName(fs)
      && (HeadName(fs) == name ==> !FateOf(fs, name).Never?)
  }

  lemma FoundWhenAdded(fs: seq<Field>, f: Field, want: string)
    ensures FindField(fs + [f], want) == if f.name == want then Some(f) else FindField(fs, want)
  {
    assert (fs + [f])[..|fs|] == fs;
  }

  /** One more line that stands by itself. */
  lemma FateWhenAdded(fs: seq<Field>, g: Field, name: string)
    requires fs == [] || !StartsBlank(g)
    ensures MergedFields(fs + [g]) == MergedFields(fs) + [g] && HeadName(fs + [g]) == g.name
    ensures FateOf(fs + [g], name) == if g.name == name then Alone else FateOf(fs, name)
  {
    assert (fs + [g])[..|fs|] == fs;
  }

  /** One more line that continues the line before it. */
  lemma FateWhenJoined(fs: seq<Field>, g: Field, name: string)
    requires fs != [] && StartsBlank(g)
    ensures var before := MergedFields(fs);
            before != [] && MergedFields(fs + [g]) == before[..|before| - 1] + [Longer(before[|before| - 1], g)]
    ensures HeadName(fs + [g]) == HeadName(fs)
    ensures FateOf(fs + [g], name) == if HeadName(fs) == name then Joined else FateOf(fs, name)
  {
    assert (fs + [g])[..|fs|] == fs;
  }

  lemma FitsWhenAdded(fs: seq<Field>, g: Field, name: string, f: Field)
    requires fs == [] || !StartsBlank(g)
    requires FateFits(fs, name, f) && (g.name == name ==> g == f)
    ensures FateFits(fs + [g], name, f) && LastFits(fs + [g], name)
  {
    hide MergedFields, FateOf, HeadName, FindField, StartsBlank;
    FateWhenAdded(fs, g, name);
    FoundWhenAdded(MergedFields(fs), g, name);
  }

  lemma FitsWhenJoined(fs: seq<Field>, g: Field, name: string, f: Field)
    requires fs != [] && StartsBlank(g)
    requires FateFits(fs, name, f) && LastFits(fs, name)
    ensures FateFits(fs + [g], name, f) && LastFits(fs + [g], name)
  {
    hide MergedFields, FateOf, HeadName, FindField, StartsBlank, ExtraWords;
    FateWhenJoined(fs, g, name);
    ExtraIsNotEmpty(g);
    var before := MergedFields(fs);
    var rest, h := before[..|before| - 1], before[|before| - 1];
    assert before == rest + [h];
    FoundWhenAdded(rest, h, name);
    FoundWhenAdded(rest, Longer(h, g), name);
  }

  lemma {:induction false} FateDecides(fs: seq<Field>, name: string, f: Field)
    requires forall i :: 0 <= i < |fs| && fs[i].name == name ==> fs[i] == f
    ensures FateFits(fs, name, f) && LastFits(fs, name)
  {
    if fs != [] {
      var front, g := fs[..|fs| - 1], fs[|fs| - 1];
      FateDecides(front, name, f);
      assert front + [g] == fs;
      if front == [] || !StartsBlank(g) {
        FitsWhenAdded(front, g, name, f);
      } else {
        FitsWhenJoined(front, g, name, f);
      }
    }
  }

  // ------------------------------------------------------------------ when the output is stable

  lemma {:induction false} NeverWithoutName(fs: seq<Field>, name: string)
    requires forall i :: 0 <= i < |fs| ==> fs[i].name != name
    ensures FateOf(fs, name).Never? && (fs != [] ==> HeadName(fs) != name)
  {
    if fs != [] {
      NeverWithoutName(fs[..|fs| - 1], name);
    }
  }

  lemma OutputIsMerged(headers: string, names: seq<string>)
    ensures LogicalLines(Emitted(Canonical(headers, names))) == Merged(Canonical(headers, names))
  {
    var out := Canonical(headers, names);
    forall i | 0 <= i < |out| ensures IsOutputLine(out[i]) {
      OutputIsLines(headers, names, i);
    }
    EmittedLines(out);
    UnfoldsToMerged(out);
  }

  lemma CanonicalSelected(lines: seq<string>, names: seq<string>)
    ensures AllCanonical(SelectedFields(lines, names))
  {
    var fields := SelectedFields(lines, names);
    forall i | 0 <= i < |fields| ensures IsCanonical(fields[i]) {
      SelectedAreFound(lines, names, i);
      FoundIsCanonical(lines, fields[i].name);
    }
  }

  /** What a name finds in the merged lines: the field that it found before exactly when its line stays alone. */
  lemma FateOfSelected(lines: seq<string>, names: seq<string>, again: seq<string>, want: string)
    requires again == Merged(ShownAll(SelectedFields(lines, names)))
    ensures LastField(lines, want).None? ==> LastField(again, want).None?
    ensures var fields := SelectedFields(lines, names);
            forall i :: 0 <= i < |fields| && fields[i].name == want ==>
              (FateOf(fields, want).Alone? <==> LastField(again, want) == LastField(lines, want))
  {
    hide SelectedFields, MergedFields, FindField, LastField, FateOf;
    var fields := SelectedFields(lines, names);
    forall i | 0 <= i < |fields| ensures LastField(lines, fields[i].name) == Some(fields[i]) {
      SelectedAreFound(lines, names, i);
    }
    CanonicalSelected(lines, names);
    MergedRead(fields);
    FoundAmong(again, MergedFields(fields), want);
    var found := LastField(lines, want);
    FateDecides(fields, want, if found.Some? then found.value else Field("", []));
    if found.None? {
      NeverWithoutName(fields, want);
    }
  }

  predicate AllAlone(fields: seq<Field>) {
    forall i :: 0 <= i < |fields| ==> FateOf(fields, fields[i].name).Alone?
  }

  lemma MergedStable(lines: seq<string>, names: seq<string>, again: seq<string>)
    requires again == Merged(ShownAll(SelectedFields(lines, names)))
    ensures ShownAll(SelectedFields(again, names)) == ShownAll(SelectedFields(lines, names))
       <==> AllAlone(SelectedFields(lines, names))
  {
    hide FateOf, LastField, SelectedFields, Merged;
    var fields := SelectedFields(lines, names);
    if AllAlone(fields) {
      forall k | 0 <= k < |names|
        ensures LastField(again, Lower(names[k])) == LastField(lines, Lower(names[k]))
      {
        FateOfSelected(lines, names, again, Lower(names[k]));
        if LastField(lines, Lower(names[k])).Some? {
          FoundIsSelected(lines, names, k);
        }
      }
      SameFieldsSelected(again, lines, names);
    }
    if ShownAll(SelectedFields(again, names)) == ShownAll(fields) {
      SameShown(SelectedFields(again, names), fields, again, lines, names);
      forall i | 0 <= i < |fields| ensures FateOf(fields, fields[i].name).Alone? {
        SelectedAreFound(lines, names, i);
        SelectedAreFound(again, names, i);
        FateOfSelected(lines, names, again, fields[i].name);
      }
    }
  }

  /**
   The output is its own canonical form for the same names exactly when no line that begins with a space was
   put behind the line that its name is found by. With such a line the value found has more words.
   */
  lemma StableExactly(headers: string, names: seq<string>)
    ensures Canonical(Emitted(Canonical(headers, names)), names) == Canonical(headers, names)
       <==> AllAlone(SelectedFields(LogicalLines(headers), names))
  {
    hide LogicalLines, Merged, SelectedFields, AllAlone;
    var out := Canonical(headers, names);
    OutputIsMerged(headers, names);
    MergedStable(LogicalLines(headers), names, LogicalLines(Emitted(out)));
  }

  lemma SameShown(xs: seq<Field>, ys: seq<Field>, again: seq<string>, lines: seq<string>, names: seq<string>)
    requires xs == SelectedFields(again, names) && ys == SelectedFields(lines, names) && ShownAll(xs) == ShownAll(ys)
    ensures xs == ys
  {
    CanonicalSelected(again, names);
    CanonicalSelected(lines, names);
    forall i | 0 <= i < |xs| ensures xs[i] == ys[i] {
      assert ShownAll(xs)[i] == ShownAll(ys)[i];
      ShownIsRead(xs[i]);
      ShownIsRead(ys[i]);
    }
  }

  lemma {:induction false} NoneBlankIsAlone(fields: seq<Field>, i: nat)
    requires i < |fields| && forall k :: 0 <= k < |fields| ==> !StartsBlank(fields[k])
    ensures FateOf(fields, fields[i].name).Alone?
  {
    if fields[|fields| - 1].name != fields[i].name {
      NoneBlankIsAlone(fields[..|fields| - 1], i);
    }
  }

  /** A name that does not begin with whitespace. */
  predicate ProperName(name: string) { name == "" || !IsWsp(name[0]) }

  /** A selected field begins with a space only if both a wanted name and a logical line begin with whitespace. */
  lemma SelectedStart(lines: seq<string>, names: seq<string>, i: nat)
    requires i < |SelectedFields(lines, names)| && StartsBlank(SelectedFields(lines, names)[i])
    ensures exists k :: 0 <= k < |names| && !ProperName(names[k])
    ensures exists n :: 0 <= n < |lines| && !ProperName(lines[n])
  {
    var f := SelectedFields(lines, names)[i];
    SelectedAreFound(lines, names, i);
    var k :| 0 <= k < |names| && Lower(names[k]) == f.name;
    FoundIsCanonical(lines, f.name);
    var n :| 0 <= n < |lines| && FieldOf(lines[n]) == Some(f);
    FindChar(lines[n], ':', 0);
    assert f.name[0] == LowerChar(names[k][0]) == LowerChar(lines[n][0]);
    assert !ProperName(names[k]) && !ProperName(lines[n]);
  }

  /**
   The output is stable when no wanted name begins with whitespace, and for any names when no logical line
   does: an `h=` list that is cut at its colons and not trimmed may hold names that begin with a space.
   */
  lemma OutputIsStable(headers: string, names: seq<string>)
    requires || (forall k :: 0 <= k < |names| ==> ProperName(names[k]))
             || (forall n :: 0 <= n < |LogicalLines(headers)| ==> ProperName(LogicalLines(headers)[n]))
    ensures Canonical(Emitted(Canonical(headers, names)), names) == Canonical(headers, names)
  {
    hide LogicalLines, SelectedFields, FateOf, StartsBlank;
    var lines := LogicalLines(headers);
    var fields := SelectedFields(lines, names);
    forall i | 0 <= i < |fields| ensures !StartsBlank(fields[i]) {
      if StartsBlank(fields[i]) {
        SelectedStart(lines, names, i);
      }
    }
    forall i | 0 <= i < |fields| ensures FateOf(fields, fields[i].name).Alone? {
      NoneBlankIsAlone(fields, i);
    }
    StableExactly(headers, names);
  }

  lemma ThreeLines(x: string, z: string)
    requires '\n' !in x && '\n' !in z
    ensures PhysicalLines(Emitted([x, "", z])) == [x, "", z]
  {
    var tail := Emitted([z]);
    assert [x, "", z][1..] == ["", z] && ["", z][1..] == [z] && [z][1..] == [];
    assert Emitted([z]) == z + "\r\n" + "";
    assert Emitted(["", z]) == "" + "\r\n" + Emitted(["", z][1..]);
    CutLine(z, "");
    CutLine("", tail);
    CutLine(x, Emitted(["", z]));
  }

  lemma UnfoldApart(x: string, z: string)
    requires x != "" && z != "" && !IsWsp(x[0]) && z[0] == ' '
    ensures Unfold([x, "", z]) == Unfolding([x], z)
  {
    AbsorbedNext([], x);
    AbsorbedNext([x], "");
    AbsorbedNext([x, ""], z);
    assert [] + [x] == [x] && [x] + [""] == [x, ""] && [x, ""] + [z] == [x, "", z];
    assert "" + " " + z[1..] == z;
  }

  lemma ReadApart(x: string, z: string)
    requires x != "" && z != "" && '\n' !in x && '\n' !in z && !IsWsp(x[0]) && z[0] == ' '
    ensures LogicalLines(Emitted([x, "", z])) == [x, z]
  {
    hide PhysicalLines, Emitted;
    ThreeLines(x, z);
    UnfoldApart(x, z);
  }

  /**
   Where it fails: behind an empty line, a header line that begins with a space is a field of its own. Put out
   directly behind the field `a`, which it follows in the list read backwards, it becomes part of that field.
   */
  lemma UnstableOutput(a: Field, x: Field)
    requires IsCanonical(a) && IsCanonical(x) && !IsWsp(Shown(a)[0]) && StartsBlank(x)
    requires '\n' !in Shown(a) && '\n' !in Shown(x)
    ensures var headers, names := Emitted([Shown(a), "", Shown(x)]), [x.name, a.name];
            && Canonical(headers, names) == [Shown(a), Shown(x)]
            && Canonical(Emitted(Canonical(headers, names)), names) != Canonical(headers, names)
  {
    var headers, names := Emitted([Shown(a), "", Shown(x)]), [x.name, a.name];
    ReadApart(Shown(a), Shown(x));
    ShownIsRead(a);
    ShownIsRead(x);
    SelectedPair(a, x);
    assert FateOf([a, x], a.name).Joined? by {
      assert [a, x][..1] == [a];
    }
    assert [a, x][0] == a && !AllAlone([a, x]);
    StableExactly(headers, names);
  }

  lemma SelectedPair(a: Field, x: Field)
    requires FieldOf(Shown(a)) == Some(a) && FieldOf(Shown(x)) == Some(x)
    requires a.name == Lower(a.name) && x.name == Lower(x.name) && a.name != x.name
    ensures SelectedFields([Shown(a), Shown(x)], [x.name, a.name]) == [a, x]
  {
    hide FieldOf, Lower;
    var lines, names := [Shown(a), Shown(x)], [x.name, a.name];
    assert names[..1] == [x.name] && names[..1][..0] == [] && lines[..1] == [Shown(a)];
    assert LastField(lines[..1], a.name) == Some(a);
    assert LastField(lines, a.name) == Some(a) && LastField(lines, x.name) == Some(x);
    assert SelectedFields(lines, [x.name]) == [x];
  }
}
