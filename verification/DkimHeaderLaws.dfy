/**
 Laws of header canonicalization over whole header texts: folding a value differently changes nothing, and
 the output has the canonical form.
 */
module DkimHeaderLaws {
  import opened DkimHeaders
  import opened Lines
  import opened Options
  import opened Sequences
  import opened Strings
  import opened WordLists

  // ------------------------------------------------------------------ physical lines

  lemma PhysicalThen(x: string, s: string)
    requires x != "" && '\n' !in x
    ensures PhysicalLines(x + s) == [Chomp(x + FirstLine(s))] + Chomped(OtherLines(s))
  {
    LineThen(x, s);
    ChompedJoins([x + FirstLine(s)], OtherLines(s));
  }

  lemma PhysicalSplit(s: string, t: string)
    requires EndsLine(s)
    ensures PhysicalLines(s + t) == PhysicalLines(s) + PhysicalLines(t)
  {
    LinesSplit(s, t);
    ChompedJoins(SplitLines(s), SplitLines(t));
  }

  lemma ChompsEnd(x: string, s: string)
    requires x != "" && x[|x| - 1] != '\r'
    ensures Chomp(x + s) == x + Chomp(s)
  {
  }

  // ------------------------------------------------------------------ folding

  /** The line goes on with whitespace and more text, or is folded there: the same field, same lines before. */
  lemma FoldedOnce(u: Unfolding, line: string, gap: string, fold: string, more: string)
    requires line != "" && gap != "" && fold != "" && Blank(gap, WSP) && Blank(fold, WSP)
    requires ':' in u.Absorb(line).current
    ensures AlikeSoFar(u.Absorb(line + gap + more), u.Absorb(line).Absorb(fold + more))
  {
    var c := u.Absorb(line).current;
    var x, y := u.Absorb(line + gap + more), u.Absorb(line).Absorb(fold + more);
    assert (line + gap + more)[1..] == line[1..] + gap + more && (line + gap + more)[0] == line[0];
    assert x.current == c + gap + more;
    assert (fold + more)[0] == fold[0] && (fold + more)[1..] == fold[1..] + more;
    assert y.current == c + (" " + fold[1..]) + more;
    GapsAlike(c, gap, " " + fold[1..], more);
  }

  lemma GapsAlike(c: string, gap: string, other: string, more: string)
    requires gap != "" && other != "" && Blank(gap, WSP) && Blank(other, WSP) && ':' in c
    ensures Alike(c + gap + more, c + other + more)
  {
    FindChar(c, ':', 0);
    var pos := Find(c, ":", 0).value;
    FieldWithGap(c, gap, more, pos);
    FieldWithGap(c, other, more, pos);
    RunsAlike(c[pos + 1..], gap, other, more, WSP);
  }

  lemma FieldWithGap(c: string, gap: string, more: string, pos: nat)
    requires Find(c, ":", 0) == Some(pos)
    ensures pos < |c| && FieldOf(c + gap + more) == Some(Field(Lower(c[..pos]), Words(c[pos + 1..] + gap + more, WSP)))
  {
    FindChar(c, ':', 0);
    var x := c + gap + more;
    FindCharIs(x, ':', 0, pos);
    assert x[..pos] == c[..pos] && x[pos + 1..] == c[pos + 1..] + gap + more;
  }

  lemma Plain(before: string, line: string, gap: string, after: string)
    requires EndsLine(before) && line != "" && '\n' !in line && gap != "" && Blank(gap, WSP)
    ensures PhysicalLines(before + line + gap + after)
         == PhysicalLines(before) + [line + gap + Chomp(FirstLine(after))] + Chomped(OtherLines(after))
  {
    hide PhysicalLines, FirstLine, OtherLines, Chomp;
    var piece := line + gap;
    assert before + line + gap + after == before + (piece + after);
    PhysicalSplit(before, piece + after);
    PhysicalThen(piece, after);
    ChompsEnd(piece, FirstLine(after));
  }

  lemma CutLine(line: string, tail: string)
    requires '\n' !in line
    ensures PhysicalLines(line + "\r\n" + tail) == [line] + PhysicalLines(tail)
  {
    var cut := line + "\r";
    assert line + "\r\n" + tail == cut + "\n" + tail;
    EndedLine(cut, tail);
    ChompedJoins([cut], SplitLines(tail));
    assert Chomped([cut]) == [line];
  }

  lemma Folded(before: string, line: string, fold: string, after: string)
    requires EndsLine(before) && line != "" && '\n' !in line && fold != "" && Blank(fold, WSP)
    ensures PhysicalLines(before + line + "\r\n" + fold + after)
         == PhysicalLines(before) + [line] + [fold + Chomp(FirstLine(after))] + Chomped(OtherLines(after))
  {
    hide PhysicalLines, FirstLine, OtherLines, Chomp;
    Regrouped(before, line, fold, after);
    CutBehind(before, line, fold + after);
    PhysicalThen(fold, after);
    ChompsEnd(fold, FirstLine(after));
    Regroup(PhysicalLines(before) + [line], [fold + Chomp(FirstLine(after))], Chomped(OtherLines(after)));
  }

  lemma CutBehind(before: string, line: string, tail: string)
    requires EndsLine(before) && line != "" && '\n' !in line
    ensures PhysicalLines(before + (line + "\r\n" + tail)) == PhysicalLines(before) + [line] + PhysicalLines(tail)
  {
    PhysicalSplit(before, line + "\r\n" + tail);
    CutLine(line, tail);
    Regroup(PhysicalLines(before), [line], PhysicalLines(tail));
  }

  lemma Regrouped(before: string, line: string, fold: string, after: string)
    ensures before + line + "\r\n" + fold + after == before + (line + "\r\n" + (fold + after))
  {
    var cut := line + "\r\n";
    assert before + line + "\r\n" == before + cut;
    assert (before + cut) + fold + after == before + (cut + (fold + after));
  }

  /**
   Whitespace inside a header value may be replaced by a line break followed by whitespace, or back, without
   changing the canonical headers. `line` is the part of the physical line in front of it, and the logical
   line it belongs to has its colon there or before.
   */
  lemma FoldingInvariant(before: string, line: string, gap: string, fold: string, after: string, names: seq<string>)
    requires EndsLine(before) && line != "" && '\n' !in line
    requires gap != "" && fold != "" && Blank(gap, WSP) && Blank(fold, WSP)
    requires ':' in Unfold(PhysicalLines(before) + [line]).current
    ensures Canonical(before + line + gap + after, names) == Canonical(before + line + "\r\n" + fold + after, names)
  {
    var p, more, others := PhysicalLines(before), Chomp(FirstLine(after)), Chomped(OtherLines(after));
    Plain(before, line, gap, after);
    Folded(before, line, fold, after);
    var plain, folded := p + [line + gap + more], p + [line] + [fold + more];
    AbsorbedNext(p, line);
    AbsorbedNext(p, line + gap + more);
    AbsorbedNext(p + [line], fold + more);
    FoldedOnce(Unfold(p), line, gap, fold, more);
    AlikeContinues(plain, folded, others);
    SelectAlike(before + line + gap + after, before + line + "\r\n" + fold + after, names);
  }

  lemma AbsorbedNext(done: seq<string>, line: string)
    ensures Unfold(done + [line]) == Unfold(done).Absorb(line)
  {
    assert (done + [line])[..|done|] == done;
  }

  lemma SelectAlike(a: string, b: string, names: seq<string>)
    requires AlikeSoFar(Unfold(PhysicalLines(a)), Unfold(PhysicalLines(b)))
    ensures Canonical(a, names) == Canonical(b, names)
  {
    var xs, ys := LogicalLines(a), LogicalLines(b);
    assert AllAlike(xs, ys);
    forall i | 0 <= i < |names|
      ensures LastField(xs, Lower(names[i])) == LastField(ys, Lower(names[i]))
    {
      AlikeFinds(xs, ys, Lower(names[i]));
    }
    SameFieldsSelected(xs, ys, names);
  }

  // ------------------------------------------------------------------ names in any case

  /** Lower case tells names apart exactly as far as they differ in more than the case of ASCII letters. */
  lemma LowerTells(x: string, y: string)
    ensures Lower(x) == Lower(y) <==> SameName(x, y)
    ensures forall i :: 0 <= i < |x| ==> !('A' <= Lower(x)[i] <= 'Z') && SameLetter(x[i], Lower(x)[i])
  {
    if SameName(x, y) {
      forall i | 0 <= i < |x| ensures LowerChar(x[i]) == LowerChar(y[i]) { assert SameLetter(x[i], y[i]); }
    }
    if Lower(x) == Lower(y) {
      forall i | 0 <= i < |x| ensures SameLetter(x[i], y[i]) {
        assert Lower(x)[i] == LowerChar(x[i]) && Lower(y)[i] == LowerChar(y[i]);
      }
    }
  }

  /** The line is a field with this name: what stands before its first colon, apart from the case of ASCII letters. */
  predicate HasName(line: string, name: string) {
    exists k :: 0 <= k < |line| && line[k] == ':' && ':' !in line[..k] && SameName(line[..k], name)
  }

  lemma NamedAlike(line: string, wanted: string)
    ensures Names(line, Lower(wanted)) <==> HasName(line, wanted)
  {
    hide SameName, Find;
    FindChar(line, ':', 0);
    var pos := Find(line, ":", 0);
    if pos.Some? {
      LowerTells(line[..pos.value], wanted);
      assert ':' !in line[..pos.value];
    }
    if HasName(line, wanted) {
      var k :| 0 <= k < |line| && line[k] == ':' && ':' !in line[..k] && SameName(line[..k], wanted);
      forall j | 0 <= j < k ensures line[j] != ':' { assert line[..k][j] == line[j]; }
      assert pos == Some(k);
    }
  }

  /** A wanted name finds the last line that has it in any case of letters, and nothing exactly if no line has it. */
  lemma FoundInAnyCase(lines: seq<string>, wanted: string)
    ensures LastField(lines, Lower(wanted)).None? <==> forall i :: 0 <= i < |lines| ==> !HasName(lines[i], wanted)
    ensures LastField(lines, Lower(wanted)).Some? ==> exists i ::
              && 0 <= i < |lines| && HasName(lines[i], wanted) && FieldOf(lines[i]) == LastField(lines, Lower(wanted))
              && forall j :: i < j < |lines| ==> !HasName(lines[j], wanted)
  {
    hide HasName, Names, FieldOf, LastField;
    forall i | 0 <= i < |lines| ensures Names(lines[i], Lower(wanted)) <==> HasName(lines[i], wanted) {
      NamedAlike(lines[i], wanted);
    }
    LastFieldIsLast(lines, Lower(wanted));
    if LastField(lines, Lower(wanted)).Some? {
      var i :| && 0 <= i < |lines| && Names(lines[i], Lower(wanted)) && FieldOf(lines[i]) == LastField(lines, Lower(wanted))
               && forall j :: i < j < |lines| ==> !Names(lines[j], Lower(wanted));
      assert HasName(lines[i], wanted);
    }
  }

  // ------------------------------------------------------------------ the output

  /** A field as the canonical form shows it: no upper-case letter or colon in the name, proper words. */
  predicate IsCanonical(f: Field) {
    f.name == Lower(f.name) && ':' !in f.name && AllWords(f.words, WSP)
  }

  lemma FieldIsCanonical(line: string)
    requires FieldOf(line).Some?
    ensures IsCanonical(FieldOf(line).value)
  {
    FindChar(line, ':', 0);
    var pos := Find(line, ":", 0).value;
    LowerTwice(line[..pos]);
    WordsAreWords(line[pos + 1..], WSP);
    forall i | 0 <= i < pos ensures LowerChar(line[i]) != ':' {
      assert line[i] != ':';
    }
  }

  lemma {:induction false} FoundIsCanonical(lines: seq<string>, want: string)
    requires LastField(lines, want).Some?
    ensures IsCanonical(LastField(lines, want).value)
    ensures exists i :: 0 <= i < |lines| && FieldOf(lines[i]) == LastField(lines, want)
  {
    LastFieldIsLast(lines, want);
    var i :| 0 <= i < |lines| && Names(lines[i], want) && FieldOf(lines[i]) == LastField(lines, want);
    FieldIsCanonical(lines[i]);
  }

  lemma {:induction false} SelectedAreFound(lines: seq<string>, names: seq<string>, i: nat)
    requires i < |SelectedFields(lines, names)|
    ensures var f := SelectedFields(lines, names)[i];
            LastField(lines, f.name) == Some(f) && exists k :: 0 <= k < |names| && Lower(names[k]) == f.name
  {
    var rest, want := names[..|names| - 1], Lower(names[|names| - 1]);
    var found := LastField(lines, want);
    if found.None? {
      SelectedAreFound(lines, rest, i);
      var k :| 0 <= k < |rest| && Lower(rest[k]) == SelectedFields(lines, rest)[i].name;
      assert Lower(names[k]) == Lower(rest[k]);
    } else if i > 0 {
      SelectedAreFound(lines, rest, i - 1);
      var k :| 0 <= k < |rest| && Lower(rest[k]) == SelectedFields(lines, rest)[i - 1].name;
      assert Lower(names[k]) == Lower(rest[k]);
    }
  }

  /** Every output line is `name:value` with the name in lower case and the value single-spaced. */
  lemma OutputIsNormal(headers: string, names: seq<string>, i: nat)
    requires i < |Canonical(headers, names)|
    ensures exists f :: IsCanonical(f) && Canonical(headers, names)[i] == f.name + ":" + Join(f.words)
                        && SingleSpaced(Join(f.words)) && forall j :: 0 <= j < |f.name| ==> !('A' <= f.name[j] <= 'Z')
  {
    var lines := LogicalLines(headers);
    var f := SelectedFields(lines, names)[i];
    SelectedAreFound(lines, names, i);
    FoundIsCanonical(lines, f.name);
    JoinIsSingleSpaced(f.words);
    LowerTells(f.name, f.name);
    assert IsCanonical(f) && Canonical(headers, names)[i] == f.name + ":" + Join(f.words);
  }

  lemma ShownIsRead(f: Field)
    requires IsCanonical(f)
    ensures FieldOf(Shown(f)) == Some(f)
  {
    var line := Shown(f);
    forall j | 0 <= j < |f.name| ensures line[j] != ':' { assert line[j] == f.name[j]; }
    FindCharIs(line, ':', 0, |f.name|);
    assert line[..|f.name|] == f.name && line[|f.name| + 1..] == Join(f.words);
    JoinWords(f.words, WSP);
  }
}
