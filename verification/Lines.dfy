/** Lines of a text as std::getline reads them: ended by a line feed, or by the end of a text that is not empty. */
module Lines {
  import opened Options
  import opened Strings

  function SplitLines(s: string): seq<string>
    decreases |s|
  {
    var k := Find(s, "\n", 0);
    if s == "" then []
    else if k.None? then [s]
    else [s[..k.value]] + SplitLines(s[k.value + 1..])
  }

  function FirstLine(s: string): string {
    var k := Find(s, "\n", 0);
    if k.None? then s else s[..k.value]
  }

  function OtherLines(s: string): seq<string> {
    var k := Find(s, "\n", 0);
    if k.None? then [] else SplitLines(s[k.value + 1..])
  }

  predicate EndsLine(s: string) { s == "" || s[|s| - 1] == '\n' }

  /** std::getline at an offset: the text up to the line feed, and the offset behind it. */
  method GetLine(text: string, off: nat) returns (line: string, next: nat)
    requires off < |text|
    ensures off < next <= |text|
    ensures SplitLines(text[off..]) == [line] + SplitLines(text[next..])
  {
    ghost var rest := text[off..];
    var k := Find(text, "\n", off);
    FindInRest(text, "\n", off);
    if k.Some? {
      line, next := text[off..k.value], k.value + 1;
      assert line == rest[..k.value - off] && rest[next - off..] == text[next..];
    } else {
      line, next := text[off..], |text|;
      assert text[next..] == "";
    }
  }

  lemma LineThen(x: string, s: string)
    requires x != "" && '\n' !in x
    ensures SplitLines(x + s) == [x + FirstLine(s)] + OtherLines(s)
  {
    hide Find;
    var t := x + s;
    FindChar(s, '\n', 0);
    FindChar(t, '\n', 0);
    var k := Find(s, "\n", 0);
    if k.Some? {
      var n := |x| + k.value;
      forall j | 0 <= j < n ensures t[j] != '\n' {
        if j < |x| { assert t[j] in x; } else { assert t[j] == s[j - |x|]; }
      }
      FindCharIs(t, '\n', 0, n);
      assert t[..n] == x + s[..k.value] && t[n + 1..] == s[k.value + 1..];
    } else {
      forall j | 0 <= j < |t| ensures t[j] != '\n' {
        if j < |x| { assert t[j] in x; } else { assert t[j] == s[j - |x|]; }
      }
    }
  }

  lemma EndedLine(line: string, rest: string)
    requires '\n' !in line
    ensures SplitLines(line + "\n" + rest) == [line] + SplitLines(rest)
  {
    var t := line + "\n" + rest;
    forall j | 0 <= j < |line| ensures t[j] != '\n' {
      assert t[j] in line;
    }
    FindCharIs(t, '\n', 0, |line|);
    assert t[..|line|] == line && t[|line| + 1..] == rest;
  }

  lemma {:induction false} LinesSplit(s: string, t: string)
    requires EndsLine(s)
    ensures SplitLines(s + t) == SplitLines(s) + SplitLines(t)
    decreases |s|
  {
    if s == "" {
      assert s + t == t;
    } else {
      FindChar(s, '\n', 0);
      var k := Find(s, "\n", 0).value;
      FindCharIs(s + t, '\n', 0, k);
      var rest := s[k + 1..];
      assert (s + t)[..k] == s[..k] && (s + t)[k + 1..] == rest + t;
      LinesSplit(rest, t);
      assert [s[..k]] + (SplitLines(rest) + SplitLines(t)) == SplitLines(s) + SplitLines(t);
    }
  }

  lemma {:induction false} NoLineFeedInLines(s: string)
    ensures forall i :: 0 <= i < |SplitLines(s)| ==> '\n' !in SplitLines(s)[i]
    decreases |s|
  {
    FindChar(s, '\n', 0);
    var k := Find(s, "\n", 0);
    if s != "" && k.Some? {
      NoLineFeedInLines(s[k.value + 1..]);
    }
  }
}
