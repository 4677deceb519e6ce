/**
 Words of a text: the pieces between blanks, which are any given set of characters. `Join` puts a single
 space between words.
 */
module WordLists {
  predicate Blank(s: string, blanks: set<char>) { forall i :: 0 <= i < |s| ==> s[i] in blanks }

  /** The words after one more character; `inside` says that the last word is still going on. */
  function Grown(ws: seq<string>, inside: bool, c: char, blanks: set<char>): seq<string> {
    if c in blanks then ws
    else if !inside || ws == [] then ws + [[c]]
    else ws[..|ws| - 1] + [ws[|ws| - 1] + [c]]
  }

  predicate EndsInside(s: string, blanks: set<char>) { s != "" && s[|s| - 1] !in blanks }

  /** The maximal pieces of a text without blanks. */
  function Words(s: string, blanks: set<char>): seq<string> {
    if s == "" then [] else Grown(Words(s[..|s| - 1], blanks), EndsInside(s[..|s| - 1], blanks), s[|s| - 1], blanks)
  }

  function Join(ws: seq<string>): string {
    if ws == [] then ""
    else if |ws| == 1 then ws[0]
    else Join(ws[..|ws| - 1]) + " " + ws[|ws| - 1]
  }

  predicate IsWord(w: string, blanks: set<char>) { w != "" && forall i :: 0 <= i < |w| ==> w[i] !in blanks }

  predicate AllWords(ws: seq<string>, blanks: set<char>) { forall i :: 0 <= i < |ws| ==> IsWord(ws[i], blanks) }

  lemma {:induction false} WordsAreWords(s: string, blanks: set<char>)
    ensures AllWords(Words(s, blanks), blanks)
    ensures s != "" && s[|s| - 1] !in blanks ==> Words(s, blanks) != []
  {
    if s != "" {
      var rest := s[..|s| - 1];
      WordsAreWords(rest, blanks);
      GrownAreWords(Words(rest, blanks), EndsInside(rest, blanks), s[|s| - 1], blanks);
    }
  }

  lemma GrownAreWords(ws: seq<string>, inside: bool, c: char, blanks: set<char>)
    requires AllWords(ws, blanks)
    ensures AllWords(Grown(ws, inside, c, blanks), blanks) && (c !in blanks ==> Grown(ws, inside, c, blanks) != [])
  {
    if c !in blanks && inside && ws != [] {
      assert IsWord(ws[|ws| - 1], blanks);
      assert IsWord(ws[|ws| - 1] + [c], blanks);
    }
  }

  lemma GrownSplit(wa: seq<string>, wb: seq<string>, inside: bool, c: char, blanks: set<char>)
    requires inside ==> wb != []
    ensures Grown(wa + wb, inside, c, blanks) == wa + Grown(wb, inside, c, blanks)
  {
    if inside {
      assert (wa + wb)[..|wa + wb| - 1] == wa + wb[..|wb| - 1];
    }
  }

  /** Words never span a place with whitespace on one side. */
  lemma {:induction false} WordsSplit(a: string, b: string, blanks: set<char>)
    requires !EndsInside(a, blanks) || b == "" || b[0] in blanks
    ensures Words(a + b, blanks) == Words(a, blanks) + Words(b, blanks)
  {
    if b == "" {
      assert a + b == a;
    } else {
      var rest, c := b[..|b| - 1], b[|b| - 1];
      assert (a + b)[..|a + b| - 1] == a + rest;
      WordsSplit(a, rest, blanks);
      if c in blanks {
      } else if rest == "" {
        assert a + rest == a;
      } else {
        WordsAreWords(rest, blanks);
        assert EndsInside(a + rest, blanks) == EndsInside(rest, blanks);
        GrownSplit(Words(a, blanks), Words(rest, blanks), EndsInside(rest, blanks), c, blanks);
      }
    }
  }

  lemma {:induction false} BlankHasNoWords(s: string, blanks: set<char>)
    requires Blank(s, blanks)
    ensures Words(s, blanks) == []
  {
    if s != "" {
      BlankHasNoWords(s[..|s| - 1], blanks);
    }
  }

  /** A whitespace run inside a text may be any other. */
  lemma RunsAlike(a: string, u: string, v: string, b: string, blanks: set<char>)
    requires u != "" && v != "" && Blank(u, blanks) && Blank(v, blanks)
    ensures Words(a + u + b, blanks) == Words(a + v + b, blanks)
  {
    OneRun(a, u, b, blanks);
    OneRun(a, v, b, blanks);
  }

  lemma OneRun(a: string, u: string, b: string, blanks: set<char>)
    requires u != "" && Blank(u, blanks)
    ensures Words(a + u + b, blanks) == Words(a, blanks) + Words(b, blanks)
  {
    assert (a + u)[|a + u| - 1] == u[|u| - 1];
    WordsSplit(a + u, b, blanks);
    WordsSplit(a, u, blanks);
    BlankHasNoWords(u, blanks);
  }

  lemma {:induction false} WordOfWord(w: string, blanks: set<char>)
    requires IsWord(w, blanks)
    ensures Words(w, blanks) == [w]
  {
    var rest := w[..|w| - 1];
    if |w| > 1 {
      assert IsWord(rest, blanks) && EndsInside(rest, blanks);
      WordOfWord(rest, blanks);
      assert rest + [w[|w| - 1]] == w;
    } else {
      assert rest == "" && w == [w[0]];
    }
  }

  lemma {:induction false} JoinWords(ws: seq<string>, blanks: set<char>)
    requires AllWords(ws, blanks) && ' ' in blanks
    ensures Words(Join(ws), blanks) == ws
  {
    if |ws| == 1 {
      WordOfWord(ws[0], blanks);
    } else if |ws| > 1 {
      var rest, w := ws[..|ws| - 1], ws[|ws| - 1];
      JoinWords(rest, blanks);
      OneRun(Join(rest), " ", w, blanks);
      WordOfWord(w, blanks);
    }
  }

  lemma {:induction false} NotInJoin(ws: seq<string>, c: char)
    requires c != ' ' && forall i :: 0 <= i < |ws| ==> c !in ws[i]
    ensures c !in Join(ws)
  {
    if |ws| > 1 {
      NotInJoin(ws[..|ws| - 1], c);
    }
  }

  /** The characters of a text that are no blanks, in their order. */
  function Visible(s: string, blanks: set<char>): string {
    if s == "" then ""
    else Visible(s[..|s| - 1], blanks) + (if s[|s| - 1] in blanks then "" else [s[|s| - 1]])
  }

  function Flat(ws: seq<string>): string {
    if ws == [] then "" else Flat(ws[..|ws| - 1]) + ws[|ws| - 1]
  }

  /** No character is lost, added or moved: the words one after the other are the text without its blanks. */
  lemma {:induction false} WordsKeepText(s: string, blanks: set<char>)
    ensures Flat(Words(s, blanks)) == Visible(s, blanks)
  {
    if s != "" {
      var rest := s[..|s| - 1];
      WordsKeepText(rest, blanks);
      GrownKeepsText(Words(rest, blanks), EndsInside(rest, blanks), s[|s| - 1], blanks);
    }
  }

  lemma GrownKeepsText(ws: seq<string>, inside: bool, c: char, blanks: set<char>)
    ensures Flat(Grown(ws, inside, c, blanks)) == Flat(ws) + if c in blanks then "" else [c]
  {
    var more := Grown(ws, inside, c, blanks);
    if c in blanks {
    } else if !inside || ws == [] {
      assert more[..|more| - 1] == ws;
    } else {
      assert more[..|more| - 1] == ws[..|ws| - 1];
      assert Flat(ws[..|ws| - 1]) + (ws[|ws| - 1] + [c]) == Flat(ws[..|ws| - 1]) + ws[|ws| - 1] + [c];
    }
  }
}
