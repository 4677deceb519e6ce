/**
 The index of message flags: a map in memory, and one text file for each user that it is saved to and
 loaded from. Saving goes through hash tables, so the lines and the flags in a line may come in any order.
 */
module FlagsIndex {
  import opened Lines
  import opened Sequences
  import opened Strings
  import opened WordLists

  /** What `operator>>` skips: space, and the characters from tab to carriage return. */
  const SPACES := {' ', '\t', '\n', '\U{000B}', '\U{000C}', '\r'}

  type Marks = map<string, set<string>>

  // ------------------------------------------------------------------ the file

  function Elements(ws: seq<string>): set<string> { set w | w in ws }

  /** The map after one more line: its first word is the message, the others are its flags. */
  function WithLine(m: Marks, line: string): Marks {
    var ws := Words(line, SPACES);
    if ws == [] then m else m[ws[0] := Elements(ws[1..])]
  }

  function MarksOf(lines: seq<string>): Marks {
    if lines == [] then map[] else WithLine(MarksOf(lines[..|lines| - 1]), lines[|lines| - 1])
  }

  function Loaded(text: string): Marks { MarksOf(SplitLines(text)) }

  /** A message and its flags in the order in which they are written. */
  datatype Entry = Entry(id: string, flags: seq<string>)

  function LineOf(e: Entry): string { Join([e.id] + e.flags) }

  function TextOf(es: seq<Entry>): string {
    if es == [] then "" else TextOf(es[..|es| - 1]) + LineOf(es[|es| - 1]) + "\n"
  }

  function Listed(es: seq<Entry>): Marks {
    if es == [] then map[] else Listed(es[..|es| - 1])[es[|es| - 1].id := Elements(es[|es| - 1].flags)]
  }

  /** Every message once, with every one of its flags once. */
  predicate Lists(es: seq<Entry>, m: Marks) {
    && (forall i :: 0 <= i < |es| ==> es[i].id in m && Elements(es[i].flags) == m[es[i].id])
    && (forall id :: id in m ==> exists i :: 0 <= i < |es| && es[i].id == id)
    && (forall i, j :: 0 <= i < j < |es| ==> es[i].id != es[j].id)
    && (forall i :: 0 <= i < |es| ==> NoRepeats(es[i].flags))
  }

  predicate NoRepeats(ws: seq<string>) { forall j, k :: 0 <= j < k < |ws| ==> ws[j] != ws[k] }

  predicate Clean(m: Marks) {
    forall id :: id in m ==> IsWord(id, SPACES) && forall f :: f in m[id] ==> IsWord(f, SPACES)
  }

  lemma NextLine(done: seq<string>, line: string, rest: seq<string>)
    ensures MarksOf(done + [line]) == WithLine(MarksOf(done), line)
    ensures done + ([line] + rest) == (done + [line]) + rest
  {
    hide WithLine;
    AllButLast(done, line);
    Regroup(done, [line], rest);
  }

  lemma OneRead(line: string, off: nat, start: nat, end: nat)
    requires off <= start <= end <= |line| && Blank(line[off..start], SPACES)
    requires start == end || IsWord(line[start..end], SPACES)
    requires off == 0 || off == |line| || line[off] in SPACES
    ensures Words(line[..end], SPACES) == Words(line[..off], SPACES) + (if start == end then [] else [line[start..end]])
  {
    var front, gap, word := line[..off], line[off..start], line[start..end];
    assert line[..start] == front + gap && line[..end] == line[..start] + word;
    assert gap != "" ==> gap[0] in SPACES && line[..start][start - 1] == gap[|gap| - 1];
    WordsSplit(front, gap, SPACES);
    BlankHasNoWords(gap, SPACES);
    WordsSplit(line[..start], word, SPACES);
    if start < end {
      WordOfWord(word, SPACES);
    }
  }

  /** Reading words with `operator>>` until the stream is at its end. */
  method Extracted(line: string) returns (ws: seq<string>)
    ensures ws == Words(line, SPACES)
  {
    ws := [];
    var off := 0;
    while off < |line|
      invariant off <= |line| && ws == Words(line[..off], SPACES)
      invariant off == 0 || off == |line| || line[off] in SPACES
    {
      var start := off;
      while start < |line| && line[start] in SPACES
        invariant off <= start <= |line| && forall i :: off <= i < start ==> line[i] in SPACES
        invariant start == off ==> off == 0 || line[off] in SPACES
      {
        start := start + 1;
      }
      var end := start;
      while end < |line| && line[end] !in SPACES
        invariant start <= end <= |line| && forall i :: start <= i < end ==> line[i] !in SPACES
      {
        end := end + 1;
      }
      OneRead(line, off, start, end);
      if start < end {
        ws := ws + [line[start..end]];
      }
      off := end;
    }
    assert line[..off] == line;
  }

  lemma OneMore(es: seq<Entry>, m: Marks, e: Entry, flags: set<string>)
    requires Lists(es, m) && e.id !in m && Elements(e.flags) == flags && NoRepeats(e.flags)
    ensures Lists(es + [e], m[e.id := flags])
  {
    var more, m' := es + [e], m[e.id := flags];
    forall id | id in m' ensures exists i :: 0 <= i < |more| && more[i].id == id {
      if id == e.id {
        assert more[|es|].id == id;
      } else {
        var i :| 0 <= i < |es| && es[i].id == id;
        assert more[i].id == id;
      }
    }
  }

  lemma FlagAdded(e: Entry, f: string)
    requires f !in Elements(e.flags) && NoRepeats(e.flags)
    ensures var more := Entry(e.id, e.flags + [f]);
            LineOf(more) == LineOf(e) + " " + f && Elements(more.flags) == Elements(e.flags) + {f} && NoRepeats(more.flags)
  {
    var ws := [e.id] + e.flags;
    assert ([e.id] + (e.flags + [f]))[..|ws|] == ws;
    assert forall x :: x in e.flags + [f] <==> x in e.flags || x == f;
    forall j | 0 <= j < |e.flags| ensures e.flags[j] != f {
      assert e.flags[j] in Elements(e.flags);
    }
  }

  /** One line of the file: the flags come in the order of their hash table. */
  method WriteEntry(id: string, flags: set<string>) returns (line: string)
    ensures exists e: Entry :: e.id == id && Elements(e.flags) == flags && NoRepeats(e.flags) && line == LineOf(e)
  {
    hide NoRepeats;
    line := id;
    ghost var e := Entry(id, []);
    var todo := flags;
    NoFlags(id);
    while todo != {}
      invariant todo <= flags && e.id == id && Elements(e.flags) == flags - todo && NoRepeats(e.flags)
      invariant line == LineOf(e)
      decreases |todo|
    {
      var f :| f in todo;
      FlagAdded(e, f);
      line := line + " " + f;
      e := Entry(id, e.flags + [f]);
      todo := todo - {f};
    }
  }

  lemma NoFlags(id: string)
    ensures Elements([]) == {} && NoRepeats([]) && LineOf(Entry(id, [])) == id
  {
    assert [id] + [] == [id];
  }

  lemma NothingListed(m: Marks)
    ensures Lists([], m - m.Keys) && TextOf([]) == ""
  {
    assert m - m.Keys == map[];
  }

  lemma NothingLoaded()
    ensures Loaded("") == map[] && MarksOf([]) == map[] && SplitLines("") == []
  {
  }

  /** The loop of save, over the hash table of messages. */
  method WriteMarks(marks: Marks) returns (text: string)
    ensures exists es :: Lists(es, marks) && text == TextOf(es)
  {
    hide Lists, LineOf;
    text := "";
    ghost var es: seq<Entry> := [];
    var todo := marks.Keys;
    NothingListed(marks);
    while todo != {}
      invariant todo <= marks.Keys && text == TextOf(es) && Lists(es, marks - todo)
      decreases |todo|
    {
      var id :| id in todo;
      var line := WriteEntry(id, marks[id]);
      ghost var e: Entry :| e.id == id && Elements(e.flags) == marks[id] && NoRepeats(e.flags) && line == LineOf(e);
      text := text + line + "\n";
      OneMore(es, marks - todo, e, marks[id]);
      assert marks - (todo - {id}) == (marks - todo)[id := marks[id]];
      AllButLast(es, e);
      es := es + [e];
      todo := todo - {id};
    }
    assert marks - {} == marks;
  }

  // ------------------------------------------------------------------ the index

  class FlagsIndex {
    var data: map<string, Marks>
    var files: map<string, string>  // by user: the text of mail_root/<user>/flags.txt

    constructor (files: map<string, string>)
      ensures this.data == map[] && this.files == files
    {
      data, this.files := map[], files;
    }

    method LoadMailbox(user: string)
      modifies this`data
      ensures data == old(data)[user := if user in files then Loaded(files[user]) else map[]]
    {
      hide SplitLines, MarksOf, Words;
      NothingLoaded();
      data := data[user := map[]];
      if user !in files { return; }
      var text, off := files[user], 0;
      ghost var done: seq<string> := [];
      assert text[0..] == text && done + SplitLines(text) == SplitLines(text);
      while off < |text|
        invariant off <= |text| && data == old(data)[user := MarksOf(done)]
        invariant done + SplitLines(text[off..]) == SplitLines(text)
      {
        var line, next := GetLine(text, off);
        var ws := Extracted(line);
        NextLine(done, line, SplitLines(text[next..]));
        if ws != [] {
          data := data[user := data[user][ws[0] := Elements(ws[1..])]];
        }
        done := done + [line];
        off := next;
      }
      assert text[off..] == "" && done + [] == done;
    }

    method GetFlags(user: string, msgId: string) returns (flags: set<string>)
      ensures flags == FlagsOf(data, user, msgId)
    {
      if user !in data { return {}; }
      if msgId !in data[user] { return {}; }
      flags := data[user][msgId];
    }

    method AddFlag(user: string, msgId: string, flag: string)
      modifies this`data
      ensures data.Keys == old(data).Keys + {user}
      ensures forall u, id :: FlagsOf(data, u, id) == FlagsOf(old(data), u, id) + if u == user && id == msgId then {flag} else {}
      ensures user in old(data) && Clean(old(data)[user]) && IsWord(msgId, SPACES) && IsWord(flag, SPACES) ==> Clean(data[user])
    {
      var marks := if user in data then data[user] else map[];
      var flags := if msgId in marks then marks[msgId] else {};
      data := data[user := marks[msgId := flags + {flag}]];
    }

    /** `opens` says whether the file could be opened for writing, which empties it. */
    method Save(user: string, opens: bool)
      modifies this`files
      ensures !opens ==> files == old(files)
      ensures opens && user !in data ==> files == old(files)[user := ""]
      ensures opens && user in data ==> exists es :: Lists(es, data[user]) && files == old(files)[user := TextOf(es)]
    {
      if !opens { return; }
      files := files[user := ""];
      if user !in data { return; }
      var text := WriteMarks(data[user]);
      files := files[user := text];
    }
  }

  function FlagsOf(data: map<string, Marks>, user: string, id: string): set<string> {
    if user in data && id in data[user] then data[user][id] else {}
  }

  // ------------------------------------------------------------------ laws

  lemma LineRead(e: Entry)
    requires IsWord(e.id, SPACES) && AllWords(e.flags, SPACES)
    ensures Words(LineOf(e), SPACES) == [e.id] + e.flags && '\n' !in LineOf(e)
  {
    var ws := [e.id] + e.flags;
    JoinWords(ws, SPACES);
    forall i | 0 <= i < |ws| ensures '\n' !in ws[i] {
      assert IsWord(ws[i], SPACES);
    }
    NotInJoin(ws, '\n');
  }

  predicate CleanEntries(es: seq<Entry>) {
    forall i :: 0 <= i < |es| ==> IsWord(es[i].id, SPACES) && AllWords(es[i].flags, SPACES)
  }

  lemma {:induction false} EntriesRead(es: seq<Entry>)
    requires CleanEntries(es)
    ensures EndsLine(TextOf(es)) && Loaded(TextOf(es)) == Listed(es)
  {
    if es != [] {
      var rest, e := es[..|es| - 1], es[|es| - 1];
      EntriesRead(rest);
      LineRead(e);
      EndedLine(LineOf(e), "");
      var last := LineOf(e) + "\n";
      assert last + "" == last && TextOf(es) == TextOf(rest) + last;
      LinesSplit(TextOf(rest), last);
      NextLine(SplitLines(TextOf(rest)), LineOf(e), []);
      assert ([e.id] + e.flags)[1..] == e.flags;
    }
  }

  lemma {:induction false} ListedHas(es: seq<Entry>, id: string)
    ensures id in Listed(es) <==> exists i :: 0 <= i < |es| && es[i].id == id
    ensures id in Listed(es) ==> exists i :: 0 <= i < |es| && es[i].id == id && Listed(es)[id] == Elements(es[i].flags)
  {
    if es != [] {
      var rest, last := es[..|es| - 1], |es| - 1;
      ListedHas(rest, id);
      if id == es[last].id {
        assert Listed(es)[id] == Elements(es[last].flags);
      } else if id in Listed(rest) {
        var i :| 0 <= i < |rest| && rest[i].id == id && Listed(rest)[id] == Elements(rest[i].flags);
        assert es[i].id == id && Listed(es)[id] == Elements(es[i].flags);
      }
    }
  }

  lemma ListedIs(es: seq<Entry>, m: Marks)
    requires Lists(es, m)
    ensures Listed(es) == m
  {
    forall id ensures id in Listed(es) <==> id in m {
      ListedHas(es, id);
    }
    forall id | id in m ensures Listed(es)[id] == m[id] {
      ListedHas(es, id);
    }
  }

  lemma CleanIsWritten(es: seq<Entry>, m: Marks)
    requires Lists(es, m) && Clean(m)
    ensures CleanEntries(es)
  {
    forall i | 0 <= i < |es| ensures IsWord(es[i].id, SPACES) && AllWords(es[i].flags, SPACES) {
      forall k | 0 <= k < |es[i].flags| ensures IsWord(es[i].flags[k], SPACES) {
        assert es[i].flags[k] in Elements(es[i].flags);
      }
    }
  }

  lemma {:induction false} LoadedIsClean(lines: seq<string>)
    ensures Clean(MarksOf(lines))
  {
    if lines != [] {
      var line := lines[|lines| - 1];
      LoadedIsClean(lines[..|lines| - 1]);
      WordsAreWords(line, SPACES);
      var ws := Words(line, SPACES);
      if ws != [] {
        assert IsWord(ws[0], SPACES);
        forall f | f in Elements(ws[1..]) ensures IsWord(f, SPACES) {
          var k :| 0 <= k < |ws[1..]| && ws[1..][k] == f;
          assert ws[k + 1] == f;
        }
      }
    }
  }

  /**
   Whatever the order of writing, loading the saved file gives the map back exactly when no message id and
   no flag is empty or holds whitespace.
   */
  lemma SaveAndLoad(es: seq<Entry>, m: Marks)
    requires Lists(es, m)
    ensures Loaded(TextOf(es)) == m <==> Clean(m)
  {
    LoadedIsClean(SplitLines(TextOf(es)));
    if Clean(m) {
      CleanIsWritten(es, m);
      EntriesRead(es);
      ListedIs(es, m);
    }
  }

  /** A restart behind a successful save: every message has the flags it had. */
  method Restart(index: FlagsIndex, user: string) returns (next: FlagsIndex)
    requires user in index.data && Clean(index.data[user])
    modifies index`files
    ensures user in next.data && forall id :: FlagsOf(next.data, user, id) == FlagsOf(index.data, user, id)
  {
    index.Save(user, true);
    next := new FlagsIndex(index.files);
    next.LoadMailbox(user);
    forall es | Lists(es, index.data[user]) && index.files[user] == TextOf(es)
      ensures next.data[user] == index.data[user]
    {
      SaveAndLoad(es, index.data[user]);
    }
  }
}
