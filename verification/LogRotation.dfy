/**
 The rotating log: the current file is number 0, the files `.log.1` to `.log.6` are older and older. A
 rotation renames every file to the next number, which overwrites the oldest one.
 */
module LogRotation {
  import opened Sequences

  const MAX_SIZE := 100 * 1024 * 1024
  const LAST := 6

  datatype Level = Debug | Info | Warn | Error

  function Rank(l: Level): nat {
    match l
    case Debug => 0
    case Info => 1
    case Warn => 2
    case Error => 3
  }

  function LevelName(l: Level): string {
    match l
    case Debug => "DEBUG"
    case Info => "INFO"
    case Warn => "WARN"
    case Error => "ERROR"
  }

  /** One line of a log file: time of day, level, message. */
  function LogLine(stamp: string, l: Level, message: string): string {
    stamp + " [" + LevelName(l) + "] " + message + "\n"
  }

  /** The lines of every file that exists, by its number. */
  type LogFiles = map<nat, seq<string>>

  datatype State = State(level: Level, isOpen: bool, fileSize: nat, files: LogFiles)

  function Size(lines: seq<string>): nat {
    if lines == [] then 0 else Size(lines[..|lines| - 1]) + |lines[|lines| - 1]|
  }

  function Part(files: LogFiles, i: nat): seq<string> {
    if i in files then files[i] else []
  }

  /** File i renamed to i + 1, if there is one. */
  function Renamed(files: LogFiles, i: nat): LogFiles {
    if i in files then (files - {i})[i + 1 := files[i]] else files
  }

  /** The renamings of files i, i - 1, ..., 0 in turn. */
  function Shifted(files: LogFiles, i: nat): LogFiles
    decreases i
  {
    if i == 0 then Renamed(files, 0) else Shifted(Renamed(files, i), i - 1)
  }

  /** Opening the current file for appending, which makes it if need be. */
  function Opened(files: LogFiles, opens: bool): LogFiles {
    if opens && 0 !in files then files[0 := []] else files
  }

  predicate Full(s: State) { s.isOpen && s.fileSize >= MAX_SIZE }

  function Rotated(s: State, reopens: bool): State {
    if !Full(s) then s
    else s.(isOpen := reopens, fileSize := 0, files := Opened(Shifted(s.files, LAST - 1), reopens))
  }

  datatype Op =
    | SetLevel(newLevel: Level)
    | SetFile(opens: bool)
    | Log(level: Level, message: string, stamp: string, reopens: bool)

  function Logged(s: State, op: Op): State
    requires op.Log?
  {
    var r := Rotated(s, op.reopens);
    r.(fileSize := r.fileSize + |op.message| + 64,
       files := if r.isOpen then r.files[0 := Part(r.files, 0) + [LogLine(op.stamp, op.level, op.message)]] else r.files)
  }

  function After(s: State, op: Op): State {
    match op
    case SetLevel(l) => s.(level := l)
    case SetFile(opens) =>
      var files := Opened(s.files, opens);
      s.(isOpen := opens, files := files, fileSize := Size(Part(files, 0)))
    case Log(l, _, _, _) => if Rank(l) < Rank(s.level) then s else Logged(s, op)
  }

  /** The lines that an operation puts into a file; a logger without a file writes to the console. */
  function WrittenBy(s: State, op: Op): seq<string> {
    if op.Log? && Rank(op.level) >= Rank(s.level) && Rotated(s, op.reopens).isOpen
    then [LogLine(op.stamp, op.level, op.message)] else []
  }

  /** The lines that an operation loses: those of the oldest file, when it is overwritten. */
  function DroppedBy(s: State, op: Op): seq<string> {
    if op.Log? && Rank(op.level) >= Rank(s.level) && Full(s) && LAST - 1 in s.files then Part(s.files, LAST) else []
  }

  class Logger {
    var level: Level
    var isOpen: bool
    var fileSize: nat
    var files: LogFiles

    function View(): State
      reads this
    {
      State(level, isOpen, fileSize, files)
    }

    constructor (files: LogFiles)
      ensures View() == State(Info, false, 0, files)
    {
      level, isOpen, fileSize, this.files := Info, false, 0, files;
    }

    method SetLevel(l: Level)
      modifies this`level
      ensures View() == After(old(View()), Op.SetLevel(l))
    {
      level := l;
    }

    method SetFile(opens: bool)
      modifies this
      ensures View() == After(old(View()), Op.SetFile(opens))
    {
      isOpen := false;
      files := Opened(files, opens);
      isOpen := opens;
      fileSize := if 0 in files then Size(files[0]) else 0;
    }

    method RotateIfNeeded(reopens: bool)
      modifies this
      ensures View() == Rotated(old(View()), reopens)
    {
      if !isOpen || fileSize < MAX_SIZE { return; }
      isOpen := false;
      var i := LAST - 1;
      while i >= 1
        invariant 0 <= i < LAST && level == old(level) && !isOpen && fileSize == old(fileSize)
        invariant Shifted(files, i) == Shifted(old(files), LAST - 1)
      {
        if i in files {
          files := (files - {i})[i + 1 := files[i]];
        }
        i := i - 1;
      }
      if 0 in files {
        files := (files - {0})[1 := files[0]];
      }
      files := Opened(files, reopens);
      isOpen, fileSize := reopens, 0;
    }

    method Log(l: Level, message: string, stamp: string, reopens: bool)
      modifies this
      ensures View() == After(old(View()), Op.Log(l, message, stamp, reopens))
    {
      if Rank(l) < Rank(level) { return; }
      RotateIfNeeded(reopens);
      if isOpen {
        files := files[0 := Part(files, 0) + [LogLine(stamp, l, message)]];
      }
      fileSize := fileSize + |message| + 64;
    }
  }

  // ------------------------------------------------------------------ what a rotation does to the contents

  /** Files i down to 0, one behind the other: oldest lines first. */
  function Contents(files: LogFiles, i: nat): seq<string> {
    Part(files, i) + if i == 0 then [] else Contents(files, i - 1)
  }

  /** What number j holds after the renamings of files i down to 0. */
  predicate MovedUp(files: LogFiles, shifted: LogFiles, i: nat, j: nat) {
    if j == 0 then j !in shifted
    else if j <= i then (j in shifted <==> j - 1 in files) && Part(shifted, j) == Part(files, j - 1)
    else if j == i + 1 && i in files then j in shifted && shifted[j] == files[i]
    else (j in shifted <==> j in files) && Part(shifted, j) == Part(files, j)
  }

  lemma {:induction false} ShiftMovesUp(files: LogFiles, i: nat, j: nat)
    ensures MovedUp(files, Shifted(files, i), i, j)
    decreases i
  {
    if i > 0 {
      ShiftMovesUp(Renamed(files, i), i - 1, j);
    }
  }

  lemma {:induction false} ContentsMovedUp(files: LogFiles, i: nat, shifted: LogFiles, top: nat)
    requires i <= top && forall j: nat :: MovedUp(files, shifted, top, j)
    requires top !in files ==> top + 1 !in files
    ensures Contents(shifted, i + 1) == Contents(files, i)
    decreases i
  {
    assert MovedUp(files, shifted, top, i + 1);
    if i == 0 {
      assert MovedUp(files, shifted, top, 0);
      assert Contents(shifted, 0) == [];
    } else {
      ContentsMovedUp(files, i - 1, shifted, top);
    }
  }

  /** The numbered files are 1 to k for some k, without a gap. */
  predicate NoGap(files: LogFiles) {
    && (forall i :: i in files ==> i <= LAST)
    && (forall i :: 2 <= i && i in files ==> i - 1 in files)
  }

  /** A rotation loses the lines of the oldest file and nothing else. */
  lemma ShiftDropsOldest(files: LogFiles)
    requires NoGap(files) && 0 in files
    ensures var shifted := Shifted(files, LAST - 1);
            NoGap(shifted) && 0 !in shifted && Contents(files, LAST) == Part(files, LAST) + Contents(shifted, LAST)
  {
    var top := LAST - 1;
    var shifted := Shifted(files, top);
    forall j: nat ensures MovedUp(files, shifted, top, j) {
      ShiftMovesUp(files, top, j);
    }
    assert MovedUp(files, shifted, top, 0);
    forall i: nat | i in shifted ensures i <= LAST && (2 <= i ==> i - 1 in shifted) {
      assert MovedUp(files, shifted, top, i);
      if i >= 2 {
        assert MovedUp(files, shifted, top, i - 1);
      }
    }
    ContentsMovedUp(files, top, shifted, top);
  }

  // ------------------------------------------------------------------ whole runs

  function Ran(s: State, ops: seq<Op>): State {
    if ops == [] then s else After(Ran(s, ops[..|ops| - 1]), ops[|ops| - 1])
  }

  /** Everything that a run put into files, in order. */
  function AllWritten(s: State, ops: seq<Op>): seq<string> {
    if ops == [] then []
    else AllWritten(s, ops[..|ops| - 1]) + WrittenBy(Ran(s, ops[..|ops| - 1]), ops[|ops| - 1])
  }

  function AllDropped(s: State, ops: seq<Op>): seq<string> {
    if ops == [] then []
    else AllDropped(s, ops[..|ops| - 1]) + DroppedBy(Ran(s, ops[..|ops| - 1]), ops[|ops| - 1])
  }

  /** Timestamps have the 19 characters of `2024-01-31 23:59:59`. */
  predicate Stamped(op: Op) { op.Log? ==> |op.stamp| == 19 }

  /** An open logger has its file, and does not take it for smaller than it is. */
  predicate Sound(s: State) {
    && NoGap(s.files)
    && (s.isOpen ==> 0 in s.files && Size(s.files[0]) <= s.fileSize)
  }

  lemma {:induction false} CurrentIsLast(files: LogFiles, lines: seq<string>, i: nat)
    ensures Contents(files[0 := Part(files, 0) + lines], i) == Contents(files, i) + lines
  {
    if i > 0 {
      CurrentIsLast(files, lines, i - 1);
    }
  }

  lemma {:induction false} OpeningKeepsContents(files: LogFiles, opens: bool, i: nat)
    ensures Contents(Opened(files, opens), i) == Contents(files, i)
  {
    if i > 0 {
      OpeningKeepsContents(files, opens, i - 1);
    }
  }

  lemma RotationDrops(s: State, op: Op)
    requires op.Log? && Rank(op.level) >= Rank(s.level) && Sound(s)
    ensures var r := Rotated(s, op.reopens);
            Sound(r) && Contents(s.files, LAST) == DroppedBy(s, op) + Contents(r.files, LAST)
  {
    if Full(s) {
      ShiftDropsOldest(s.files);
      OpeningKeepsContents(Shifted(s.files, LAST - 1), op.reopens, LAST);
      assert LAST - 1 !in s.files ==> LAST !in s.files;
    } else {
      assert [] + Contents(s.files, LAST) == Contents(s.files, LAST);
    }
  }

  lemma LoggedKeepsHistory(s: State, op: Op)
    requires op.Log? && Rank(op.level) >= Rank(s.level) && Sound(s) && Stamped(op)
    ensures Sound(Logged(s, op))
    ensures Contents(s.files, LAST) + WrittenBy(s, op) == DroppedBy(s, op) + Contents(Logged(s, op).files, LAST)
  {
    hide Contents;
    var r, line := Rotated(s, op.reopens), LogLine(op.stamp, op.level, op.message);
    RotationDrops(s, op);
    if r.isOpen {
      CurrentIsLast(r.files, [line], LAST);
      Regroup(DroppedBy(s, op), Contents(r.files, LAST), [line]);
      Longer(Part(r.files, 0), line);
    } else {
      assert Contents(s.files, LAST) + [] == Contents(s.files, LAST);
    }
  }

  lemma Longer(lines: seq<string>, line: string)
    ensures Size(lines + [line]) == Size(lines) + |line| && (lines + [line])[..|lines|] == lines
  {
    assert (lines + [line])[..|lines|] == lines;
  }

  /** Each operation appends what it writes at the new end and loses what it drops at the old one. */
  lemma StepKeepsHistory(s: State, op: Op)
    requires Sound(s) && Stamped(op)
    ensures Sound(After(s, op))
    ensures Contents(s.files, LAST) + WrittenBy(s, op) == DroppedBy(s, op) + Contents(After(s, op).files, LAST)
  {
    hide Contents;
    if op.Log? && Rank(op.level) >= Rank(s.level) {
      LoggedKeepsHistory(s, op);
    } else {
      if op.SetFile? { OpeningKeepsContents(s.files, op.opens, LAST); }
      assert Contents(s.files, LAST) + [] == [] + Contents(s.files, LAST);
    }
  }

  /**
   After any run from an empty directory, with restarts and failing opens, the files from the oldest to the
   current one hold exactly what was written less what was dropped from its front, and are numbered 1 to k.
   */
  lemma {:induction false} FilesAreHistory(s: State, ops: seq<Op>)
    requires !s.isOpen && s.files == map[] && forall i :: 0 <= i < |ops| ==> Stamped(ops[i])
    ensures var end := Ran(s, ops);
            Sound(end) && AllWritten(s, ops) == AllDropped(s, ops) + Contents(end.files, LAST)
  {
    if ops == [] {
      NothingThere(s.files, LAST);
    } else {
      var init, op := ops[..|ops| - 1], ops[|ops| - 1];
      FilesAreHistory(s, init);
      StepKeepsHistory(Ran(s, init), op);
      Carry(AllDropped(s, init), Contents(Ran(s, init).files, LAST), WrittenBy(Ran(s, init), op),
            DroppedBy(Ran(s, init), op), Contents(Ran(s, ops).files, LAST));
    }
  }

  lemma {:induction false} NothingThere(files: LogFiles, i: nat)
    requires files == map[]
    ensures Contents(files, i) == []
  {
    if i > 0 {
      NothingThere(files, i - 1);
    }
  }

  lemma Carry<T>(gone: seq<T>, before: seq<T>, written: seq<T>, dropped: seq<T>, after: seq<T>)
    requires before + written == dropped + after
    ensures (gone + before) + written == (gone + dropped) + after
  {
    Regroup(gone, before, written);
    Regroup(gone, dropped, after);
  }

  // ------------------------------------------------------------------ file sizes

  /** Without its last line the file is smaller than the limit. */
  predicate Bounded(lines: seq<string>) {
    lines == [] || Size(lines[..|lines| - 1]) < MAX_SIZE
  }

  predicate AllBounded(files: LogFiles) {
    forall i :: i in files ==> Bounded(files[i])
  }

  lemma {:induction false} ShiftKeepsBounds(files: LogFiles, i: nat)
    requires AllBounded(files)
    ensures AllBounded(Shifted(files, i))
    decreases i
  {
    if i > 0 {
      ShiftKeepsBounds(Renamed(files, i), i - 1);
    }
  }

  lemma StepKeepsBounds(s: State, op: Op)
    requires Sound(s) && AllBounded(s.files) && Stamped(op)
    ensures AllBounded(After(s, op).files)
  {
    if op.Log? && Rank(op.level) >= Rank(s.level) {
      var r := Rotated(s, op.reopens);
      RotationDrops(s, op);
      ShiftKeepsBounds(s.files, LAST - 1);
      if r.isOpen {
        Longer(Part(r.files, 0), LogLine(op.stamp, op.level, op.message));
      }
    }
  }

  /** No line is added to a file of 100 MB or more, however often the logger is restarted on it. */
  lemma {:induction false} FilesAreBounded(s: State, ops: seq<Op>)
    requires !s.isOpen && s.files == map[] && forall i :: 0 <= i < |ops| ==> Stamped(ops[i])
    ensures AllBounded(Ran(s, ops).files)
  {
    if ops != [] {
      var init := ops[..|ops| - 1];
      FilesAreBounded(s, init);
      FilesAreHistory(s, init);
      StepKeepsBounds(Ran(s, init), ops[|ops| - 1]);
    }
  }

  // ------------------------------------------------------------------ which lines, and what they tell

  /** Which levels a logger writes, level by level. */
  lemma LevelsWritten(s: State, op: Op)
    requires op.Log? && s.isOpen && !Full(s)
    ensures WrittenBy(s, op) != [] <==>
              (match s.level
               case Debug => true
               case Info => op.level != Debug
               case Warn => op.level == Warn || op.level == Error
               case Error => op.level == Error)
  {
  }

  /** A line tells its time, its level and its message to whoever knows how long a time is. */
  lemma LineTells(stamp: string, l: Level, message: string, stamp': string, l': Level, message': string)
    requires |stamp| == |stamp'|
    ensures LogLine(stamp, l, message) == LogLine(stamp', l', message') <==> stamp == stamp' && l == l' && message == message'
  {
    var x, y := LogLine(stamp, l, message), LogLine(stamp', l', message');
    var n := |stamp|;
    if x == y {
      assert x[..n] == stamp && y[..n] == stamp';
      assert x[n + 2] == LevelName(l)[0] && y[n + 2] == LevelName(l')[0];
      var m := n + 2 + |LevelName(l)| + 2;
      assert x[m..|x| - 1] == message && y[m..|y| - 1] == message';
    }
  }
}
