/**
 The parser of DNS responses (sections 4.1 and 4.1.4 of RFC 1035). It moves an offset through a buffer
 without comparing it to the end, so every reading may turn out `Beyond` the buffer, where the program has
 no defined behaviour; and a name may be `Endless`, when its pointers never stop leading on.
 */
module DnsPacket {
  import opened Options
  import opened Strings

  newtype byte = x: int | 0 <= x < 256

  const MAX_POINTER := 0x4000
  const TYPE_A := 1
  const TYPE_TXT := 16

  datatype Outcome<+T> = Done(value: T, next: nat) | Beyond | Endless

  function Chars(bytes: seq<byte>): string {
    seq(|bytes|, i requires 0 <= i < |bytes| => bytes[i] as int as char)
  }

  function U16(buf: seq<byte>, off: nat): Outcome<nat> {
    if off + 2 <= |buf| then Done(buf[off] as nat * 256 + buf[off + 1] as nat, off + 2) else Beyond
  }

  function U32(buf: seq<byte>, off: nat): Outcome<nat> {
    if off + 4 <= |buf|
    then Done(buf[off] as nat * 0x100_0000 + buf[off + 1] as nat * 0x1_0000 + buf[off + 2] as nat * 0x100 + buf[off + 3] as nat, off + 4)
    else Beyond
  }

  // ------------------------------------------------------------------ names

  /** Labels read in one go: up to the end of the name, or up to a pointer. */
  datatype Segment = Ends(text: string, next: nat) | Jumps(text: string, next: nat, target: nat) | Torn

  function WithLabel(name: string, piece: seq<byte>): string {
    (if name != "" then name + "." else "") + Chars(piece)
  }

  /** The loop of readName, from an offset and with the name so far. A byte of 64 to 191 is a long label to it. */
  function SegmentAt(buf: seq<byte>, off: nat, name: string): Segment
    decreases |buf| - off
  {
    if off >= |buf| then Ends(name, off)
    else
      var len := buf[off] as nat;
      if len == 0 then Ends(name, off + 1)
      else if len >= 0xC0 then
        if off + 1 >= |buf| then Torn else Jumps(name, off + 2, len % 0x40 * 256 + buf[off + 1] as nat)
      else if off + 1 + len > |buf| then Torn
      else SegmentAt(buf, off + 1 + len, WithLabel(name, buf[off + 1..off + 1 + len]))
  }

  /** readName, given up as endless behind more than that many jumps. */
  function NameAfter(buf: seq<byte>, off: nat, jumps: nat): Outcome<string>
    decreases jumps
  {
    match SegmentAt(buf, off, "")
    case Ends(text, next) => Done(text, next)
    case Torn => Beyond
    case Jumps(text, next, target) =>
      if jumps == 0 then Endless
      else
        match NameAfter(buf, target, jumps - 1)
        case Done(rest, _) => Done(text + rest, next)
        case Beyond => Beyond
        case Endless => Endless
  }

  function NameAt(buf: seq<byte>, off: nat): Outcome<string> { NameAfter(buf, off, MAX_POINTER) }

  method ReadName(buf: seq<byte>, start: nat, jumps: nat) returns (r: Outcome<string>)
    ensures r == NameAfter(buf, start, jumps)
    decreases jumps
  {
    var name, off := "", start;
    while off < |buf|
      invariant SegmentAt(buf, off, name) == SegmentAt(buf, start, "")
      decreases |buf| - off
    {
      var len := buf[off] as nat;
      off := off + 1;
      if len == 0 { return Done(name, off); }
      if len >= 0xC0 {
        if off >= |buf| { return Beyond; }
        var ptr := len % 0x40 * 256 + buf[off] as nat;
        off := off + 1;
        if jumps == 0 { return Endless; }
        var inner := ReadName(buf, ptr, jumps - 1);
        match inner
        case Done(rest, _) => return Done(name + rest, off);
        case Beyond => return Beyond;
        case Endless => return Endless;
      }
      if off + len > |buf| { return Beyond; }
      if name != "" { name := name + "."; }
      name := name + Chars(buf[off..off + len]);
      off := off + len;
    }
    r := Done(name, off);
  }

  // ------------------------------------------------------------------ records and packets

  datatype Answer = Answer(name: string, kind: nat, ttl: nat, data: string)

  datatype Packet = Packet(id: nat, rcode: nat, answers: seq<Answer>)

  function Dotted(a: byte, b: byte, c: byte, d: byte): string {
    Decimal(a as nat) + "." + Decimal(b as nat) + "." + Decimal(c as nat) + "." + Decimal(d as nat)
  }

  /** A reader of shown names and addresses: the pieces between dots, from left to right. */
  function Pieces(s: string): seq<string>
    decreases |s|
  {
    var k := Find(s, ".", 0);
    if k.None? then [s] else [s[..k.value]] + Pieces(s[k.value + 1..])
  }

  /** The numbers of a dotted address, in their order. */
  function AddressOf(shown: string): seq<int> {
    var ps := Pieces(shown);
    seq(|ps|, i requires 0 <= i < |ps| => Value(ps[i]))
  }

  lemma FirstPiece(x: string, rest: string)
    requires '.' !in x
    ensures Pieces(x + "." + rest) == [x] + Pieces(rest)
  {
    var s := x + "." + rest;
    FindCharIs(s, '.', 0, |x|);
    assert s[..|x|] == x && s[|x| + 1..] == rest;
  }

  lemma LastPiece(x: string)
    requires '.' !in x
    ensures Pieces(x) == [x]
  {
    FindChar(x, '.', 0);
  }

  /** A shown address tells its four bytes in their order. */
  lemma AddressRead(a: byte, b: byte, c: byte, d: byte)
    ensures AddressOf(Dotted(a, b, c, d)) == [a as int, b as int, c as int, d as int]
  {
    hide Decimal, Pieces, Value;
    var w, x, y, z := Decimal(a as nat), Decimal(b as nat), Decimal(c as nat), Decimal(d as nat);
    assert Dotted(a, b, c, d) == w + "." + (x + "." + (y + "." + z));
    FirstPiece(w, x + "." + (y + "." + z));
    FirstPiece(x, y + "." + z);
    FirstPiece(y, z);
    LastPiece(z);
    assert Pieces(Dotted(a, b, c, d)) == [w, x, y, z];
    DecimalRead(a as nat);
    DecimalRead(b as nat);
    DecimalRead(c as nat);
    DecimalRead(d as nat);
  }

  /** Every byte is shown as the character with its number. */
  predicate ShowsBytes(s: string, bytes: seq<byte>) {
    |s| == |bytes| && forall i :: 0 <= i < |s| ==> s[i] as int == bytes[i] as int
  }

  function DataAt(buf: seq<byte>, off: nat, kind: nat, rdlen: nat): Outcome<string> {
    if kind == TYPE_A && rdlen == 4 then
      if off + 4 > |buf| then Beyond
      else Done(Dotted(buf[off], buf[off + 1], buf[off + 2], buf[off + 3]), off + rdlen)
    else if kind == TYPE_TXT then
      if off >= |buf| || off + 1 + buf[off] as nat > |buf| then Beyond
      else Done(Chars(buf[off + 1..off + 1 + buf[off] as nat]), off + rdlen)
    else Done("", off + rdlen)
  }

  /** Type, class, ttl, length and data, behind the name of a record. */
  function RecordAt(buf: seq<byte>, off: nat, name: string): Outcome<Answer> {
    var kind, ttl, rdlen := U16(buf, off), U32(buf, off + 4), U16(buf, off + 8);
    if !(kind.Done? && ttl.Done? && rdlen.Done?) then Beyond
    else
      match DataAt(buf, off + 10, kind.value, rdlen.value)
      case Done(data, next) => Done(Answer(name, kind.value, ttl.value, data), next)
      case Beyond => Beyond
      case Endless => Endless
  }

  function AnswerAt(buf: seq<byte>, off: nat): Outcome<Answer> {
    match NameAt(buf, off)
    case Done(name, next) => RecordAt(buf, next, name)
    case Beyond => Beyond
    case Endless => Endless
  }

  function AnswersAt(buf: seq<byte>, off: nat, count: nat): Outcome<seq<Answer>>
    decreases count
  {
    if count == 0 then Done([], off)
    else
      match AnswerAt(buf, off)
      case Beyond => Beyond
      case Endless => Endless
      case Done(a, next) => Prepended([a], AnswersAt(buf, next, count - 1))
  }

  function Prepended(front: seq<Answer>, r: Outcome<seq<Answer>>): Outcome<seq<Answer>> {
    match r
    case Done(back, next) => Done(front + back, next)
    case Beyond => Beyond
    case Endless => Endless
  }

  lemma Nothing(r: Outcome<seq<Answer>>)
    ensures Prepended([], r) == r
  {
    if r.Done? {
      assert [] + r.value == r.value;
    }
  }

  lemma PrependedTwice(front: seq<Answer>, a: Answer, r: Outcome<seq<Answer>>)
    ensures Prepended(front, Prepended([a], r)) == Prepended(front + [a], r)
  {
    if r.Done? {
      assert front + ([a] + r.value) == front + [a] + r.value;
    }
  }

  /** With these answers read and n to go at an offset, the whole section comes to `all`. */
  ghost predicate Remaining(buf: seq<byte>, front: seq<Answer>, off: nat, n: nat, all: Outcome<seq<Answer>>) {
    Prepended(front, AnswersAt(buf, off, n)) == all
  }

  lemma AnswerTaken(buf: seq<byte>, front: seq<Answer>, off: nat, n: nat, all: Outcome<seq<Answer>>)
    requires n > 0 && Remaining(buf, front, off, n, all)
    ensures var a := AnswerAt(buf, off);
            if a.Done? then Remaining(buf, front + [a.value], a.next, n - 1, all) else all.Beyond? == a.Beyond? && all.Endless? == a.Endless?
  {
    var a := AnswerAt(buf, off);
    if a.Done? {
      PrependedTwice(front, a.value, AnswersAt(buf, a.next, n - 1));
    }
  }

  lemma AllTaken(buf: seq<byte>, front: seq<Answer>, off: nat, all: Outcome<seq<Answer>>)
    requires Remaining(buf, front, off, 0, all)
    ensures all == Done(front, off)
  {
    assert front + [] == front;
  }

  function QuestionsSkipped(buf: seq<byte>, off: nat, count: nat): Outcome<()>
    decreases count
  {
    if count == 0 then Done((), off)
    else
      match NameAt(buf, off)
      case Beyond => Beyond
      case Endless => Endless
      case Done(_, next) => QuestionsSkipped(buf, next + 4, count - 1)
  }

  function Parsed(buf: seq<byte>): Outcome<Packet> {
    if |buf| < 12 then Beyond
    else
      match QuestionsSkipped(buf, 12, U16(buf, 4).value)
      case Beyond => Beyond
      case Endless => Endless
      case Done(_, off) =>
        match AnswersAt(buf, off, U16(buf, 6).value)
        case Beyond => Beyond
        case Endless => Endless
        case Done(answers, next) => Done(Packet(U16(buf, 0).value, U16(buf, 2).value % 16, answers), next)
  }

  method Read16(buf: seq<byte>, off: nat) returns (r: Outcome<nat>)
    ensures r == U16(buf, off)
  {
    if off + 1 >= |buf| { return Beyond; }
    r := Done(buf[off] as nat * 256 + buf[off + 1] as nat, off + 2);
  }

  method Read32(buf: seq<byte>, off: nat) returns (r: Outcome<nat>)
    ensures r == U32(buf, off)
  {
    if off + 3 >= |buf| { return Beyond; }
    r := Done(((buf[off] as nat * 256 + buf[off + 1] as nat) * 256 + buf[off + 2] as nat) * 256 + buf[off + 3] as nat, off + 4);
  }

  /** The body of the answer loop. */
  /** An answer with an address, told from its last ten bytes: the ttl and the length, high byte first, and the address. */
  ghost predicate AddressAnswer(buf: seq<byte>, a: Answer, next: nat) {
    && 10 <= next <= |buf|
    && a.ttl == ((buf[next - 10] as int * 256 + buf[next - 9] as int) * 256 + buf[next - 8] as int) * 256 + buf[next - 7] as int
    && buf[next - 6] as int * 256 + buf[next - 5] as int == 4
    && AddressOf(a.data) == [buf[next - 4] as int, buf[next - 3] as int, buf[next - 2] as int, buf[next - 1] as int]
  }

  lemma AnswerTells(buf: seq<byte>, start: nat)
    ensures var r := AnswerAt(buf, start); r.Done? && r.value.kind == 1 && r.value.data != "" ==> AddressAnswer(buf, r.value, r.next)
  {
    hide AddressOf, Dotted, NameAt;
    var name := NameAt(buf, start);
    if name.Done? && |buf| >= name.next + 14 {
      var off := name.next + 10;
      AddressRead(buf[off], buf[off + 1], buf[off + 2], buf[off + 3]);
    }
  }

  method ReadAnswer(buf: seq<byte>, start: nat) returns (r: Outcome<Answer>)
    ensures r == AnswerAt(buf, start)
    ensures r.Done? && r.value.kind == 1 && r.value.data != "" ==> AddressAnswer(buf, r.value, r.next)
  {
    hide AddressAnswer;
    AnswerTells(buf, start);
    var name := ReadName(buf, start, MAX_POINTER);
    if name.Beyond? { return Beyond; }
    if name.Endless? { return Endless; }
    var kind := Read16(buf, name.next);
    if !kind.Done? { return Beyond; }
    var off := kind.next + 2;
    var ttl := Read32(buf, off);
    if !ttl.Done? { return Beyond; }
    var rdlen := Read16(buf, ttl.next);
    if !rdlen.Done? { return Beyond; }
    off := rdlen.next;
    var data := "";
    if kind.value == TYPE_A && rdlen.value == 4 {
      if off + 4 > |buf| { return Beyond; }
      data := Dotted(buf[off], buf[off + 1], buf[off + 2], buf[off + 3]);
    } else if kind.value == TYPE_TXT {
      if off >= |buf| { return Beyond; }
      var sl := buf[off] as nat;
      if off + 1 + sl > |buf| { return Beyond; }
      data := Chars(buf[off + 1..off + 1 + sl]);
    }
    r := Done(Answer(name.value, kind.value, ttl.value, data), off + rdlen.value);
  }

  /** The question loop of parseDnsResponse. */
  method SkipQuestions(buf: seq<byte>, start: nat, count: nat) returns (r: Outcome<()>)
    ensures r == QuestionsSkipped(buf, start, count)
  {
    var off: nat, i := start, 0;
    while i < count
      invariant i <= count && QuestionsSkipped(buf, off, count - i) == QuestionsSkipped(buf, start, count)
    {
      var name := ReadName(buf, off, MAX_POINTER);
      if name.Beyond? { return Beyond; }
      if name.Endless? { return Endless; }
      off := name.next + 4;
      i := i + 1;
    }
    r := Done((), off);
  }

  /** The answer loop of parseDnsResponse. */
  method ReadAnswers(buf: seq<byte>, start: nat, count: nat) returns (r: Outcome<seq<Answer>>)
    ensures r == AnswersAt(buf, start, count)
  {
    hide AddressAnswer, AnswerAt, AnswersAt;
    var answers: seq<Answer> := [];
    var off: nat, i := start, 0;
    ghost var all := AnswersAt(buf, start, count);
    Nothing(all);
    while i < count
      invariant i <= count && Remaining(buf, answers, off, count - i, all)
    {
      AnswerTaken(buf, answers, off, count - i, all);
      var a := ReadAnswer(buf, off);
      if a.Beyond? { return Beyond; }
      if a.Endless? { return Endless; }
      answers := answers + [a.value];
      off := a.next;
      i := i + 1;
    }
    AllTaken(buf, answers, off, all);
    r := Done(answers, off);
  }

  lemma {:induction false} AnswersCounted(buf: seq<byte>, off: nat, count: nat)
    ensures AnswersAt(buf, off, count).Done? ==> |AnswersAt(buf, off, count).value| == count
    decreases count
  {
    if count > 0 && AnswerAt(buf, off).Done? {
      AnswersCounted(buf, AnswerAt(buf, off).next, count - 1);
    }
  }

  method ParseDnsResponse(buf: seq<byte>) returns (r: Outcome<Packet>)
    ensures r == Parsed(buf)
    ensures r.Done? ==> |buf| >= 12 && r.value.id == buf[0] as int * 256 + buf[1] as int && r.value.rcode == buf[3] as int % 16
    ensures r.Done? ==> |r.value.answers| == buf[6] as int * 256 + buf[7] as int
  {
    hide AnswersAt, QuestionsSkipped;
    var id := Read16(buf, 0);
    if !id.Done? { return Beyond; }
    var flags := Read16(buf, id.next);
    if !flags.Done? { return Beyond; }
    var qd := Read16(buf, flags.next);
    if !qd.Done? { return Beyond; }
    var an := Read16(buf, qd.next);
    if !an.Done? { return Beyond; }
    var ns := Read16(buf, an.next);
    if !ns.Done? { return Beyond; }
    var ar := Read16(buf, ns.next);
    if !ar.Done? { return Beyond; }
    var questions := SkipQuestions(buf, ar.next, qd.value);
    if questions.Beyond? { return Beyond; }
    if questions.Endless? { return Endless; }
    var answers := ReadAnswers(buf, questions.next, an.value);
    if answers.Beyond? { return Beyond; }
    if answers.Endless? { return Endless; }
    AnswersCounted(buf, questions.next, an.value);
    r := Done(Packet(id.value, flags.value % 16, answers.value), answers.next);
  }

  // ------------------------------------------------------------------ when a name ends

  /** The offset that k pointers lead to. */
  function Target(buf: seq<byte>, off: nat, k: nat): Option<nat> {
    if k == 0 then Some(off) else Hop(buf, Target(buf, off, k - 1))
  }

  function Hop(buf: seq<byte>, from: Option<nat>): Option<nat> {
    if from.Some? && SegmentAt(buf, from.value, "").Jumps? then Some(SegmentAt(buf, from.value, "").target) else None
  }

  lemma {:induction false} FirstJump(buf: seq<byte>, off: nat, k: nat)
    requires k > 0 && SegmentAt(buf, off, "").Jumps?
    ensures Target(buf, off, k) == Target(buf, SegmentAt(buf, off, "").target, k - 1)
  {
    if k > 1 {
      FirstJump(buf, off, k - 1);
    } else {
      assert Target(buf, off, 0) == Some(off);
    }
  }

  /** A name is given up exactly when one pointer more than allowed leads on. */
  lemma {:induction false} EndlessJumps(buf: seq<byte>, off: nat, jumps: nat)
    ensures NameAfter(buf, off, jumps).Endless? <==> Target(buf, off, jumps + 1).Some?
    decreases jumps
  {
    hide SegmentAt;
    var s := SegmentAt(buf, off, "");
    if s.Jumps? {
      FirstJump(buf, off, jumps + 1);
      if jumps > 0 {
        EndlessJumps(buf, s.target, jumps - 1);
      }
    } else {
      NoJump(buf, off, jumps + 1);
    }
  }

  lemma {:induction false} NoJump(buf: seq<byte>, off: nat, k: nat)
    requires k > 0 && !SegmentAt(buf, off, "").Jumps?
    ensures Target(buf, off, k).None?
  {
    if k > 1 {
      NoJump(buf, off, k - 1);
    } else {
      assert Target(buf, off, 0) == Some(off);
    }
  }

  lemma {:induction false} TargetsAreSmall(buf: seq<byte>, off: nat, name: string)
    ensures SegmentAt(buf, off, name).Jumps? ==> SegmentAt(buf, off, name).target < MAX_POINTER
    decreases |buf| - off
  {
    if off < |buf| && 0 < buf[off] < 0xC0 && off + 1 + buf[off] as nat <= |buf| {
      var len := buf[off] as nat;
      TargetsAreSmall(buf, off + 1 + len, WithLabel(name, buf[off + 1..off + 1 + len]));
    }
  }

  /** Among n + 1 numbers below n two are the same. */
  lemma {:induction false} Pigeonhole(xs: seq<nat>, n: nat) returns (i: nat, j: nat)
    requires |xs| > n && forall k :: 0 <= k < |xs| ==> xs[k] < n
    ensures i < j < |xs| && xs[i] == xs[j]
    decreases n
  {
    var last := |xs| - 1;
    if k :| 0 <= k < last && xs[k] == xs[last] {
      return k, last;
    }
    // The last number is not used by the others: rename n - 1 to it, which leaves |xs| - 1 numbers below n - 1.
    var ys := seq(last, k requires 0 <= k < last => if xs[k] == n - 1 then xs[last] else xs[k]);
    forall k | 0 <= k < last ensures ys[k] < n - 1 {
      assert xs[k] < n && xs[k] != xs[last] && xs[last] < n;
    }
    i, j := Pigeonhole(ys, n - 1);
    assert xs[i] != xs[last] && xs[j] != xs[last];
  }

  /** Pointers that lead to one place twice lead on forever. */
  lemma {:induction false} Circles(buf: seq<byte>, off: nat, i: nat, j: nat, k: nat)
    requires i < j && Target(buf, off, j).Some? && Target(buf, off, i) == Target(buf, off, j)
    ensures Target(buf, off, k).Some?
    decreases k
  {
    if k <= j {
      TargetsExist(buf, off, j, k);
    } else {
      Shifted(buf, off, i, j, k - j);
      Circles(buf, off, i, j, i + (k - j));
    }
  }

  lemma {:induction false} TargetsExist(buf: seq<byte>, off: nat, k: nat, j: nat)
    requires Target(buf, off, k).Some? && j <= k
    ensures Target(buf, off, j).Some?
    decreases k
  {
    if j < k {
      TargetsExist(buf, off, k - 1, j);
    }
  }

  lemma {:induction false} Shifted(buf: seq<byte>, off: nat, i: nat, j: nat, d: nat)
    requires Target(buf, off, i) == Target(buf, off, j)
    ensures Target(buf, off, i + d) == Target(buf, off, j + d)
  {
    hide Hop;
    if d > 0 {
      Shifted(buf, off, i, j, d - 1);
      NextAlike(buf, off, i + d - 1, j + d - 1);
    }
  }

  lemma NextAlike(buf: seq<byte>, off: nat, i: nat, j: nat)
    requires Target(buf, off, i) == Target(buf, off, j)
    ensures Target(buf, off, i + 1) == Target(buf, off, j + 1)
  {
    hide Hop;
  }

  lemma {:induction false} TargetList(buf: seq<byte>, off: nat, n: nat) returns (xs: seq<nat>)
    requires Target(buf, off, n).Some?
    ensures |xs| == n && forall i :: 0 <= i < n ==> xs[i] < MAX_POINTER && Target(buf, off, i + 1) == Some(xs[i])
    decreases n
  {
    xs := [];
    if n > 0 {
      var before := TargetList(buf, off, n - 1);
      TargetsAreSmall(buf, Target(buf, off, n - 1).value, "");
      xs := before + [Target(buf, off, n).value];
    }
  }

  /** Some target comes up twice among more targets than there are pointer values. */
  lemma TwiceThere(buf: seq<byte>, off: nat, n: nat) returns (i: nat, j: nat)
    requires n > MAX_POINTER && Target(buf, off, n).Some?
    ensures i < j && Target(buf, off, j).Some? && Target(buf, off, i) == Target(buf, off, j)
  {
    var xs := TargetList(buf, off, n);
    i, j := Pigeonhole(xs, MAX_POINTER);
    i, j := i + 1, j + 1;
  }

  lemma EndlessForever(buf: seq<byte>, off: nat, jumps: nat)
    requires NameAt(buf, off).Endless?
    ensures NameAfter(buf, off, jumps).Endless?
  {
    EndlessJumps(buf, off, MAX_POINTER);
    var i, j := TwiceThere(buf, off, MAX_POINTER + 1);
    Circles(buf, off, i, j, jumps + 1);
    EndlessJumps(buf, off, jumps);
  }

  /**
   A name ends exactly when it does so within 16384 jumps: pointers have 14 bits, so behind that many one
   target has come up twice, and the recursion goes round for ever.
   */
  lemma EndsWithin(buf: seq<byte>, off: nat)
    ensures (exists jumps: nat :: !NameAfter(buf, off, jumps).Endless?) <==> !NameAt(buf, off).Endless?
  {
    if NameAt(buf, off).Endless? {
      forall jumps: nat ensures NameAfter(buf, off, jumps).Endless? {
        EndlessForever(buf, off, jumps);
      }
    } else {
      assert !NameAfter(buf, off, MAX_POINTER).Endless?;
    }
  }

  /** Allowing more jumps changes nothing for a name that ends. */
  lemma {:induction false} MoreJumps(buf: seq<byte>, off: nat, few: nat, many: nat)
    requires few <= many && !NameAfter(buf, off, few).Endless?
    ensures NameAfter(buf, off, many) == NameAfter(buf, off, few)
    decreases few
  {
    var s := SegmentAt(buf, off, "");
    if s.Jumps? {
      MoreJumps(buf, s.target, few - 1, many - 1);
    }
  }

  /** The pointer behind the labels at an offset, if there is one, aims before the first of them. */
  predicate AimsBack(buf: seq<byte>, off: nat) {
    SegmentAt(buf, off, "").Jumps? ==> SegmentAt(buf, off, "").target < off
  }

  /** The pointers that a name really goes through all aim back; the rest of the buffer does not matter. */
  ghost predicate AimsBackFrom(buf: seq<byte>, off: nat) {
    forall k: nat :: Target(buf, off, k).Some? ==> AimsBack(buf, Target(buf, off, k).value)
  }

  lemma {:induction false} BackwardEnds(buf: seq<byte>, off: nat)
    requires AimsBackFrom(buf, off)
    ensures !NameAfter(buf, off, off).Endless? && !NameAt(buf, off).Endless?
    decreases off
  {
    hide SegmentAt;
    var s := SegmentAt(buf, off, "");
    assert Target(buf, off, 0) == Some(off);
    if s.Jumps? {
      assert AimsBack(buf, off);
      AimsBackOn(buf, off);
      BackwardEnds(buf, s.target);
      MoreJumps(buf, s.target, s.target, off - 1);
    }
    EndsWithin(buf, off);
  }

  lemma AimsBackOn(buf: seq<byte>, off: nat)
    requires AimsBackFrom(buf, off) && SegmentAt(buf, off, "").Jumps?
    ensures AimsBackFrom(buf, SegmentAt(buf, off, "").target)
  {
    hide SegmentAt, Hop;
    var next := SegmentAt(buf, off, "").target;
    forall k: nat | Target(buf, next, k).Some? ensures AimsBack(buf, Target(buf, next, k).value) {
      FirstJump(buf, off, k + 1);
      assert Target(buf, off, k + 1) == Target(buf, next, k);
    }
  }

  /** A pointer strictly before itself is not enough: behind a label it may lead back to that label. */
  lemma PointerBeforeItselfMayCircle()
    ensures var buf := [1, 'a' as byte, 0xC0, 0];
            SegmentAt(buf, 0, "") == Jumps("a", 4, 0) && NameAt(buf, 0).Endless?
  {
    var buf: seq<byte> := [1, 'a' as byte, 0xC0, 0];
    assert buf[1..2] == ['a' as byte] && Chars(buf[1..2]) == "a";
    assert SegmentAt(buf, 0, "") == SegmentAt(buf, 2, "a") == Jumps("a", 4, 0);
    assert Target(buf, 0, 0) == Some(0) && Target(buf, 0, 1) == Some(0);
    Circles(buf, 0, 0, 1, MAX_POINTER + 1);
    EndlessJumps(buf, 0, MAX_POINTER);
  }
}
