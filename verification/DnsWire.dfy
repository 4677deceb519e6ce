/**
 The wire form of DNS responses (section 4.1 of RFC 1035), and what the parser makes of it. Names are
 written out in full or are a bare pointer to an earlier place that holds a name.
 */
module DnsWire {
  import opened Strings
  import opened DnsPacket
  import opened Options

  // ------------------------------------------------------------------ names

  /** One label of a name: 1 to 63 bytes. */
  predicate IsLabel(l: seq<byte>) { 1 <= |l| <= 63 }

  predicate AllLabels(ls: seq<seq<byte>>) { forall i :: 0 <= i < |ls| ==> IsLabel(ls[i]) }

  /** The usual text of a name: its labels with dots between them. */
  function Text(ls: seq<seq<byte>>): string {
    if ls == [] then ""
    else if |ls| == 1 then Chars(ls[0])
    else Chars(ls[0]) + "." + Text(ls[1..])
  }

  function LabelBytes(ls: seq<seq<byte>>): seq<byte>
    requires AllLabels(ls)
  {
    if ls == [] then [] else [|ls[0]| as byte] + ls[0] + LabelBytes(ls[1..])
  }

  predicate Holds(buf: seq<byte>, off: nat, bytes: seq<byte>) {
    off + |bytes| <= |buf| && buf[off..off + |bytes|] == bytes
  }

  lemma HoldsParts(buf: seq<byte>, off: nat, a: seq<byte>, b: seq<byte>)
    ensures Holds(buf, off, a + b) <==> Holds(buf, off, a) && Holds(buf, off + |a|, b)
  {
    if off + |a| + |b| <= |buf| {
      assert buf[off..off + |a| + |b|] == buf[off..off + |a|] + buf[off + |a|..off + |a| + |b|];
      if Holds(buf, off, a + b) {
        assert buf[off..off + |a|] == (a + b)[..|a|] && buf[off + |a|..off + |a| + |b|] == (a + b)[|a|..];
      }
    }
  }

  lemma HoldsByte(buf: seq<byte>, off: nat, b: byte)
    ensures Holds(buf, off, [b]) <==> off < |buf| && buf[off] == b
  {
    if off < |buf| {
      assert buf[off..off + 1] == [buf[off]];
    }
  }

  /** Appending labels to the name so far, as the loop of readName does. */
  function Extended(name: string, ls: seq<seq<byte>>): string
    decreases |ls|
  {
    if ls == [] then name else Extended(WithLabel(name, ls[0]), ls[1..])
  }

  lemma {:induction false} ExtendedIsText(name: string, ls: seq<seq<byte>>)
    requires AllLabels(ls)
    ensures Extended(name, ls) == if name == "" then Text(ls) else if ls == [] then name else name + "." + Text(ls)
    decreases |ls|
  {
    if ls != [] {
      var more := WithLabel(name, ls[0]);
      assert IsLabel(ls[0]) && |Chars(ls[0])| > 0;
      ExtendedIsText(more, ls[1..]);
      if name == "" {
        assert more == Chars(ls[0]);
      } else if |ls| > 1 {
        assert (name + "." + Chars(ls[0])) + "." + Text(ls[1..]) == name + "." + (Chars(ls[0]) + "." + Text(ls[1..]));
      }
    }
  }

  lemma OneLabelRead(buf: seq<byte>, off: nat, name: string, l: seq<byte>)
    requires IsLabel(l) && Holds(buf, off, [|l| as byte] + l)
    ensures SegmentAt(buf, off, name) == SegmentAt(buf, off + 1 + |l|, WithLabel(name, l))
  {
    HoldsParts(buf, off, [|l| as byte], l);
    HoldsByte(buf, off, |l| as byte);
    assert buf[off + 1..off + 1 + |l|] == l;
  }

  /** The loop reads labels and comes to what stands behind them. */
  lemma {:induction false} LabelsRead(buf: seq<byte>, off: nat, name: string, ls: seq<seq<byte>>)
    requires AllLabels(ls) && Holds(buf, off, LabelBytes(ls))
    ensures SegmentAt(buf, off, name) == SegmentAt(buf, off + |LabelBytes(ls)|, Extended(name, ls))
    decreases |ls|
  {
    hide Holds, SegmentAt;
    if ls != [] {
      var l := ls[0];
      assert IsLabel(l);
      HoldsParts(buf, off, [|l| as byte] + l, LabelBytes(ls[1..]));
      OneLabelRead(buf, off, name, l);
      LabelsRead(buf, off + 1 + |l|, WithLabel(name, l), ls[1..]);
    }
  }

  /** Labels and a zero byte. */
  predicate WholeAt(buf: seq<byte>, off: nat, ls: seq<seq<byte>>) {
    AllLabels(ls) && Holds(buf, off, LabelBytes(ls) + [0])
  }

  function PointerBytes(target: nat): seq<byte>
    requires target < MAX_POINTER
  {
    [(0xC0 + target / 256) as byte, (target % 256) as byte]
  }

  /** Labels and a pointer. */
  predicate PointerAt(buf: seq<byte>, off: nat, ls: seq<seq<byte>>, target: nat) {
    AllLabels(ls) && target < MAX_POINTER && Holds(buf, off, LabelBytes(ls) + PointerBytes(target))
  }

  lemma WholeRead(buf: seq<byte>, off: nat, ls: seq<seq<byte>>)
    requires WholeAt(buf, off, ls)
    ensures SegmentAt(buf, off, "") == Ends(Text(ls), off + |LabelBytes(ls)| + 1)
  {
    HoldsParts(buf, off, LabelBytes(ls), [0]);
    HoldsByte(buf, off + |LabelBytes(ls)|, 0);
    LabelsRead(buf, off, "", ls);
    ExtendedIsText("", ls);
  }

  lemma PointerHere(buf: seq<byte>, at: nat, target: nat, name: string)
    requires target < MAX_POINTER && Holds(buf, at, PointerBytes(target))
    ensures SegmentAt(buf, at, name) == Jumps(name, at + 2, target)
  {
    var p := PointerBytes(target);
    assert buf[at] == buf[at..at + 2][0] == p[0] && buf[at + 1] == buf[at..at + 2][1] == p[1];
    assert (0xC0 + target / 256) % 0x40 * 256 + target % 256 == target;
  }

  lemma PointerRead(buf: seq<byte>, off: nat, ls: seq<seq<byte>>, target: nat)
    requires PointerAt(buf, off, ls, target)
    ensures SegmentAt(buf, off, "") == Jumps(Text(ls), off + |LabelBytes(ls)| + 2, target)
  {
    hide Holds, SegmentAt, PointerBytes;
    HoldsParts(buf, off, LabelBytes(ls), PointerBytes(target));
    LabelsRead(buf, off, "", ls);
    ExtendedIsText("", ls);
    PointerHere(buf, off + |LabelBytes(ls)|, target, Extended("", ls));
  }

  /** What a place in the buffer means: the labels written there, or those of the place that it points back to. */
  ghost predicate Means(buf: seq<byte>, off: nat, ls: seq<seq<byte>>)
    decreases off
  {
    || WholeAt(buf, off, ls)
    || exists target: nat :: target < off && PointerAt(buf, off, [], target) && Means(buf, target, ls)
  }

  /** readName finds the name that a place means, in no more jumps than the offset of the place. */
  lemma {:induction false} MeaningRead(buf: seq<byte>, off: nat, ls: seq<seq<byte>>, jumps: nat)
    requires Means(buf, off, ls) && jumps >= off
    ensures NameAfter(buf, off, jumps).Done? && NameAfter(buf, off, jumps).value == Text(ls)
    decreases off
  {
    hide WholeAt, PointerAt, SegmentAt;
    if WholeAt(buf, off, ls) {
      WholeRead(buf, off, ls);
    } else {
      var target: nat :| target < off && PointerAt(buf, off, [], target) && Means(buf, target, ls);
      PointerRead(buf, off, [], target);
      MeaningRead(buf, target, ls, jumps - 1);
      assert "" + Text(ls) == Text(ls);
    }
  }

  /**
   Labels in front of a pointer: the dot between the two parts is left out, so the name is the right one
   exactly when there are no labels in front, or none at the target.
   */
  lemma DotLeftOut(buf: seq<byte>, off: nat, front: seq<seq<byte>>, target: nat, back: seq<seq<byte>>)
    requires PointerAt(buf, off, front, target) && Means(buf, target, back)
    ensures NameAt(buf, off).Done? && NameAt(buf, off).value == Text(front) + Text(back)
    ensures AllLabels(back) && (NameAt(buf, off).value == Text(front + back) <==> front == [] || back == [])
  {
    PointerRead(buf, off, front, target);
    MeaningRead(buf, target, back, MAX_POINTER - 1);
    MeaningLabels(buf, target, back);
    if front == [] {
      assert front + back == back;
    } else if back == [] {
      assert front + back == front;
    } else {
      TextJoins(front, back);
      assert |Text(front) + Text(back)| < |Text(front + back)|;
    }
  }

  lemma {:induction false} MeaningLabels(buf: seq<byte>, off: nat, ls: seq<seq<byte>>)
    requires Means(buf, off, ls)
    ensures AllLabels(ls)
    decreases off
  {
    if !WholeAt(buf, off, ls) {
      var target: nat :| target < off && PointerAt(buf, off, [], target) && Means(buf, target, ls);
      MeaningLabels(buf, target, ls);
    }
  }

  lemma {:induction false} TextJoins(front: seq<seq<byte>>, back: seq<seq<byte>>)
    requires front != [] && back != []
    ensures Text(front + back) == Text(front) + "." + Text(back)
    decreases |front|
  {
    assert (front + back)[1..] == front[1..] + back;
    if |front| > 1 {
      TextJoins(front[1..], back);
      assert Chars(front[0]) + "." + (Text(front[1..]) + "." + Text(back)) == (Chars(front[0]) + "." + Text(front[1..])) + "." + Text(back);
    }
  }

  // ------------------------------------------------------------------ messages

  /** How a name is written, and in NameMeans what it stands for. */
  datatype Name = Whole(labels: seq<seq<byte>>) | Pointer(target: nat)

  datatype Data = Address(a: byte, b: byte, c: byte, d: byte) | Txt(bytes: seq<byte>) | Other(kind: nat, bytes: seq<byte>)

  datatype Question = Question(name: Name, meaning: seq<seq<byte>>, kind: nat, class_: nat)

  datatype Resource = Resource(name: Name, meaning: seq<seq<byte>>, class_: nat, ttl: nat, data: Data)

  /** `rest` is what follows the answers: authority and additional records, or anything. */
  datatype Message = Message(
    id: nat, flags: nat, authority: nat, additional: nat,
    questions: seq<Question>, answers: seq<Resource>, rest: seq<byte>)

  function Two(n: nat): seq<byte>
    requires n < 0x1_0000
  {
    [(n / 256) as byte, (n % 256) as byte]
  }

  function Four(n: nat): seq<byte>
    requires n < 0x1_0000_0000
  {
    Two(n / 0x1_0000) + Two(n % 0x1_0000)
  }

  predicate ProperName(n: Name) {
    match n
    case Whole(ls) => AllLabels(ls)
    case Pointer(target) => target < MAX_POINTER
  }

  predicate ProperData(d: Data) {
    match d
    case Address(_, _, _, _) => true
    case Txt(bytes) => |bytes| < 256
    case Other(kind, bytes) => kind < 0x1_0000 && |bytes| < 0x1_0000 && kind != TYPE_A && kind != TYPE_TXT
  }

  predicate ProperQuestion(q: Question) { ProperName(q.name) && q.kind < 0x1_0000 && q.class_ < 0x1_0000 }

  predicate ProperResource(r: Resource) {
    ProperName(r.name) && r.class_ < 0x1_0000 && r.ttl < 0x1_0000_0000 && ProperData(r.data)
  }

  function NameBytes(n: Name): seq<byte>
    requires ProperName(n)
  {
    match n
    case Whole(ls) => LabelBytes(ls) + [0]
    case Pointer(target) => PointerBytes(target)
  }

  function KindOf(d: Data): nat {
    match d
    case Address(_, _, _, _) => TYPE_A
    case Txt(_) => TYPE_TXT
    case Other(kind, _) => kind
  }

  function DataBytes(d: Data): seq<byte>
    requires ProperData(d)
  {
    match d
    case Address(a, b, c, d) => [a, b, c, d]
    case Txt(bytes) => [|bytes| as byte] + bytes
    case Other(_, bytes) => bytes
  }

  function QuestionBytes(q: Question): seq<byte>
    requires ProperQuestion(q)
  {
    NameBytes(q.name) + (Two(q.kind) + Two(q.class_))
  }

  /** Behind the name: type, class, ttl, length, data. */
  function FixedBytes(r: Resource): seq<byte>
    requires ProperResource(r)
  {
    Two(KindOf(r.data)) + (Two(r.class_) + (Four(r.ttl) + (Two(|DataBytes(r.data)|) + DataBytes(r.data))))
  }

  function ResourceBytes(r: Resource): seq<byte>
    requires ProperResource(r)
  {
    NameBytes(r.name) + FixedBytes(r)
  }

  function QuestionsBytes(qs: seq<Question>): seq<byte>
    requires forall i :: 0 <= i < |qs| ==> ProperQuestion(qs[i])
  {
    if qs == [] then [] else QuestionBytes(qs[0]) + QuestionsBytes(qs[1..])
  }

  function ResourcesBytes(rs: seq<Resource>): seq<byte>
    requires forall i :: 0 <= i < |rs| ==> ProperResource(rs[i])
  {
    if rs == [] then [] else ResourceBytes(rs[0]) + ResourcesBytes(rs[1..])
  }

  predicate ProperMessage(m: Message) {
    && m.id < 0x1_0000 && m.flags < 0x1_0000 && m.authority < 0x1_0000 && m.additional < 0x1_0000
    && |m.questions| < 0x1_0000 && |m.answers| < 0x1_0000
    && (forall i :: 0 <= i < |m.questions| ==> ProperQuestion(m.questions[i]))
    && (forall i :: 0 <= i < |m.answers| ==> ProperResource(m.answers[i]))
  }

  function Header(m: Message): seq<byte>
    requires ProperMessage(m)
  {
    Two(m.id) + (Two(m.flags) + (Two(|m.questions|) + (Two(|m.answers|) + (Two(m.authority) + Two(m.additional)))))
  }

  function Wire(m: Message): seq<byte>
    requires ProperMessage(m)
  {
    Header(m) + (QuestionsBytes(m.questions) + (ResourcesBytes(m.answers) + m.rest))
  }

  /** The name written at that place stands for these labels. */
  ghost predicate NameMeans(buf: seq<byte>, off: nat, n: Name, ls: seq<seq<byte>>) {
    match n
    case Whole(labels) => labels == ls
    case Pointer(target) => target < off && Means(buf, target, ls)
  }

  ghost predicate QuestionsMean(buf: seq<byte>, off: nat, qs: seq<Question>)
    requires forall i :: 0 <= i < |qs| ==> ProperQuestion(qs[i])
    decreases |qs|
  {
    qs != [] ==>
      NameMeans(buf, off, qs[0].name, qs[0].meaning) && QuestionsMean(buf, off + |QuestionBytes(qs[0])|, qs[1..])
  }

  ghost predicate ResourcesMean(buf: seq<byte>, off: nat, rs: seq<Resource>)
    requires forall i :: 0 <= i < |rs| ==> ProperResource(rs[i])
    decreases |rs|
  {
    rs != [] ==>
      NameMeans(buf, off, rs[0].name, rs[0].meaning) && ResourcesMean(buf, off + |ResourceBytes(rs[0])|, rs[1..])
  }

  /** Every pointer leads back to a place of the message that holds the name meant. */
  ghost predicate WellFormed(m: Message) {
    && ProperMessage(m)
    && QuestionsMean(Wire(m), 12, m.questions)
    && ResourcesMean(Wire(m), 12 + |QuestionsBytes(m.questions)|, m.answers)
  }

  function ShownData(d: Data): string {
    match d
    case Address(a, b, c, d) => Dotted(a, b, c, d)
    case Txt(bytes) => Chars(bytes)
    case Other(_, _) => ""
  }

  function ShownAnswer(r: Resource): Answer {
    Answer(Text(r.meaning), KindOf(r.data), r.ttl, ShownData(r.data))
  }

  function ShownAnswers(rs: seq<Resource>): seq<Answer> {
    if rs == [] then [] else [ShownAnswer(rs[0])] + ShownAnswers(rs[1..])
  }

  // ------------------------------------------------------------------ the round trip

  lemma TwoRead(buf: seq<byte>, off: nat, n: nat)
    requires n < 0x1_0000 && Holds(buf, off, Two(n))
    ensures U16(buf, off) == Done(n, off + 2)
  {
    assert buf[off] == buf[off..off + 2][0] && buf[off + 1] == buf[off..off + 2][1];
  }

  lemma FourRead(buf: seq<byte>, off: nat, n: nat)
    requires n < 0x1_0000_0000 && Holds(buf, off, Four(n))
    ensures U32(buf, off) == Done(n, off + 4)
  {
    HoldsParts(buf, off, Two(n / 0x1_0000), Two(n % 0x1_0000));
    TwoRead(buf, off, n / 0x1_0000);
    TwoRead(buf, off + 2, n % 0x1_0000);
  }

  lemma NameRead(buf: seq<byte>, off: nat, n: Name, ls: seq<seq<byte>>)
    requires ProperName(n) && Holds(buf, off, NameBytes(n)) && NameMeans(buf, off, n, ls)
    ensures NameAt(buf, off) == Done(Text(ls), off + |NameBytes(n)|)
  {
    match n
    case Whole(labels) =>
      assert WholeAt(buf, off, ls);
      WholeRead(buf, off, ls);
    case Pointer(target) =>
      assert LabelBytes([]) + PointerBytes(target) == PointerBytes(target);
      assert PointerAt(buf, off, [], target);
      PointerRead(buf, off, [], target);
      MeaningRead(buf, target, ls, MAX_POINTER - 1);
      assert "" + Text(ls) == Text(ls);
  }

  lemma DataRead(buf: seq<byte>, off: nat, d: Data)
    requires ProperData(d) && Holds(buf, off, DataBytes(d))
    ensures DataAt(buf, off, KindOf(d), |DataBytes(d)|) == Done(ShownData(d), off + |DataBytes(d)|)
  {
    match d
    case Address(a, b, c, e) =>
      var s := buf[off..off + 4];
      assert buf[off] == s[0] && buf[off + 1] == s[1] && buf[off + 2] == s[2] && buf[off + 3] == s[3];
    case Txt(bytes) =>
      HoldsParts(buf, off, [|bytes| as byte], bytes);
      HoldsByte(buf, off, |bytes| as byte);
    case Other(_, _) =>
  }

  lemma FixedHolds(buf: seq<byte>, off: nat, r: Resource)
    requires ProperResource(r) && Holds(buf, off, FixedBytes(r))
    ensures Holds(buf, off, Two(KindOf(r.data))) && Holds(buf, off + 4, Four(r.ttl))
    ensures Holds(buf, off + 8, Two(|DataBytes(r.data)|)) && Holds(buf, off + 10, DataBytes(r.data))
  {
    var d := DataBytes(r.data);
    HoldsParts(buf, off, Two(KindOf(r.data)), Two(r.class_) + (Four(r.ttl) + (Two(|d|) + d)));
    HoldsParts(buf, off + 2, Two(r.class_), Four(r.ttl) + (Two(|d|) + d));
    HoldsParts(buf, off + 4, Four(r.ttl), Two(|d|) + d);
    HoldsParts(buf, off + 8, Two(|d|), d);
  }

  lemma RecordRead(buf: seq<byte>, off: nat, r: Resource, name: string)
    requires ProperResource(r) && Holds(buf, off, FixedBytes(r))
    ensures RecordAt(buf, off, name) == Done(Answer(name, KindOf(r.data), r.ttl, ShownData(r.data)), off + |FixedBytes(r)|)
  {
    FixedHolds(buf, off, r);
    TwoRead(buf, off, KindOf(r.data));
    FourRead(buf, off + 4, r.ttl);
    TwoRead(buf, off + 8, |DataBytes(r.data)|);
    DataRead(buf, off + 10, r.data);
  }

  lemma AnswerRead(buf: seq<byte>, off: nat, r: Resource)
    requires ProperResource(r) && Holds(buf, off, ResourceBytes(r)) && NameMeans(buf, off, r.name, r.meaning)
    ensures AnswerAt(buf, off) == Done(ShownAnswer(r), off + |ResourceBytes(r)|)
  {
    HoldsParts(buf, off, NameBytes(r.name), FixedBytes(r));
    hide Holds, NameBytes, FixedBytes, NameMeans, NameAt, RecordAt;
    NameRead(buf, off, r.name, r.meaning);
    RecordRead(buf, off + |NameBytes(r.name)|, r, Text(r.meaning));
  }

  /** The first record of a section, and the rest. */
  lemma ResourcesSplit(buf: seq<byte>, off: nat, rs: seq<Resource>)
    requires rs != [] && forall i :: 0 <= i < |rs| ==> ProperResource(rs[i])
    requires Holds(buf, off, ResourcesBytes(rs)) && ResourcesMean(buf, off, rs)
    ensures var next := off + |ResourceBytes(rs[0])|;
            && |ResourcesBytes(rs)| == |ResourceBytes(rs[0])| + |ResourcesBytes(rs[1..])|
            && Holds(buf, off, ResourceBytes(rs[0])) && Holds(buf, next, ResourcesBytes(rs[1..]))
            && NameMeans(buf, off, rs[0].name, rs[0].meaning) && ResourcesMean(buf, next, rs[1..])
  {
    hide ResourceBytes, NameMeans, Holds;
    HoldsParts(buf, off, ResourceBytes(rs[0]), ResourcesBytes(rs[1..]));
  }

  lemma AnswersStep(buf: seq<byte>, off: nat, rs: seq<Resource>, next: nat, end: nat)
    requires rs != [] && AnswerAt(buf, off) == Done(ShownAnswer(rs[0]), next)
    requires AnswersAt(buf, next, |rs| - 1) == Done(ShownAnswers(rs[1..]), end)
    ensures AnswersAt(buf, off, |rs|) == Done(ShownAnswers(rs), end)
  {
    hide AnswerAt, ShownAnswer;
  }

  lemma NoAnswers(buf: seq<byte>, off: nat)
    ensures AnswersAt(buf, off, 0) == Done([], off) && ShownAnswers([]) == [] && ResourcesBytes([]) == []
  {
  }

  lemma {:induction false} AnswersRead(buf: seq<byte>, off: nat, rs: seq<Resource>)
    requires forall i :: 0 <= i < |rs| ==> ProperResource(rs[i])
    requires Holds(buf, off, ResourcesBytes(rs)) && ResourcesMean(buf, off, rs)
    ensures AnswersAt(buf, off, |rs|) == Done(ShownAnswers(rs), off + |ResourcesBytes(rs)|)
    decreases |rs|
  {
    hide AnswerAt, AnswersAt, ResourceBytes, ResourcesBytes, ShownAnswer, ShownAnswers, Holds, NameMeans, ResourcesMean, ProperResource;
    if rs == [] {
      NoAnswers(buf, off);
    } else {
      var r, next := rs[0], off + |ResourceBytes(rs[0])|;
      ResourcesSplit(buf, off, rs);
      AnswerRead(buf, off, r);
      AnswersRead(buf, next, rs[1..]);
      AnswersStep(buf, off, rs, next, next + |ResourcesBytes(rs[1..])|);
    }
  }

  lemma QuestionRead(buf: seq<byte>, off: nat, q: Question)
    requires ProperQuestion(q) && Holds(buf, off, QuestionBytes(q)) && NameMeans(buf, off, q.name, q.meaning)
    ensures NameAt(buf, off).Done? && NameAt(buf, off).next + 4 == off + |QuestionBytes(q)|
  {
    HoldsParts(buf, off, NameBytes(q.name), Two(q.kind) + Two(q.class_));
    NameRead(buf, off, q.name, q.meaning);
  }

  lemma QuestionsSplit(buf: seq<byte>, off: nat, qs: seq<Question>)
    requires qs != [] && forall i :: 0 <= i < |qs| ==> ProperQuestion(qs[i])
    requires Holds(buf, off, QuestionsBytes(qs)) && QuestionsMean(buf, off, qs)
    ensures var next := off + |QuestionBytes(qs[0])|;
            && |QuestionsBytes(qs)| == |QuestionBytes(qs[0])| + |QuestionsBytes(qs[1..])|
            && Holds(buf, off, QuestionBytes(qs[0])) && Holds(buf, next, QuestionsBytes(qs[1..]))
            && NameMeans(buf, off, qs[0].name, qs[0].meaning) && QuestionsMean(buf, next, qs[1..])
  {
    hide QuestionBytes, NameMeans, Holds;
    HoldsParts(buf, off, QuestionBytes(qs[0]), QuestionsBytes(qs[1..]));
  }

  lemma SkipsOne(buf: seq<byte>, off: nat, n: nat, next: nat)
    requires n > 0 && NameAt(buf, off).Done? && NameAt(buf, off).next + 4 == next
    ensures QuestionsSkipped(buf, off, n) == QuestionsSkipped(buf, next, n - 1)
  {
    hide NameAt;
  }

  lemma NoQuestions(buf: seq<byte>, off: nat)
    ensures QuestionsSkipped(buf, off, 0) == Done((), off) && QuestionsBytes([]) == []
  {
  }

  lemma {:induction false} QuestionsRead(buf: seq<byte>, off: nat, qs: seq<Question>)
    requires forall i :: 0 <= i < |qs| ==> ProperQuestion(qs[i])
    requires Holds(buf, off, QuestionsBytes(qs)) && QuestionsMean(buf, off, qs)
    ensures QuestionsSkipped(buf, off, |qs|) == Done((), off + |QuestionsBytes(qs)|)
    decreases |qs|
  {
    hide NameAt, QuestionBytes, QuestionsBytes, QuestionsSkipped, Holds, NameMeans, QuestionsMean, ProperQuestion;
    if qs == [] {
      NoQuestions(buf, off);
    } else {
      var q := qs[0];
      QuestionsSplit(buf, off, qs);
      QuestionRead(buf, off, q);
      QuestionsRead(buf, off + |QuestionBytes(q)|, qs[1..]);
      SkipsOne(buf, off, |qs|, off + |QuestionBytes(q)|);
    }
  }

  lemma HeaderRead(buf: seq<byte>, m: Message)
    requires ProperMessage(m) && Holds(buf, 0, Header(m))
    ensures |buf| >= 12 && U16(buf, 0) == Done(m.id, 2) && U16(buf, 2) == Done(m.flags, 4)
    ensures U16(buf, 4) == Done(|m.questions|, 6) && U16(buf, 6) == Done(|m.answers|, 8)
  {
    HeaderHolds(buf, m);
    TwoRead(buf, 0, m.id);
    TwoRead(buf, 2, m.flags);
    TwoRead(buf, 4, |m.questions|);
    TwoRead(buf, 6, |m.answers|);
  }

  lemma HeaderHolds(buf: seq<byte>, m: Message)
    requires ProperMessage(m) && Holds(buf, 0, Header(m))
    ensures Holds(buf, 0, Two(m.id)) && Holds(buf, 2, Two(m.flags))
    ensures Holds(buf, 4, Two(|m.questions|)) && Holds(buf, 6, Two(|m.answers|))
  {
    var tail := Two(m.authority) + Two(m.additional);
    HoldsParts(buf, 0, Two(m.id), Two(m.flags) + (Two(|m.questions|) + (Two(|m.answers|) + tail)));
    HoldsParts(buf, 2, Two(m.flags), Two(|m.questions|) + (Two(|m.answers|) + tail));
    HoldsParts(buf, 4, Two(|m.questions|), Two(|m.answers|) + tail);
    HoldsParts(buf, 6, Two(|m.answers|), tail);
  }

  lemma WireHolds(m: Message)
    requires ProperMessage(m)
    ensures |Header(m)| == 12 && Holds(Wire(m), 0, Header(m))
    ensures Holds(Wire(m), 12, QuestionsBytes(m.questions))
    ensures Holds(Wire(m), 12 + |QuestionsBytes(m.questions)|, ResourcesBytes(m.answers))
    ensures |Wire(m)| - |m.rest| == 12 + |QuestionsBytes(m.questions)| + |ResourcesBytes(m.answers)|
  {
    var buf, h, q, a := Wire(m), Header(m), QuestionsBytes(m.questions), ResourcesBytes(m.answers);
    assert Holds(buf, 0, buf);
    HoldsParts(buf, 0, h, q + (a + m.rest));
    HoldsParts(buf, |h|, q, a + m.rest);
    HoldsParts(buf, |h| + |q|, a, m.rest);
  }

  lemma MessageRead(buf: seq<byte>, m: Message, q: nat, a: nat)
    requires ProperMessage(m) && Holds(buf, 0, Header(m))
    requires QuestionsSkipped(buf, 12, |m.questions|) == Done((), q)
    requires AnswersAt(buf, q, |m.answers|) == Done(ShownAnswers(m.answers), a)
    ensures Parsed(buf) == Done(Packet(m.id, m.flags % 16, ShownAnswers(m.answers)), a)
  {
    HeaderRead(buf, m);
  }

  /**
   Parsing the wire form of a well-formed response gives back its id, its response code and for every answer
   the name meant, the type, the ttl and the data, and stops at the end of the answers.
   */
  lemma {:induction false} ResponseRoundTrip(m: Message)
    requires WellFormed(m)
    ensures Parsed(Wire(m)) == Done(Packet(m.id, m.flags % 16, ShownAnswers(m.answers)), |Wire(m)| - |m.rest|)
  {
    hide Parsed, Holds, QuestionsMean, ResourcesMean, ShownAnswers, QuestionsBytes, ResourcesBytes, Header, Wire;
    WireHolds(m);
    SectionsRead(Wire(m), m, |QuestionsBytes(m.questions)|);
  }

  /** What an answer tells its reader about the record that was sent, without the functions that show it. */
  ghost predicate Tells(a: Answer, r: Resource) {
    && a.ttl == r.ttl
    && (r.meaning != [] && Dotless(r.meaning) ==> NameTells(a.name, r.meaning))
    && match r.data
       case Address(b, c, d, e) => a.kind == 1 && AddressOf(a.data) == [b as int, c as int, d as int, e as int]
       case Txt(bytes) => a.kind == 16 && ShowsBytes(a.data, bytes)
       case Other(kind, _) => a.kind == kind && a.data == ""
  }

  /** The pieces of the name between its dots are the labels. */
  ghost predicate NameTells(name: string, labels: seq<seq<byte>>) {
    |Pieces(name)| == |labels| && forall i :: 0 <= i < |labels| ==> ShowsBytes(Pieces(name)[i], labels[i])
  }

  predicate NoDots(l: seq<byte>) { forall i :: 0 <= i < |l| ==> l[i] as char != '.' }

  predicate Dotless(ls: seq<seq<byte>>) { forall i :: 0 <= i < |ls| ==> NoDots(ls[i]) }

  lemma {:induction false} TextTells(ls: seq<seq<byte>>)
    requires ls != [] && Dotless(ls)
    ensures NameTells(Text(ls), ls)
  {
    hide Pieces;
    assert '.' !in Chars(ls[0]) by { assert NoDots(ls[0]); }
    if |ls| == 1 {
      LastPiece(Chars(ls[0]));
    } else {
      FirstPiece(Chars(ls[0]), Text(ls[1..]));
      TextTells(ls[1..]);
      assert forall i :: 0 < i < |ls| ==> ls[i] == ls[1..][i - 1];
    }
  }

  lemma ShownTells(r: Resource)
    requires ProperData(r.data)
    ensures Tells(ShownAnswer(r), r)
  {
    hide Pieces, AddressOf, Dotted;
    if r.meaning != [] && Dotless(r.meaning) { TextTells(r.meaning); }
    if r.data.Address? { AddressRead(r.data.a, r.data.b, r.data.c, r.data.d); }
  }

  lemma {:induction false} AllShown(rs: seq<Resource>, i: nat)
    requires i < |rs|
    ensures |ShownAnswers(rs)| == |rs| && ShownAnswers(rs)[i] == ShownAnswer(rs[i])
  {
    if i > 0 {
      AllShown(rs[1..], i - 1);
    } else if |rs| > 1 {
      AllShown(rs[1..], 0);
    }
  }

  /**
   The same without the functions that show names and data: a reader who takes the parsed answers apart finds
   the ttl, the type, the four bytes of every address in their order, the bytes of every text, and the labels of
   every name that has no dot inside a label.
   */
  lemma ResponseTells(m: Message, i: nat)
    requires WellFormed(m) && i < |m.answers|
    ensures Parsed(Wire(m)).Done?
    ensures var p := Parsed(Wire(m)).value;
            p.id == m.id && p.rcode == m.flags % 16 && |p.answers| == |m.answers| && Tells(p.answers[i], m.answers[i])
  {
    hide Parsed, Wire, ShownAnswer, Tells, QuestionsMean, ResourcesMean;
    ResponseRoundTrip(m);
    AllShown(m.answers, i);
    ShownTells(m.answers[i]);
  }

  lemma SectionsRead(buf: seq<byte>, m: Message, q: nat)
    requires ProperMessage(m) && q == |QuestionsBytes(m.questions)|
    requires Holds(buf, 0, Header(m)) && Holds(buf, 12, QuestionsBytes(m.questions))
    requires Holds(buf, 12 + q, ResourcesBytes(m.answers))
    requires QuestionsMean(buf, 12, m.questions) && ResourcesMean(buf, 12 + q, m.answers)
    ensures Parsed(buf) == Done(Packet(m.id, m.flags % 16, ShownAnswers(m.answers)), 12 + q + |ResourcesBytes(m.answers)|)
  {
    hide Header, QuestionsMean, ResourcesMean, QuestionsBytes, ResourcesBytes, Holds, Parsed;
    QuestionSection(buf, m);
    AnswerSection(buf, m, 12 + q);
    MessageRead(buf, m, 12 + q, 12 + q + |ResourcesBytes(m.answers)|);
  }

  lemma QuestionSection(buf: seq<byte>, m: Message)
    requires ProperMessage(m) && Holds(buf, 12, QuestionsBytes(m.questions)) && QuestionsMean(buf, 12, m.questions)
    ensures QuestionsSkipped(buf, 12, |m.questions|) == Done((), 12 + |QuestionsBytes(m.questions)|)
  {
    QuestionsRead(buf, 12, m.questions);
  }

  lemma AnswerSection(buf: seq<byte>, m: Message, off: nat)
    requires ProperMessage(m) && Holds(buf, off, ResourcesBytes(m.answers)) && ResourcesMean(buf, off, m.answers)
    ensures AnswersAt(buf, off, |m.answers|) == Done(ShownAnswers(m.answers), off + |ResourcesBytes(m.answers)|)
  {
    AnswersRead(buf, off, m.answers);
  }

  // ------------------------------------------------------------------ nothing is lost in the data

  lemma CutAtDot(s: string, t: string, x: string, y: string)
    requires '.' !in s && '.' !in t && s + "." + x == t + "." + y
    ensures s == t && x == y
  {
    var u := s + "." + x;
    FindCharIs(u, '.', 0, |s|);
    FindCharIs(t + "." + y, '.', 0, |t|);
    assert s == u[..|s|] == t && x == u[|s| + 1..] == y;
  }

  lemma NoDot(b: byte)
    ensures '.' !in Decimal(b as nat)
  {
  }

  /** Different addresses are shown differently. */
  lemma DottedInjective(a: byte, b: byte, c: byte, d: byte, p: byte, q: byte, r: byte, s: byte)
    ensures Dotted(a, b, c, d) == Dotted(p, q, r, s) <==> a == p && b == q && c == r && d == s
  {
    if Dotted(a, b, c, d) == Dotted(p, q, r, s) {
      var x3, y3 := Decimal(c as nat) + "." + Decimal(d as nat), Decimal(r as nat) + "." + Decimal(s as nat);
      var x2, y2 := Decimal(b as nat) + "." + x3, Decimal(q as nat) + "." + y3;
      assert Dotted(a, b, c, d) == Decimal(a as nat) + "." + x2 && Dotted(p, q, r, s) == Decimal(p as nat) + "." + y2;
      NoDot(a); NoDot(b); NoDot(c); NoDot(p); NoDot(q); NoDot(r);
      CutAtDot(Decimal(a as nat), Decimal(p as nat), x2, y2);
      CutAtDot(Decimal(b as nat), Decimal(q as nat), x3, y3);
      CutAtDot(Decimal(c as nat), Decimal(r as nat), Decimal(d as nat), Decimal(s as nat));
      DecimalInjective(a as nat, p as nat);
      DecimalInjective(b as nat, q as nat);
      DecimalInjective(c as nat, r as nat);
      DecimalInjective(d as nat, s as nat);
    }
  }

  // ------------------------------------------------------------------ the response code

  /** The enumeration of response codes, numbered from zero in this order. */
  datatype ResponseCode = NoError | NxDomain | ServFail | Refused | Other

  /** The enumerator that the cast of a number gives, if there is one. */
  function Cast(code: nat): Option<ResponseCode> {
    if code == 0 then Some(NoError)
    else if code == 1 then Some(NxDomain)
    else if code == 2 then Some(ServFail)
    else if code == 3 then Some(Refused)
    else if code == 4 then Some(ResponseCode.Other)
    else None
  }

  /** What a response code means (section 4.1.1 of RFC 1035), in the words of the enumeration. */
  function MeaningOf(code: nat): ResponseCode {
    if code == 0 then NoError
    else if code == 2 then ServFail
    else if code == 3 then NxDomain
    else if code == 5 then Refused
    else ResponseCode.Other
  }

  /**
   The parsed code names what the response meant exactly for the codes 0, 2 and 4. A name error reads as a
   refusal, a format error as a name error, and codes from 5 on have no enumerator.
   */
  lemma CodeMisread(m: Message)
    requires WellFormed(m)
    ensures Parsed(Wire(m)).Done?
    ensures Cast(Parsed(Wire(m)).value.rcode) == Some(MeaningOf(m.flags % 16)) <==> m.flags % 16 in {0, 2, 4}
  {
    hide Parsed, Wire, WellFormed;
    ResponseRoundTrip(m);
  }
}
