/** A dispatched packet is read back whole: every question and every record, in order, with the
    walk ending exactly at the last byte. */
module PacketFraming {
  import opened Bytes
  import opened FqdnReader
  import opened FqdnWriter
  import opened Compression
  import opened RecordWriter
  import opened RecordReader
  import opened Framing
  import opened PacketWriter

  // ---------------------------------------------------------------- hypotheses

  /** Every record of a section fits. */
  predicate FitSection(b: Buf, rs: seq<Record>)
    requires b.Valid() && ValidRecords(rs)
    decreases |rs|
  {
    rs == [] || (assert rs[0] in rs; FitsRecord(b, rs[0]) && FitSection(AppendRecord(b, rs[0]).buf, rs[1..]))
  }

  /** And its names are sound where they are written. */
  ghost predicate SoundSection(b: Buf, rs: seq<Record>)
    requires b.Valid() && ValidRecords(rs)
    decreases |rs|
  {
    rs == [] || (assert rs[0] in rs; SoundRecord(b, rs[0]) && SoundSection(AppendRecord(b, rs[0]).buf, rs[1..]))
  }

  predicate FitsQuestion(b: Buf, q: Question) {
    b.Valid() && NameFits(q.name) && Size(q.name) + 4 < 256 && q.kind < 0x1_0000 && b.index + Size(q.name) + 4 < MAX_PACKET_SIZE
  }

  predicate FitQuestions(b: Buf, qs: seq<Question>)
    requires b.Valid()
    decreases |qs|
  {
    qs == [] || (FitsQuestion(b, qs[0]) && FitQuestions(AppendQuestion(b, qs[0]).buf, qs[1..]))
  }

  ghost predicate SoundQuestions(b: Buf, qs: seq<Question>)
    requires b.Valid()
    decreases |qs|
  {
    qs == [] || (Sound(b, qs[0].name, 0) && SoundQuestions(AppendQuestion(b, qs[0]).buf, qs[1..]))
  }

  /** Every append succeeds, and the counts fit their bytes. */
  predicate FitMessage(stale: bytes, m: Message)
    requires |stale| == MAX_PACKET_SIZE && m.Valid() && ValidSections(m)
  {
    var b1 := QuestionsDone(stale, m);
    var b2 := SectionDone(b1, m.answers, ANSWERS_OFFSET);
    var b3 := SectionDone(b2, m.servers, SERVERS_OFFSET);
    && FitQuestions(HeaderDone(stale, m), m.questions) && FitSection(b1, m.answers)
    && FitSection(b2, m.servers) && FitSection(b3, m.additional)
    && |m.questions| < 256 && |m.answers| < 256 && |m.servers| < 256 && |m.additional| < 256
  }

  ghost predicate SoundMessage(stale: bytes, m: Message)
    requires |stale| == MAX_PACKET_SIZE && m.Valid() && ValidSections(m)
  {
    var b1 := QuestionsDone(stale, m);
    var b2 := SectionDone(b1, m.answers, ANSWERS_OFFSET);
    var b3 := SectionDone(b2, m.servers, SERVERS_OFFSET);
    && SoundQuestions(HeaderDone(stale, m), m.questions) && SoundSection(b1, m.answers)
    && SoundSection(b2, m.servers) && SoundSection(b3, m.additional)
  }

  predicate ValidSections(m: Message) {
    ValidRecords(m.answers) && ValidRecords(m.servers) && ValidRecords(m.additional)
  }

  // ---------------------------------------------------------------- one section

  lemma RecordKeeps(b: Buf, r: Record)
    requires FitsRecord(b, r)
    ensures var s := AppendRecord(b, r).buf;
            b.index < s.index && forall i :: 0 <= i < b.index ==> s.data[i] == b.data[i]
  {
    RecordStep(b, r);
  }

  lemma {:induction false} SectionKeeps(b: Buf, rs: seq<Record>)
    requires b.Valid() && ValidRecords(rs) && FitSection(b, rs)
    ensures var e := AppendSection(b, rs).buf;
            b.index <= e.index && forall i :: 0 <= i < b.index ==> e.data[i] == b.data[i]
    decreases |rs|
  {
    if rs != [] {
      RecordKeeps(b, rs[0]);
      SectionKeeps(AppendRecord(b, rs[0]).buf, rs[1..]);
    }
  }

  ghost predicate AllFound(p: bytes, found: seq<Found>, rs: seq<Record>) {
    |found| == |rs| && forall i :: 0 <= i < |rs| ==> RecordFound(p, found[i], rs[i])
  }

  lemma AllFoundMore(p: bytes, f: Found, r: Record, more: seq<Found>, rs: seq<Record>)
    requires RecordFound(p, f, r) && AllFound(p, more, rs)
    ensures AllFound(p, [f] + more, [r] + rs)
  {
  }

  lemma {:induction false} SectionReads(b: Buf, rs: seq<Record>, p: bytes) returns (found: seq<Found>)
    requires b.Valid() && ValidRecords(rs) && FitSection(b, rs) && SoundSection(b, rs) && HEAD_LEN <= b.index
    requires var e := AppendSection(b, rs).buf; Holds(p, e.data, e.index, 0)
    ensures AllFound(p, found, rs)
    ensures var rest := ReadRecords(p, AppendSection(b, rs).buf.index);
            ReadRecords(p, b.index) == (found + rest.0, rest.1)
    decreases |rs|
  {
    ghost var e := AppendSection(b, rs).buf;
    if rs == [] {
      found := [];
      assert found + ReadRecords(p, e.index).0 == ReadRecords(p, e.index).0;
    } else {
      var s := AppendRecord(b, rs[0]).buf;
      assert e == AppendSection(s, rs[1..]).buf;
      RecordKeeps(b, rs[0]);
      SectionKeeps(s, rs[1..]);
      HoldsEarlier(p, e, s);
      var more := SectionReads(s, rs[1..], p);
      RecordReads(b, rs[0], p);
      found := SectionReadsMore(p, b.index, s.index, rs, more, ReadRecords(p, e.index));
    }
  }

  lemma SectionReadsMore(p: bytes, at: nat, next: nat, rs: seq<Record>, more: seq<Found>, rest: (seq<Found>, bool))
    returns (found: seq<Found>)
    requires rs != [] && FoundAt(p, at, next, rs[0])
    requires AllFound(p, more, rs[1..]) && ReadRecords(p, next) == (more + rest.0, rest.1)
    ensures AllFound(p, found, rs) && ReadRecords(p, at) == (found + rest.0, rest.1)
  {
    hide RecordFound, ReadRecord, AllFound;
    var first := ReadRecord(p, at).value;
    found := [first] + more;
    assert [first] + (more + rest.0) == found + rest.0;
    AllFoundMore(p, first, rs[0], more, rs[1..]);
    assert [rs[0]] + rs[1..] == rs;
  }

  // ---------------------------------------------------------------- questions

  ghost predicate QuestionFound(f: Asked, q: Question) {
    && (Standard(q.name) ==> SameName(f.name, Expected(q.name)))
    && f.kind == q.kind && f.dnsClass == CLASS_IN && f.unicast == q.unicast
  }

  function QuestionClass(q: Question): nat {
    if q.unicast then CLASS_IN_FLUSH else CLASS_IN
  }

  lemma QuestionStep(b: Buf, q: Question)
    requires FitsQuestion(b, q)
    ensures var n := AppendName(b, q.name); var s := AppendQuestion(b, q);
            && Extends(b, n) && n.written <= Size(q.name) && s.written > 0
            && s.buf == Put(n.buf, U16(q.kind) + U16(QuestionClass(q)))
  {
    NameExtends(b, q.name);
    var n := AppendName(b, q.name).buf;
    PutTwice(n, U16(q.kind), U16(QuestionClass(q)));
  }

  lemma QuestionKeeps(b: Buf, q: Question)
    requires FitsQuestion(b, q)
    ensures var s := AppendQuestion(b, q).buf;
            b.index < s.index && forall i :: 0 <= i < b.index ==> s.data[i] == b.data[i]
  {
    QuestionStep(b, q);
    PutBytesAt(AppendName(b, q.name).buf, U16(q.kind) + U16(QuestionClass(q)));
  }

  lemma {:induction false} QuestionsKeep(b: Buf, qs: seq<Question>)
    requires b.Valid() && FitQuestions(b, qs)
    ensures var e := AppendQuestions(b, qs).buf;
            b.index <= e.index && forall i :: 0 <= i < b.index ==> e.data[i] == b.data[i]
    decreases |qs|
  {
    if qs != [] {
      QuestionKeeps(b, qs[0]);
      QuestionsKeep(AppendQuestion(b, qs[0]).buf, qs[1..]);
    }
  }

  lemma TwoShorts(p: bytes, at: nat, x: nat, y: nat)
    requires at + 4 <= |p| && p[at..at + 4] == U16(x) + U16(y) && x < 0x1_0000 && y < 0x1_0000
    ensures ReadU16(p, at) == x && ReadU16(p, at + 2) == y
  {
    U16RoundTrip(x);
    U16RoundTrip(y);
    var bs := U16(x) + U16(y);
    forall i | 0 <= i < 4
      ensures p[at + i] == bs[i]
    {
      assert p[at..at + 4][i] == bs[i];
    }
    assert bs[0..2] == U16(x) && bs[2..4] == U16(y);
  }

  lemma QuestionBytes(b: Buf, q: Question, p: bytes)
    requires FitsQuestion(b, q) && HEAD_LEN <= b.index
    requires var s := AppendQuestion(b, q).buf; Holds(p, s.data, s.index, 0)
    ensures var n := AppendName(b, q.name).buf;
            && Holds(p, n.data, n.index, 0) && AppendQuestion(b, q).buf.index == n.index + 4 <= |p|
            && ReadU16(p, n.index) == q.kind && ReadU16(p, n.index + 2) == QuestionClass(q)
  {
    var n := AppendName(b, q.name).buf;
    var s := AppendQuestion(b, q).buf;
    var bs := U16(q.kind) + U16(QuestionClass(q));
    QuestionStep(b, q);
    PutBytesAt(n, bs);
    HoldsEarlier(p, s, n);
    assert s.data[n.index..n.index + 4] == bs;
    SameSlice(p, s.data, n.index, n.index + 4, s.index);
    TwoShorts(p, n.index, q.kind, QuestionClass(q));
  }

  /** The receiver finds q at offset at and goes on at next. */
  ghost predicate AskedAt(p: bytes, at: nat, next: nat, q: Question) {
    var f := ReadQuestion(p, at);
    f.Some? && f.value.next == next && QuestionFound(f.value, q)
  }

  lemma QuestionAt(p: bytes, at: nat, content: nat, q: Question)
    requires NameAt(p, at, content, q.name) && content + 4 <= |p|
    requires ReadU16(p, content) == q.kind && ReadU16(p, content + 2) == QuestionClass(q)
    ensures AskedAt(p, at, content + 4, q)
  {
    hide ParseName, NameAt, SameName, Expected, Standard;
    NameIsRead(p, at, content, q.name);
  }

  lemma QuestionReads(b: Buf, q: Question, p: bytes)
    requires FitsQuestion(b, q) && HEAD_LEN <= b.index && Sound(b, q.name, 0)
    requires var s := AppendQuestion(b, q).buf; Holds(p, s.data, s.index, 0)
    ensures AskedAt(p, b.index, AppendQuestion(b, q).buf.index, q)
  {
    QuestionBytes(b, q, p);
    SoundNameReads(b, q.name, 0, p);
    QuestionAt(p, b.index, AppendName(b, q.name).buf.index, q);
  }

  /** The questions that were read are those that were asked, in order. */
  ghost predicate AllAsked(asked: seq<Asked>, qs: seq<Question>) {
    |asked| == |qs| && forall i :: 0 <= i < |qs| ==> QuestionFound(asked[i], qs[i])
  }

  lemma QuestionsReadMore(p: bytes, at: nat, next: nat, qs: seq<Question>, more: seq<Asked>, end: nat)
    returns (asked: seq<Asked>)
    requires qs != [] && AskedAt(p, at, next, qs[0])
    requires AllAsked(more, qs[1..]) && ReadQuestions(p, next, |qs| - 1) == Some((more, end))
    ensures AllAsked(asked, qs) && ReadQuestions(p, at, |qs|) == Some((asked, end))
  {
    asked := [ReadQuestion(p, at).value] + more;
    forall i | 0 <= i < |qs|
      ensures QuestionFound(asked[i], qs[i])
    {
      assert i > 0 ==> asked[i] == more[i - 1] && qs[i] == qs[1..][i - 1];
    }
  }

  /** The first question of several. */
  lemma FirstQuestionReads(b: Buf, qs: seq<Question>, p: bytes)
    requires b.Valid() && qs != [] && FitQuestions(b, qs) && SoundQuestions(b, qs) && HEAD_LEN <= b.index
    requires var e := AppendQuestions(b, qs).buf; Holds(p, e.data, e.index, 0)
    ensures var s := AppendQuestion(b, qs[0]).buf;
            && b.index < s.index && FitQuestions(s, qs[1..]) && SoundQuestions(s, qs[1..]) && AskedAt(p, b.index, s.index, qs[0])
            && AppendQuestions(b, qs).buf == AppendQuestions(s, qs[1..]).buf
  {
    hide AskedAt, AppendQuestion, Holds;
    var e := AppendQuestions(b, qs).buf;
    var s := AppendQuestion(b, qs[0]).buf;
    QuestionKeeps(b, qs[0]);
    QuestionsKeep(s, qs[1..]);
    HoldsEarlier(p, e, s);
    QuestionReads(b, qs[0], p);
  }

  lemma {:induction false} QuestionsRead(b: Buf, qs: seq<Question>, p: bytes) returns (asked: seq<Asked>)
    requires b.Valid() && FitQuestions(b, qs) && SoundQuestions(b, qs) && HEAD_LEN <= b.index
    requires var e := AppendQuestions(b, qs).buf; Holds(p, e.data, e.index, 0)
    ensures AllAsked(asked, qs) && ReadQuestions(p, b.index, |qs|) == Some((asked, AppendQuestions(b, qs).buf.index))
    decreases |qs|
  {
    hide AskedAt, AppendQuestion, Holds, SoundQuestions, FitQuestions;
    if qs == [] {
      asked := [];
    } else {
      var s := AppendQuestion(b, qs[0]).buf;
      FirstQuestionReads(b, qs, p);
      var more := QuestionsRead(s, qs[1..], p);
      asked := QuestionsReadMore(p, b.index, s.index, qs, more, AppendQuestions(b, qs).buf.index);
    }
  }

  // ---------------------------------------------------------------- the whole packet

  /** A patched count leaves everything behind the header alone. */
  lemma CountKeeps(b: Buf, at: nat, count: nat, p: bytes)
    requires b.Valid() && at + 1 < HEAD_LEN
    ensures Holds(p, SetCount(b, at, count).data, b.index, 0) <==> Holds(p, b.data, b.index, 0)
  {}

  lemma SectionDoneReads(b: Buf, rs: seq<Record>, at: nat, p: bytes) returns (found: seq<Found>)
    requires b.Valid() && ValidRecords(rs) && FitSection(b, rs) && SoundSection(b, rs) && at + 1 < HEAD_LEN <= b.index
    requires var e := SectionDone(b, rs, at); Holds(p, e.data, e.index, 0)
    ensures b.index <= SectionDone(b, rs, at).index && Holds(p, b.data, b.index, 0) && AllFound(p, found, rs)
    ensures var rest := ReadRecords(p, SectionDone(b, rs, at).index);
            ReadRecords(p, b.index) == (found + rest.0, rest.1)
  {
    var s := AppendSection(b, rs);
    CountKeeps(s.buf, at, s.count, p);
    SectionKeeps(b, rs);
    HoldsEarlier(p, s.buf, b);
    found := SectionReads(b, rs, p);
  }

  lemma SectionDoneKeeps(b: Buf, rs: seq<Record>, at: nat)
    requires b.Valid() && ValidRecords(rs) && FitSection(b, rs) && at + 1 < HEAD_LEN <= b.index
    ensures b.index <= SectionDone(b, rs, at).index
  {
    SectionKeeps(b, rs);
  }

  /** The three record sections, one behind the other. */
  lemma SectionsRead(b1: Buf, an: seq<Record>, ns: seq<Record>, ar: seq<Record>, p: bytes) returns (found: seq<Found>)
    requires b1.Valid() && ValidRecords(an) && ValidRecords(ns) && ValidRecords(ar) && HEAD_LEN <= b1.index
    requires var b2 := SectionDone(b1, an, ANSWERS_OFFSET);
             var b3 := SectionDone(b2, ns, SERVERS_OFFSET);
             var e := SectionDone(b3, ar, ADDITIONAL_OFFSET);
             && FitSection(b1, an) && FitSection(b2, ns) && FitSection(b3, ar)
             && SoundSection(b1, an) && SoundSection(b2, ns) && SoundSection(b3, ar)
             && Holds(p, e.data, e.index, 0) && |p| == e.index
    ensures Holds(p, b1.data, b1.index, 0)
    ensures AllFound(p, found, an + ns + ar) && ReadRecords(p, b1.index) == (found, true)
  {
    var b2 := SectionDone(b1, an, ANSWERS_OFFSET);
    var b3 := SectionDone(b2, ns, SERVERS_OFFSET);
    SectionDoneKeeps(b1, an, ANSWERS_OFFSET);
    SectionDoneKeeps(b2, ns, SERVERS_OFFSET);
    var f3 := SectionDoneReads(b3, ar, ADDITIONAL_OFFSET, p);
    var f2 := SectionDoneReads(b2, ns, SERVERS_OFFSET, p);
    var f1 := SectionDoneReads(b1, an, ANSWERS_OFFSET, p);
    found := Joined(p, f1, f2, f3, an, ns, ar);
    assert ReadRecords(p, |p|) == ([], true);
  }

  lemma Joined(p: bytes, f1: seq<Found>, f2: seq<Found>, f3: seq<Found>, an: seq<Record>, ns: seq<Record>, ar: seq<Record>)
    returns (found: seq<Found>)
    requires AllFound(p, f1, an) && AllFound(p, f2, ns) && AllFound(p, f3, ar)
    ensures AllFound(p, found, an + ns + ar)
    ensures found == f1 + (f2 + (f3 + []))
  {
    found := f1 + (f2 + (f3 + []));
  }

  lemma QuestionsDoneRead(stale: bytes, m: Message, p: bytes) returns (asked: seq<Asked>)
    requires |stale| == MAX_PACKET_SIZE && FitQuestions(HeaderDone(stale, m), m.questions)
    requires SoundQuestions(HeaderDone(stale, m), m.questions)
    requires var e := QuestionsDone(stale, m); Holds(p, e.data, e.index, 0)
    ensures HEAD_LEN <= QuestionsDone(stale, m).index
    ensures AllAsked(asked, m.questions)
    ensures ReadQuestions(p, HEAD_LEN, |m.questions|) == Some((asked, QuestionsDone(stale, m).index))
  {
    var b0 := HeaderDone(stale, m);
    var q := AppendQuestions(b0, m.questions);
    CountKeeps(q.buf, QUESTIONS_OFFSET, q.count, p);
    QuestionsKeep(b0, m.questions);
    asked := QuestionsRead(b0, m.questions, p);
  }

  /** The receiver reads back what was dispatched: as many questions and records as there
      were, each with its fields, and not a byte is left over. */
  lemma DispatchedReadsBack(stale: bytes, m: Message) returns (asked: seq<Asked>, found: seq<Found>)
    requires |stale| == MAX_PACKET_SIZE && m.Valid() && ValidSections(m) && FitMessage(stale, m) && SoundMessage(stale, m)
    ensures var e := Dispatched(stale, m); var p := e.data[..e.index];
            && AllAsked(asked, m.questions)
            && AllFound(p, found, m.answers + m.servers + m.additional)
            && ReadQuestions(p, HEAD_LEN, |m.questions|) == Some((asked, QuestionsDone(stale, m).index))
            && ReadRecords(p, QuestionsDone(stale, m).index) == (found, true)
  {
    var e := Dispatched(stale, m);
    var p := e.data[..e.index];
    QuestionsKeep(HeaderDone(stale, m), m.questions);
    found := SectionsRead(QuestionsDone(stale, m), m.answers, m.servers, m.additional, p);
    asked := QuestionsDoneRead(stale, m, p);
  }

  /** A section sets its own count and leaves the rest of the header alone. */
  lemma SectionDoneCounts(b: Buf, rs: seq<Record>, at: nat)
    requires b.Valid() && ValidRecords(rs) && FitSection(b, rs) && at + 1 < HEAD_LEN <= b.index && |rs| < 256
    ensures var e := SectionDone(b, rs, at);
            && b.index <= e.index && ReadU16(e.data, at) == |rs|
            && forall i: nat :: i < HEAD_LEN && i != at && i != at + 1 ==> e.data[i] == b.data[i]
  {
    SectionKeeps(b, rs);
    SectionCounted(b, rs);
    U16RoundTrip(|rs|);
  }

  lemma QuestionsDoneCount(stale: bytes, m: Message)
    requires |stale| == MAX_PACKET_SIZE && FitQuestions(HeaderDone(stale, m), m.questions) && |m.questions| < 256
    requires m.id < 0x1_0000 && m.flags < 0x1_0000
    ensures var e := QuestionsDone(stale, m);
            && HEAD_LEN <= e.index && ReadU16(e.data, QUESTIONS_OFFSET) == |m.questions|
            && ReadU16(e.data, ID_OFFSET) == m.id && ReadU16(e.data, FLAGS_OFFSET) == m.flags
  {
    QuestionsKeep(HeaderDone(stale, m), m.questions);
    QuestionsCounted(HeaderDone(stale, m), m.questions);
    U16RoundTrip(|m.questions|);
    U16RoundTrip(m.id);
    U16RoundTrip(m.flags);
  }

  /** The header: id, flags, and the number of entries of each section, two bytes each. */
  lemma CountsInHeader(stale: bytes, m: Message)
    requires |stale| == MAX_PACKET_SIZE && m.Valid() && ValidSections(m) && FitMessage(stale, m)
    ensures var data := Dispatched(stale, m).data;
            && ReadU16(data, 0) == m.id && ReadU16(data, 2) == m.flags
            && ReadU16(data, 4) == |m.questions| && ReadU16(data, 6) == |m.answers|
            && ReadU16(data, 8) == |m.servers| && ReadU16(data, 10) == |m.additional|
  {
    hide QuestionsDone, SectionDone, FitSection, FitQuestions;
    var b1 := QuestionsDone(stale, m);
    var b2 := SectionDone(b1, m.answers, ANSWERS_OFFSET);
    var b3 := SectionDone(b2, m.servers, SERVERS_OFFSET);
    QuestionsDoneCount(stale, m);
    SectionDoneCounts(b1, m.answers, ANSWERS_OFFSET);
    SectionDoneCounts(b2, m.servers, SERVERS_OFFSET);
    SectionDoneCounts(b3, m.additional, ADDITIONAL_OFFSET);
  }

  /** The four bytes behind the name of a question: type, and class IN with the bit for unicast
      replies on top. */
  predicate AskPart(data: bytes, at: nat, kind: nat, unicast: bool) {
    && at + 4 <= |data|
    && data[at] as int == kind / 256 && data[at + 1] as int == kind % 256
    && data[at + 2] == (if unicast then 0x80 else 0) && data[at + 3] == 1
  }

  lemma QuestionOnWire(b: Buf, q: Question)
    requires FitsQuestion(b, q)
    ensures var at := AppendName(b, q.name).buf.index; var e := AppendQuestion(b, q).buf;
            b.index < at && e.index == at + 4 && AskPart(e.data, at, q.kind, q.unicast)
  {
    hide AppendName, AppendQuestion, U16, Put;
    var n := AppendName(b, q.name).buf;
    var bs := U16(q.kind) + U16(QuestionClass(q));
    NameExtends(b, q.name);
    QuestionStep(b, q);
    PutBytesAt(n, bs);
    NetworkOrder(q.kind);
    NetworkOrder(QuestionClass(q));
    var data := AppendQuestion(b, q).buf.data;
    assert data[n.index + 0] == bs[0] && data[n.index + 1] == bs[1] && data[n.index + 2] == bs[2] && data[n.index + 3] == bs[3];
  }

  lemma {:induction false} SectionCounted(b: Buf, rs: seq<Record>)
    requires b.Valid() && ValidRecords(rs) && FitSection(b, rs)
    ensures AppendSection(b, rs).count == |rs|
    decreases |rs|
  {
    if rs != [] {
      RecordStep(b, rs[0]);
      SectionCounted(AppendRecord(b, rs[0]).buf, rs[1..]);
    }
  }

  lemma {:induction false} QuestionsCounted(b: Buf, qs: seq<Question>)
    requires b.Valid() && FitQuestions(b, qs)
    ensures AppendQuestions(b, qs).count == |qs|
    decreases |qs|
  {
    if qs != [] {
      QuestionStep(b, qs[0]);
      QuestionsCounted(AppendQuestion(b, qs[0]).buf, qs[1..]);
    }
  }
}
