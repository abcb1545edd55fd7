/** mdns_priv_dispatch_tx_packet: header, questions and the three record sections, with the
    counts patched into the header section by section. */
module PacketWriter {
  import opened Bytes
  import opened FqdnWriter
  import opened RecordWriter

  const ID_OFFSET := 0
  const FLAGS_OFFSET := 2
  const QUESTIONS_OFFSET := 4
  const ANSWERS_OFFSET := 6
  const SERVERS_OFFSET := 8
  const ADDITIONAL_OFFSET := 10

  /** A transmit packet with its answers already resolved to records. */
  datatype Message = Message(id: nat, flags: nat, questions: seq<Question>,
                             answers: seq<Record>, servers: seq<Record>, additional: seq<Record>) {
    predicate Valid() {
      && id < 0x1_0000 && flags < 0x1_0000
      && forall r :: r in answers + servers + additional ==> r.Valid()
    }
  }

  predicate ValidRecords(rs: seq<Record>) {
    forall r :: r in rs ==> r.Valid()
  }

  /** The buffer after a section and how many of its records were written. */
  datatype Section = Section(buf: Buf, count: nat)

  function AppendSection(b: Buf, rs: seq<Record>): (s: Section)
    requires b.Valid() && ValidRecords(rs)
    ensures s.buf.Valid()
    decreases |rs|
  {
    if rs == [] then Section(b, 0)
    else
      assert rs[0] in rs;
      var first := AppendRecord(b, rs[0]);
      var rest := AppendSection(first.buf, rs[1..]);
      Section(rest.buf, rest.count + if first.written > 0 then 1 else 0)
  }

  function AppendQuestions(b: Buf, qs: seq<Question>): (s: Section)
    requires b.Valid()
    ensures s.buf.Valid()
    decreases |qs|
  {
    if qs == [] then Section(b, 0)
    else
      var first := AppendQuestion(b, qs[0]);
      var rest := AppendQuestions(first.buf, qs[1..]);
      Section(rest.buf, rest.count + if first.written > 0 then 1 else 0)
  }

  /** The counters are single bytes. */
  function SetCount(b: Buf, at: nat, count: nat): (r: Buf)
    requires b.Valid()
    ensures r.Valid() && r.index == b.index
  {
    SetU16(b, at, Narrow(count))
  }

  /** The static array keeps the bytes of the previous packet; only the header is cleared. */
  function Cleared(stale: bytes): (b: Buf)
    requires |stale| == MAX_PACKET_SIZE
    ensures b.Valid()
  {
    Buf(seq(HEAD_LEN, _ => 0) + stale[HEAD_LEN..], HEAD_LEN)
  }

  function HeaderDone(stale: bytes, m: Message): (b: Buf)
    requires |stale| == MAX_PACKET_SIZE
    ensures b.Valid()
  {
    SetU16(SetU16(Cleared(stale), FLAGS_OFFSET, m.flags), ID_OFFSET, m.id)
  }

  function QuestionsDone(stale: bytes, m: Message): (b: Buf)
    requires |stale| == MAX_PACKET_SIZE
    ensures b.Valid()
  {
    var s := AppendQuestions(HeaderDone(stale, m), m.questions);
    SetCount(s.buf, QUESTIONS_OFFSET, s.count)
  }

  function SectionDone(b: Buf, rs: seq<Record>, at: nat): (r: Buf)
    requires b.Valid() && ValidRecords(rs)
    ensures r.Valid()
  {
    var s := AppendSection(b, rs);
    SetCount(s.buf, at, s.count)
  }

  /** The packet handed to the network is the prefix up to the write index. */
  function Dispatched(stale: bytes, m: Message): (b: Buf)
    requires |stale| == MAX_PACKET_SIZE && m.Valid()
    ensures b.Valid()
  {
    assert forall r :: r in m.answers || r in m.servers || r in m.additional ==> r in m.answers + m.servers + m.additional;
    SectionDone(SectionDone(SectionDone(QuestionsDone(stale, m), m.answers, ANSWERS_OFFSET),
                            m.servers, SERVERS_OFFSET), m.additional, ADDITIONAL_OFFSET)
  }

  lemma SectionUnfolds(n: nat, b: Buf, rs: seq<Record>)
    requires b.Valid() && ValidRecords(rs) && rs != []
    ensures rs[0] in rs
    ensures var s := AppendRecord(b, rs[0]);
            Plus(n, AppendSection(b, rs)) == Plus(if s.written > 0 then n + 1 else n, AppendSection(s.buf, rs[1..]))
  {
  }

  class Dispatcher {
    const packet: RecordBuffer

    constructor ()
      ensures packet.out.Valid()
    {
      packet := new RecordBuffer();
    }

    method ClearHeader()
      requires packet.out.Valid()
      modifies packet.out`index, packet.out.data
      ensures packet.out.Valid() && packet.out.View() == Cleared(old(packet.out.View().data))
    {
      var out := packet.out;
      var i := 0;
      while i < HEAD_LEN
        invariant 0 <= i <= HEAD_LEN && out.Valid()
        invariant forall k :: 0 <= k < i ==> out.data[k] == 0
        invariant forall k :: i <= k < MAX_PACKET_SIZE ==> out.data[k] == old(packet.out.data[k])
      {
        out.data[i] := 0;
        i := i + 1;
      }
      out.index := HEAD_LEN;
      assert out.data[..] == Cleared(old(packet.out.View().data)).data;
    }

    method WriteQuestions(qs: seq<Question>)
      requires packet.out.Valid()
      modifies packet.out`index, packet.out.data
      ensures packet.out.Valid()
      ensures var s := AppendQuestions(old(packet.out.View()), qs);
              packet.out.View() == SetCount(s.buf, QUESTIONS_OFFSET, s.count)
    {
      var count: nat := 0;
      var i := 0;
      ghost var result := AppendQuestions(packet.out.View(), qs);
      while i < |qs|
        invariant 0 <= i <= |qs| && packet.out.Valid()
        invariant result == Plus(count, AppendQuestions(packet.out.View(), qs[i..]))
      {
        assert qs[i..][1..] == qs[i + 1..];
        var written := packet.AppendAsk(qs[i]);
        if written > 0 {
          count := count + 1;
        }
        i := i + 1;
      }
      packet.SetShort(QUESTIONS_OFFSET, Narrow(count));
    }

    method WriteRecords(rs: seq<Record>) returns (count: nat)
      requires packet.out.Valid() && ValidRecords(rs)
      modifies packet.out`index, packet.out.data
      ensures packet.out.Valid()
      ensures Section(packet.out.View(), count) == AppendSection(old(packet.out.View()), rs)
    {
      count := 0;
      var i := 0;
      ghost var result := AppendSection(packet.out.View(), rs);
      while i < |rs|
        invariant 0 <= i <= |rs| && packet.out.Valid()
        invariant result == Plus(count, AppendSection(packet.out.View(), rs[i..]))
      {
        assert rs[i] in rs && rs[i..][1..] == rs[i + 1..];
        SectionUnfolds(count, packet.out.View(), rs[i..]);
        var written := packet.Append(rs[i]);
        if written > 0 {
          count := count + 1;
        }
        i := i + 1;
      }
    }

    method WriteSection(rs: seq<Record>, at: nat)
      requires packet.out.Valid() && ValidRecords(rs)
      modifies packet.out`index, packet.out.data
      ensures packet.out.Valid()
      ensures packet.out.View() == SectionDone(old(packet.out.View()), rs, at)
    {
      var count := WriteRecords(rs);
      packet.SetShort(at, Narrow(count));
    }

    /** mdns_priv_dispatch_tx_packet up to the call that sends the bytes. */
    method Dispatch(m: Message) returns (wire: bytes)
      requires packet.out.Valid() && m.Valid()
      modifies packet.out`index, packet.out.data
      ensures packet.out.Valid() && packet.out.View() == Dispatched(old(packet.out.View().data), m)
      ensures wire == packet.out.View().data[..packet.out.View().index]
    {
      assert forall r :: r in m.answers || r in m.servers || r in m.additional ==> r in m.answers + m.servers + m.additional;
      ClearHeader();
      packet.SetShort(FLAGS_OFFSET, m.flags);
      packet.SetShort(ID_OFFSET, m.id);
      WriteQuestions(m.questions);
      WriteSection(m.answers, ANSWERS_OFFSET);
      WriteSection(m.servers, SERVERS_OFFSET);
      WriteSection(m.additional, ADDITIONAL_OFFSET);
      wire := packet.out.data[..packet.out.index];
    }
  }

  ghost function Plus(n: nat, s: Section): Section {
    Section(s.buf, n + s.count)
  }
}
