/** When a packet reads back with all its names: a condition on the message alone.  Its names are
    made of words that cannot be mistaken for one another, and no other bytes of the message
    look like the beginning of a word. */
module PacketNames {
  import opened Bytes
  import opened FqdnReader
  import opened FqdnWriter
  import opened Compression
  import opened CompressionLimits
  import opened RecordWriter
  import opened RecordReader
  import opened Framing
  import opened PacketWriter
  import opened PacketFraming
  import opened NameAnchors

  // ---------------------------------------------------------------- bytes that are no names

  /** No word seems to start in the bytes, but perhaps at the last one. */
  ghost predicate Still(bs: bytes, words: set<bytes>) {
    forall c: nat, w :: w in words && c + 1 < |bs| ==> !Starts(bs, c, |bs|, w)
  }

  /** Nor does one start at a byte in front of them. */
  ghost predicate Silent(bs: bytes, words: set<bytes>) {
    bs != [] && Mute(bs[0], words) && Still(bs, words)
  }

  predicate Stands(data: bytes, at: nat, bs: bytes) {
    at + |bs| <= |data| && forall i :: 0 <= i < |bs| ==> data[at + i] == bs[i]
  }

  /** Bytes in which nothing starts, in front of a legible rest. */
  lemma BlockThenLegible(e: Buf, at: nat, bs: bytes, words: set<bytes>, loc: nat)
    requires e.Valid() && bs != [] && Still(bs, words) && Stands(e.data, at, bs) && at + |bs| <= e.index
    requires at + |bs| < e.index ==> Mute(e.data[at + |bs|], words)
    requires LegibleFrom(e, words, loc, at + |bs|)
    ensures LegibleFrom(e, words, loc, at)
  {
    hide Anchor;
    forall c: nat, w | w in words && at <= c && c + 1 < e.index && Starts(e.data, c, e.index, w)
      ensures Anchor(e, c, loc)
    {
      if c + 1 < at + |bs| {
        StartsInBlock(e, at, bs, c, w);
        assert false;
      } else if c + 1 == at + |bs| {
        NoStart(e.data, c, e.index, w);
        assert false;
      }
    }
  }

  lemma StartsInBlock(e: Buf, at: nat, bs: bytes, c: nat, w: bytes)
    requires e.Valid() && Stands(e.data, at, bs) && at + |bs| <= e.index
    requires at <= c && c + 1 < at + |bs| && Starts(e.data, c, e.index, w)
    ensures Starts(bs, c - at, |bs|, w)
  {
    var k: nat := c - at;
    assert e.data[at + k] == bs[k];
    forall i | 0 <= i < |w| && k + 1 + i < |bs|
      ensures bs[k + 1 + i] == w[i]
    {
      assert e.data[at + (k + 1 + i)] == bs[k + 1 + i];
    }
  }

  lemma NothingBehind(e: Buf, words: set<bytes>, loc: nat)
    requires e.Valid()
    ensures LegibleFrom(e, words, loc, e.index)
  {}

  lemma BlockStaysLegible(b: Buf, bs: bytes, words: set<bytes>, loc: nat, newLoc: nat)
    requires b.Valid() && b.index + |bs| <= MAX_PACKET_SIZE && Wording(words) && Silent(bs, words)
    requires ZeroBehind(b) && Legible(b, words, loc) && Later(b.index, loc, b.index + |bs|, newLoc)
    ensures ZeroBehind(Put(b, bs)) && Legible(Put(b, bs), words, newLoc)
  {
    hide Wording, Legible, LegibleFrom, Mute, Still;
    var e := Put(b, bs);
    PutBytesAt(b, bs);
    assert e.data[b.index + 0] == bs[0];
    NothingBehind(e, words, newLoc);
    BlockThenLegible(e, b.index, bs, words, newLoc);
    LegibleBefore(b, e, words, loc, newLoc);
  }

  /** Two silent stretches make one. */
  lemma SilentJoined(x: bytes, y: bytes, words: set<bytes>)
    requires Silent(x, words) && Silent(y, words)
    ensures Silent(x + y, words)
  {
    var bs := x + y;
    forall c: nat, w | w in words && c + 1 < |bs|
      ensures !Starts(bs, c, |bs|, w)
    {
      if Starts(bs, c, |bs|, w) {
        StartsInPart(x, y, c, w);
        assert false;
      }
    }
  }

  lemma StartsInPart(x: bytes, y: bytes, c: nat, w: bytes)
    requires c + 1 < |x + y| && Starts(x + y, c, |x + y|, w)
    ensures c + 1 < |x| ==> Starts(x, c, |x|, w)
    ensures c >= |x| ==> Starts(y, c - |x|, |y|, w)
  {
    if c >= |x| {
      forall i | 0 <= i < |w| && c - |x| + 1 + i < |y|
        ensures y[c - |x| + 1 + i] == w[i]
      {
        assert (x + y)[c + 1 + i] == y[c - |x| + 1 + i];
      }
    }
  }

  lemma ZerosAreSilent(words: set<bytes>)
    requires Wording(words)
    ensures Silent([0, 0], words)
  {}

  // ---------------------------------------------------------------- questions

  ghost predicate ClearQuestion(q: Question, words: set<bytes>) {
    Spoken(q.name, words) && Silent(U16(q.kind) + U16(QuestionClass(q)), words)
  }

  lemma QuestionStaysLegible(b: Buf, q: Question, words: set<bytes>)
    requires b.Valid() && FitsQuestion(b, q) && ClearQuestion(q, words) && Wording(words)
    requires ZeroBehind(b) && Legible(b, words, 0) && HEAD_LEN <= b.index
    ensures Sound(b, q.name, 0)
    ensures var e := AppendQuestion(b, q).buf; ZeroBehind(e) && Legible(e, words, 0) && b.index < e.index
    ensures var e := AppendQuestion(b, q).buf; forall i :: 0 <= i < b.index ==> e.data[i] == b.data[i]
  {
    hide Wording, Legible, Sound, Spoken, Silent, ZeroBehind;
    NameStaysLegible(b, q.name, words, 0);
    QuestionStep(b, q);
    QuestionKeeps(b, q);
    BlockStaysLegible(AppendName(b, q.name).buf, U16(q.kind) + U16(QuestionClass(q)), words, 0, 0);
  }

  lemma {:induction false} QuestionsStayLegible(b: Buf, qs: seq<Question>, words: set<bytes>)
    requires b.Valid() && FitQuestions(b, qs) && (forall q :: q in qs ==> ClearQuestion(q, words)) && Wording(words)
    requires ZeroBehind(b) && Legible(b, words, 0) && HEAD_LEN <= b.index
    ensures SoundQuestions(b, qs)
    ensures var e := AppendQuestions(b, qs).buf; ZeroBehind(e) && Legible(e, words, 0)
    decreases |qs|
  {
    hide Wording, Legible, Sound, ClearQuestion, ZeroBehind, AppendQuestion, FitsQuestion;
    if qs != [] {
      assert qs[0] in qs;
      QuestionStaysLegible(b, qs[0], words);
      QuestionsStayLegible(AppendQuestion(b, qs[0]).buf, qs[1..], words);
    }
  }

  // ---------------------------------------------------------------- records

  /** What stands between owner and data length. */
  function Front(r: Record): (bs: bytes)
    ensures |bs| == 8
  {
    U16(r.kind) + U16(r.Class()) + U32(r.ttl)
  }

  /** Data that holds no name. */
  function Payload(d: Data): bytes
    requires !d.NameData? && !d.SrvData?
  {
    match d
    case TxtData(items) => if items == [] then [0] else TxtEntries(items)
    case Address4(ip) => ip
    case Address6(ip6) => ip6
  }

  function SrvFront(d: Data): (bs: bytes)
    requires d.SrvData?
    ensures |bs| == 6
  {
    U16(d.priority) + U16(d.weight) + U16(d.port)
  }

  ghost predicate ClearData(d: Data, words: set<bytes>) {
    match d
    case NameData(target) => Spoken(target, words)
    case SrvData(_, _, _, host) => Spoken(host, words) && Silent(SrvFront(d), words)
    case _ => Still(U16(|Payload(d)|) + Payload(d), words)
  }

  ghost predicate ClearRecord(r: Record, words: set<bytes>) {
    Spoken(r.owner, words) && Silent(Front(r), words) && ClearData(r.data, words)
  }

  lemma FixedStaysLegible(n: Buf, r: Record, words: set<bytes>)
    requires n.Valid() && HEAD_LEN <= n.index && n.index + 10 < MAX_PACKET_SIZE
    requires Wording(words) && Silent(Front(r), words) && ZeroBehind(n) && Legible(n, words, 0)
    ensures var t := AppendType(n, r).buf;
            t.index == n.index + 10 && ZeroBehind(t) && Legible(t, words, n.index + 8)
  {
    hide Wording, Legible, Silent, ZeroBehind;
    assert Fixed(r) == Front(r) + [0, 0];
    ZerosAreSilent(words);
    SilentJoined(Front(r), [0, 0], words);
    BlockStaysLegible(n, Fixed(r), words, 0, n.index + 8);
  }

  predicate HoldsName(d: Data) {
    d.NameData? || d.SrvData?
  }

  lemma SrvStaysLegible(t: Buf, d: Data, words: set<bytes>)
    requires t.Valid() && d.SrvData? && DataFits(d) && t.index + DataSize(d) < MAX_PACKET_SIZE
    requires HEAD_LEN + 2 <= t.index && Wording(words) && ClearData(d, words)
    requires ZeroBehind(t) && Legible(t, words, t.index - 2)
    ensures SoundData(t, d)
    ensures var e := AppendData(t, d).buf;
            && ZeroBehind(e) && Legible(e, words, t.index - 2)
            && t.index < e.index && Mute(e.data[t.index], words)
  {
    hide Wording, Legible, Spoken, Still, ZeroBehind, Sound, Mute;
    var f := AppendSrvFixed(t, d).buf;
    SrvFixedWritten(t, d);
    BlockStaysLegible(t, SrvFront(d), words, t.index - 2, t.index - 2);
    NameStaysLegible(f, d.host, words, t.index - 2);
    NameExtends(f, d.host);
    PutBytesAt(t, SrvFront(d));
    assert f.data[t.index + 0] == SrvFront(d)[0];
  }

  lemma TargetStaysLegible(t: Buf, d: Data, words: set<bytes>)
    requires t.Valid() && d.NameData? && DataFits(d) && t.index + DataSize(d) < MAX_PACKET_SIZE
    requires HEAD_LEN + 2 <= t.index && Wording(words) && ClearData(d, words)
    requires ZeroBehind(t) && Legible(t, words, t.index - 2)
    ensures SoundData(t, d)
    ensures var e := AppendData(t, d).buf;
            && ZeroBehind(e) && Legible(e, words, t.index - 2)
            && t.index < e.index && Mute(e.data[t.index], words)
  {
    hide Wording, Legible, Spoken, ZeroBehind, Sound, Mute;
    NameStaysLegible(t, d.target, words, t.index - 2);
    FirstByte(t, d.target, words);
  }

  /** Data with a name has fewer than 256 bytes. */
  lemma NamesAreShort(d: Data, words: set<bytes>)
    requires HoldsName(d) && ClearData(d, words)
    ensures DataSize(d) < 256
  {
    LocalIsShort(if d.NameData? then d.target else d.host);
  }

  lemma {:induction false} LocalIsShort(strings: seq<bytes>)
    requires PlainLabels(strings) && strings != [] && strings[|strings| - 1] == LOCAL
    ensures Size(strings) <= 64 * |strings| - 57
    decreases |strings|
  {
    assert strings[0] in strings;
    if |strings| == 1 {
      assert strings[1..] == [];
    } else {
      LocalIsShort(strings[1..]);
    }
  }

  /** The length is patched in front of what is already legible. */
  lemma PatchStaysLegible(d: Buf, e: Buf, words: set<bytes>, loc: nat)
    requires d.Valid() && e.Valid() && d.index == e.index && Legible(d, words, loc)
    requires forall i: nat :: i < e.index && i != loc && i != loc + 1 ==> e.data[i] == d.data[i]
    ensures LegibleFrom(e, words, 0, loc + 2)
  {
    hide Anchor;
    forall c: nat, w | w in words && loc + 2 <= c && c + 1 < e.index && Starts(e.data, c, e.index, w)
      ensures Anchor(e, c, 0)
    {
      assert Starts(d.data, c, d.index, w);
      AnchorStays(d, loc, e, 0, c);
    }
  }

  /** From the length field on, the record is legible. */
  ghost predicate LegibleTail(e: Buf, at: nat, words: set<bytes>)
    requires e.Valid()
  {
    at < e.index && Mute(e.data[at], words) && LegibleFrom(e, words, 0, at)
  }

  lemma NamedTail(n: Buf, r: Record, words: set<bytes>)
    requires n.Valid() && r.Valid() && DataFits(r.data) && n.index + 10 + DataSize(r.data) < MAX_PACKET_SIZE
    requires HoldsName(r.data) && ClearData(r.data, words) && Wording(words)
    requires var t := AppendType(n, r).buf; var d := AppendData(t, r.data).buf;
             && t.index == n.index + 10 < d.index && Legible(d, words, n.index + 8) && Mute(d.data[t.index], words)
    ensures LegibleTail(AppendBody(n, r).buf, n.index + 8, words)
  {
    hide Legible, LegibleFrom, ClearData, AppendBody, AppendData, DataFits, U32, Still, Wording, Mute;
    var e := AppendBody(n, r).buf;
    var d := AppendData(AppendType(n, r).buf, r.data);
    BodyBytes(n, r);
    DataWritten(AppendType(n, r).buf, r);
    NamesAreShort(r.data, words);
    PatchStaysLegible(d.buf, e, words, n.index + 8);
    var bs := U16(d.written);
    var len := e.data[n.index + 8..n.index + 10];
    assert e.data[n.index + 8] == len[0] && e.data[n.index + 9] == len[1];
    ShortLength(d.written, words);
    BlockThenLegible(e, n.index + 8, bs, words, 0);
  }

  lemma ShortLength(len: nat, words: set<bytes>)
    requires len < 256 && Wording(words)
    ensures Still(U16(len), words) && Mute(U16(len)[0], words)
  {
    assert U16(len)[0] == 0;
  }

  /** Length and data stand where they belong. */
  lemma PayloadStands(n: Buf, r: Record)
    requires n.Valid() && r.Valid() && DataFits(r.data) && n.index + 10 + DataSize(r.data) < MAX_PACKET_SIZE
    requires !HoldsName(r.data)
    ensures var bs := U16(|Payload(r.data)|) + Payload(r.data); var e := AppendBody(n, r).buf;
            Stands(e.data, n.index + 8, bs) && n.index + 8 + |bs| == e.index
  {
    hide AppendBody, AppendData, U32, DataFits, DataSize;
    var e := AppendBody(n, r).buf;
    var t := AppendType(n, r).buf;
    var payload := Payload(r.data);
    BodyBytes(n, r);
    PayloadWritten(t, r);
    PutBytesAt(t, payload);
    var len := e.data[n.index + 8..n.index + 10];
    assert e.data[n.index + 8] == len[0] && e.data[n.index + 9] == len[1];
    forall i | 0 <= i < |payload|
      ensures e.data[t.index + i] == payload[i]
    {
    }
    TwoThenPayload(e.data, n.index + 8, U16(|payload|), payload);
  }

  lemma TwoThenPayload(data: bytes, at: nat, len: bytes, payload: bytes)
    requires |len| == 2 && at + 2 + |payload| <= |data| && data[at] == len[0] && data[at + 1] == len[1]
    requires forall i :: 0 <= i < |payload| ==> data[at + 2 + i] == payload[i]
    ensures Stands(data, at, len + payload)
  {
    var bs := len + payload;
    forall i | 0 <= i < |bs|
      ensures data[at + i] == bs[i]
    {
      assert i >= 2 ==> data[at + 2 + (i - 2)] == payload[i - 2];
    }
  }

  lemma PlainTail(n: Buf, r: Record, words: set<bytes>)
    requires n.Valid() && r.Valid() && DataFits(r.data) && n.index + 10 + DataSize(r.data) < MAX_PACKET_SIZE
    requires !HoldsName(r.data) && ClearData(r.data, words) && Wording(words)
    ensures LegibleTail(AppendBody(n, r).buf, n.index + 8, words)
  {
    hide LegibleFrom, Still, AppendBody, DataFits, DataSize, Payload;
    var e := AppendBody(n, r).buf;
    var bs := U16(|Payload(r.data)|) + Payload(r.data);
    PayloadStands(n, r);
    NothingBehind(e, words, 0);
    LengthIsMute(|Payload(r.data)|, words);
    BlockThenLegible(e, n.index + 8, bs, words, 0);
    assert e.data[n.index + 8 + 0] == bs[0];
  }

  lemma LengthIsMute(len: nat, words: set<bytes>)
    requires len < MAX_PACKET_SIZE && Wording(words)
    ensures Mute(U16(len)[0], words)
  {
    assert U16(len)[0] <= 5;
  }

  lemma PayloadWritten(t: Buf, r: Record)
    requires t.Valid() && r.Valid() && !HoldsName(r.data) && t.index + DataSize(r.data) < MAX_PACKET_SIZE
    ensures AppendData(t, r.data) == Step(Put(t, Payload(r.data)), |Payload(r.data)|)
  {
    match r.data
    case TxtData(items) =>
      TxtWritten(t, items);
      if items == [] {
        assert Put(t, []) == t by { assert Put(t, []).data == t.data; }
      }
    case Address4(_) =>
    case Address6(_) =>
  }

  /** The data of a record, and with it the place of its length. */
  lemma TailStaysLegible(n: Buf, r: Record, words: set<bytes>)
    requires n.Valid() && r.Valid() && DataFits(r.data) && n.index + 10 + DataSize(r.data) < MAX_PACKET_SIZE
    requires HEAD_LEN <= n.index && Wording(words) && Silent(Front(r), words) && ClearData(r.data, words)
    requires ZeroBehind(n) && Legible(n, words, 0)
    ensures SoundData(AppendType(n, r).buf, r.data) && LegibleTail(AppendBody(n, r).buf, n.index + 8, words)
  {
    hide Wording, Legible, Silent, ClearData, ZeroBehind, LegibleTail, Mute, SoundData, AppendData, AppendBody, AppendType;
    var t := AppendType(n, r).buf;
    FixedStaysLegible(n, r, words);
    if r.data.NameData? {
      TargetStaysLegible(t, r.data, words);
      NamedTail(n, r, words);
    } else if r.data.SrvData? {
      SrvStaysLegible(t, r.data, words);
      NamedTail(n, r, words);
    } else {
      SoundWithoutName(t, r.data);
      PlainTail(n, r, words);
    }
  }

  lemma SoundWithoutName(t: Buf, d: Data)
    requires t.Valid() && t.index >= 2 && !HoldsName(d)
    ensures SoundData(t, d)
  {}

  lemma DataKeepsBehind(t: Buf, r: Record)
    requires t.Valid() && r.Valid() && DataFits(r.data) && t.index + DataSize(r.data) < MAX_PACKET_SIZE
    requires ZeroBehind(t)
    ensures ZeroBehind(AppendData(t, r.data).buf)
  {
    if r.data.NameData? {
      NameKeepsBehind(t, r.data.target);
    } else if r.data.SrvData? {
      SrvFixedWritten(t, r.data);
      NameKeepsBehind(AppendSrvFixed(t, r.data).buf, r.data.host);
    } else {
      PayloadWritten(t, r);
    }
  }

  lemma BodyKeepsBehind(n: Buf, r: Record)
    requires n.Valid() && r.Valid() && DataFits(r.data) && n.index + 10 + DataSize(r.data) < MAX_PACKET_SIZE
    requires ZeroBehind(n)
    ensures ZeroBehind(AppendBody(n, r).buf)
  {
    hide AppendData, DataFits;
    var t := AppendType(n, r).buf;
    TypeMoves(n, r);
    DataWritten(t, r);
    DataKeepsBehind(t, r);
  }

  lemma BodyStaysLegible(n: Buf, r: Record, words: set<bytes>)
    requires n.Valid() && r.Valid() && DataFits(r.data) && n.index + 10 + DataSize(r.data) < MAX_PACKET_SIZE
    requires HEAD_LEN <= n.index && Wording(words) && Silent(Front(r), words) && ClearData(r.data, words)
    requires ZeroBehind(n) && Legible(n, words, 0)
    ensures SoundData(AppendType(n, r).buf, r.data)
    ensures var e := AppendBody(n, r).buf; ZeroBehind(e) && Legible(e, words, 0)
  {
    hide Wording, Legible, ClearData, ZeroBehind, LegibleFrom, SoundData, AppendData, AppendBody, AppendType, DataFits, Still, Mute;
    var e := AppendBody(n, r).buf;
    TailStaysLegible(n, r, words);
    BodyKeepsBehind(n, r);
    BodyBytes(n, r);
    FrontStands(n, r);
    BlockThenLegible(e, n.index, Front(r), words, 0);
    assert e.data[n.index + 0] == Front(r)[0];
    LegibleBefore(n, e, words, 0, 0);
  }

  lemma FrontStands(n: Buf, r: Record)
    requires n.Valid() && r.Valid() && DataFits(r.data) && n.index + 10 + DataSize(r.data) < MAX_PACKET_SIZE
    ensures Stands(AppendBody(n, r).buf.data, n.index, Front(r)) && n.index + 10 < AppendBody(n, r).buf.index
  {
    var e := AppendBody(n, r).buf;
    BodyBytes(n, r);
    forall i | 0 <= i < 8
      ensures e.data[n.index + i] == Front(r)[i]
    {
      assert e.data[n.index..n.index + 8][i] == e.data[n.index + i];
    }
  }

  lemma RecordStaysLegible(b: Buf, r: Record, words: set<bytes>)
    requires b.Valid() && FitsRecord(b, r) && ClearRecord(r, words) && Wording(words)
    requires ZeroBehind(b) && Legible(b, words, 0) && HEAD_LEN <= b.index
    ensures SoundRecord(b, r)
    ensures var e := AppendRecord(b, r).buf; ZeroBehind(e) && Legible(e, words, 0) && b.index < e.index
  {
    hide Wording, Legible, ClearData, ZeroBehind, Sound, SoundData, AppendBody, AppendType, DataFits, Silent, Spoken;
    NameStaysLegible(b, r.owner, words, 0);
    RecordStep(b, r);
    BodyStaysLegible(OwnerDone(b, r), r, words);
    TypeMoves(OwnerDone(b, r), r);
  }

  lemma TypeMoves(n: Buf, r: Record)
    requires n.Valid() && n.index + 10 < MAX_PACKET_SIZE
    ensures AppendType(n, r).buf.index == n.index + 10
  {}

  lemma {:induction false} SectionStaysLegible(b: Buf, rs: seq<Record>, words: set<bytes>)
    requires b.Valid() && ValidRecords(rs) && FitSection(b, rs) && Wording(words)
    requires forall r :: r in rs ==> ClearRecord(r, words)
    requires ZeroBehind(b) && Legible(b, words, 0) && HEAD_LEN <= b.index
    ensures SoundSection(b, rs)
    ensures var e := AppendSection(b, rs).buf; ZeroBehind(e) && Legible(e, words, 0)
    decreases |rs|
  {
    hide Wording, Legible, SoundRecord, ClearRecord, ZeroBehind, AppendRecord, FitsRecord;
    if rs != [] {
      assert rs[0] in rs;
      RecordStaysLegible(b, rs[0], words);
      SectionStaysLegible(AppendRecord(b, rs[0]).buf, rs[1..], words);
    }
  }

  // ---------------------------------------------------------------- the header

  /** Id and flags, and counts below 256 of which the last is not yet set. */
  predicate Head(b: Buf, m: Message)
    requires b.Valid()
  {
    && HEAD_LEN <= b.index && Stands(b.data, 0, U16(m.id) + U16(m.flags))
    && b.data[4] == b.data[6] == b.data[8] == b.data[10] == b.data[11] == 0
  }

  lemma HeadThenLegible(e: Buf, m: Message, words: set<bytes>)
    requires e.Valid() && Head(e, m) && Wording(words) && Still(U16(m.id) + U16(m.flags), words)
    requires LegibleFrom(e, words, 0, HEAD_LEN)
    ensures Legible(e, words, 0)
  {
    hide Anchor;
    forall c: nat, w | w in words && c + 1 < e.index && Starts(e.data, c, e.index, w)
      ensures Anchor(e, c, 0)
    {
      WordIsShort(w, words);
      if c < 3 {
        StartsInBlock(e, 0, U16(m.id) + U16(m.flags), c, w);
        assert false;
      } else if c == 3 || c == 5 || c == 7 || c == 9 {
        NoStart(e.data, c, e.index, w);
        assert false;
      }
    }
  }

  /** A count that is set later changes nothing for the names. */
  lemma RecountStaysLegible(b: Buf, at: nat, count: nat, m: Message, words: set<bytes>)
    requires b.Valid() && Head(b, m) && Wording(words) && Still(U16(m.id) + U16(m.flags), words)
    requires at == QUESTIONS_OFFSET || at == ANSWERS_OFFSET || at == SERVERS_OFFSET
    requires ZeroBehind(b) && Legible(b, words, 0)
    ensures var e := SetCount(b, at, count); Head(e, m) && ZeroBehind(e) && Legible(e, words, 0)
  {
    hide Anchor, Wording, Still;
    var e := SetCount(b, at, count);
    forall c: nat, w | w in words && HEAD_LEN <= c && c + 1 < e.index && Starts(e.data, c, e.index, w)
      ensures Anchor(e, c, 0)
    {
      assert Starts(b.data, c, b.index, w);
      AnchorStays(b, 0, e, 0, c);
    }
    HeadThenLegible(e, m, words);
  }

  lemma HeadStays(b: Buf, e: Buf, m: Message)
    requires b.Valid() && e.Valid() && Head(b, m) && b.index <= e.index
    requires forall i :: 0 <= i < b.index ==> e.data[i] == b.data[i]
    ensures Head(e, m)
  {}

  /** Nothing is left of the packet before. */
  predicate Blank(stale: bytes) {
    forall i :: HEAD_LEN <= i < |stale| ==> stale[i] == 0
  }

  lemma HeaderIsLegible(stale: bytes, m: Message, words: set<bytes>)
    requires |stale| == MAX_PACKET_SIZE && Blank(stale) && Wording(words) && Still(U16(m.id) + U16(m.flags), words)
    ensures var e := HeaderDone(stale, m); Head(e, m) && ZeroBehind(e) && Legible(e, words, 0)
  {
    hide Wording, Still;
    var e := HeaderDone(stale, m);
    NothingBehind(e, words, 0);
    HeadThenLegible(e, m, words);
  }

  // ---------------------------------------------------------------- the message

  /** The condition: what a program that fills the message can see of it. */
  ghost predicate ClearMessage(m: Message, words: set<bytes>) {
    && Wording(words) && Still(U16(m.id) + U16(m.flags), words)
    && (forall q :: q in m.questions ==> ClearQuestion(q, words))
    && forall r :: r in m.answers || r in m.servers || r in m.additional ==> ClearRecord(r, words)
  }

  lemma QuestionsDoneLegible(stale: bytes, m: Message, words: set<bytes>)
    requires |stale| == MAX_PACKET_SIZE && Blank(stale) && ClearMessage(m, words)
    requires FitQuestions(HeaderDone(stale, m), m.questions)
    ensures SoundQuestions(HeaderDone(stale, m), m.questions)
    ensures var e := QuestionsDone(stale, m); Head(e, m) && ZeroBehind(e) && Legible(e, words, 0)
  {
    hide Wording, Still, Head, Legible, ZeroBehind, ClearQuestion, ClearRecord;
    var b := HeaderDone(stale, m);
    var s := AppendQuestions(b, m.questions);
    HeaderIsLegible(stale, m, words);
    HeadIsLong(b, m);
    QuestionsStayLegible(b, m.questions, words);
    QuestionsKeep(b, m.questions);
    HeadStays(b, s.buf, m);
    RecountStaysLegible(s.buf, QUESTIONS_OFFSET, s.count, m, words);
  }

  lemma HeadIsLong(b: Buf, m: Message)
    requires b.Valid() && Head(b, m)
    ensures HEAD_LEN <= b.index
  {}

  lemma SectionDoneLegible(b: Buf, rs: seq<Record>, at: nat, m: Message, words: set<bytes>)
    requires b.Valid() && ValidRecords(rs) && FitSection(b, rs)
    requires Wording(words) && Still(U16(m.id) + U16(m.flags), words) && forall r :: r in rs ==> ClearRecord(r, words)
    requires at == ANSWERS_OFFSET || at == SERVERS_OFFSET
    requires Head(b, m) && ZeroBehind(b) && Legible(b, words, 0)
    ensures SoundSection(b, rs)
    ensures var e := SectionDone(b, rs, at); Head(e, m) && ZeroBehind(e) && Legible(e, words, 0)
  {
    hide Wording, Still, Head, Legible, ZeroBehind, ClearRecord;
    var s := AppendSection(b, rs);
    HeadIsLong(b, m);
    SectionStaysLegible(b, rs, words);
    SectionKeeps(b, rs);
    HeadStays(b, s.buf, m);
    RecountStaysLegible(s.buf, at, s.count, m, words);
  }

  /** Every name of a clear message is sound where it is written. */
  lemma ClearMessageIsSound(stale: bytes, m: Message, words: set<bytes>)
    requires |stale| == MAX_PACKET_SIZE && m.Valid() && ValidSections(m) && FitMessage(stale, m)
    requires Blank(stale) && ClearMessage(m, words)
    ensures SoundMessage(stale, m)
  {
    hide Wording, Still, Head, Legible, ZeroBehind, ClearRecord, ClearQuestion, FitSection, FitQuestions;
    var b1 := QuestionsDone(stale, m);
    var b2 := SectionDone(b1, m.answers, ANSWERS_OFFSET);
    var b3 := SectionDone(b2, m.servers, SERVERS_OFFSET);
    QuestionsDoneLegible(stale, m, words);
    SectionDoneLegible(b1, m.answers, ANSWERS_OFFSET, m, words);
    SectionDoneLegible(b2, m.servers, SERVERS_OFFSET, m, words);
    HeadIsLong(b3, m);
    SectionStaysLegible(b3, m.additional, words);
  }

  /** And so the receiver reads back the message as it was: every question and record in order,
      with the names it was given up to case, every field, and not a byte left over. */
  lemma ClearMessageReadsBack(stale: bytes, m: Message, words: set<bytes>)
    returns (asked: seq<Asked>, found: seq<Found>)
    requires |stale| == MAX_PACKET_SIZE && m.Valid() && ValidSections(m) && FitMessage(stale, m)
    requires Blank(stale) && ClearMessage(m, words)
    ensures var e := Dispatched(stale, m); var p := e.data[..e.index]; var rs := m.answers + m.servers + m.additional;
            && ReadQuestions(p, HEAD_LEN, |m.questions|) == Some((asked, QuestionsDone(stale, m).index))
            && ReadRecords(p, QuestionsDone(stale, m).index) == (found, true)
            && AllAsked(asked, m.questions) && AllFound(p, found, rs)
            && (forall i :: 0 <= i < |m.questions| ==>
                  Standard(m.questions[i].name) && SameName(asked[i].name, Expected(m.questions[i].name)))
            && (forall i :: 0 <= i < |rs| ==> Standard(rs[i].owner) && SameName(found[i].name, Expected(rs[i].owner)))
  {
    ClearMessageIsSound(stale, m, words);
    asked, found := DispatchedReadsBack(stale, m);
    ClearNames(m, words);
  }

  lemma ClearNames(m: Message, words: set<bytes>)
    requires ClearMessage(m, words)
    ensures forall i :: 0 <= i < |m.questions| ==> Standard(m.questions[i].name)
    ensures var rs := m.answers + m.servers + m.additional; forall i :: 0 <= i < |rs| ==> Standard(rs[i].owner)
  {
    var rs := m.answers + m.servers + m.additional;
    forall i | 0 <= i < |m.questions|
      ensures Standard(m.questions[i].name)
    {
      assert ClearQuestion(m.questions[i], words);
    }
    forall i | 0 <= i < |rs|
      ensures Standard(rs[i].owner)
    {
      assert rs[i] in rs;
      assert ClearRecord(rs[i], words);
    }
  }

  // ---------------------------------------------------------------- sizes

  function QuestionsSize(qs: seq<Question>): nat {
    if qs == [] then 0 else Size(qs[0].name) + 4 + QuestionsSize(qs[1..])
  }

  function RecordsSize(rs: seq<Record>): nat {
    if rs == [] then 0 else Size(rs[0].owner) + 10 + DataSize(rs[0].data) + RecordsSize(rs[1..])
  }

  /** Names, kinds and counts within their fields, and room for all of it uncompressed. */
  predicate SmallMessage(m: Message) {
    && (forall q :: q in m.questions ==> PlainLabels(q.name) && Size(q.name) + 4 < 256 && q.kind < 0x1_0000)
    && (forall r :: r in m.answers + m.servers + m.additional ==> NameFits(r.owner) && DataFits(r.data))
    && |m.questions| < 256 && |m.answers| < 256 && |m.servers| < 256 && |m.additional| < 256
    && HEAD_LEN + QuestionsSize(m.questions) + RecordsSize(m.answers) + RecordsSize(m.servers)
       + RecordsSize(m.additional) < MAX_PACKET_SIZE
  }

  lemma {:induction false} QuestionsFit(b: Buf, qs: seq<Question>)
    requires b.Valid() && b.index + QuestionsSize(qs) < MAX_PACKET_SIZE
    requires forall q :: q in qs ==> PlainLabels(q.name) && Size(q.name) + 4 < 256 && q.kind < 0x1_0000
    ensures FitQuestions(b, qs) && AppendQuestions(b, qs).buf.index <= b.index + QuestionsSize(qs)
    decreases |qs|
  {
    if qs != [] {
      assert qs[0] in qs;
      QuestionStep(b, qs[0]);
      QuestionsFit(AppendQuestion(b, qs[0]).buf, qs[1..]);
    }
  }

  lemma RecordIsSmall(b: Buf, r: Record)
    requires FitsRecord(b, r)
    ensures AppendRecord(b, r).buf.index <= b.index + Size(r.owner) + 10 + DataSize(r.data)
  {
    hide AppendBody, AppendData, DataSize, DataFits;
    RecordStep(b, r);
    BodyBytes(OwnerDone(b, r), r);
    TypeMoves(OwnerDone(b, r), r);
    DataWritten(FixedDone(b, r), r);
  }

  lemma {:induction false} SectionFits(b: Buf, rs: seq<Record>)
    requires b.Valid() && ValidRecords(rs) && b.index + RecordsSize(rs) < MAX_PACKET_SIZE
    requires forall r :: r in rs ==> NameFits(r.owner) && DataFits(r.data)
    ensures FitSection(b, rs) && AppendSection(b, rs).buf.index <= b.index + RecordsSize(rs)
    decreases |rs|
  {
    hide AppendRecord, NameFits, DataFits, DataSize, Size;
    if rs != [] {
      assert rs[0] in rs;
      RecordIsSmall(b, rs[0]);
      SectionFits(AppendRecord(b, rs[0]).buf, rs[1..]);
    }
  }

  /** Every append succeeds in a message that has room for all of it uncompressed. */
  lemma SmallMessageFits(stale: bytes, m: Message)
    requires |stale| == MAX_PACKET_SIZE && m.Valid() && ValidSections(m) && SmallMessage(m)
    ensures FitMessage(stale, m)
  {
    hide FitQuestions, FitSection, NameFits, DataFits, AppendQuestions, AppendSection;
    var b1 := QuestionsDone(stale, m);
    var b2 := SectionDone(b1, m.answers, ANSWERS_OFFSET);
    var b3 := SectionDone(b2, m.servers, SERVERS_OFFSET);
    assert forall r :: r in m.answers || r in m.servers || r in m.additional ==> r in m.answers + m.servers + m.additional;
    QuestionsFit(HeaderDone(stale, m), m.questions);
    SectionFits(b1, m.answers);
    SectionFits(b2, m.servers);
    SectionFits(b3, m.additional);
  }

  // ---------------------------------------------------------------- queries in plain text

  /** Letters and the underscore: no byte is the length of a label or begins a pointer. */
  predicate PlainText(w: bytes) {
    PlainLabel(w) && !SameText(w, SUB) && forall i :: 0 <= i < |w| ==> 63 < w[i] < 0x80
  }

  lemma PlainTextIsWording(words: set<bytes>)
    requires forall w :: w in words ==> PlainText(w)
    ensures Wording(words)
  {
    forall v, w | v in words && w in words
      ensures !Hides(v, w)
    {
      NothingHidden(v, w);
    }
  }

  /** No kind of question looks like the beginning of such a word. */
  lemma PlainQuestionIsClear(q: Question, words: set<bytes>)
    requires Spoken(q.name, words) && q.kind < 256 && forall w :: w in words ==> PlainText(w)
    ensures ClearQuestion(q, words)
  {
    var bs := U16(q.kind) + U16(QuestionClass(q));
    assert bs[0] == 0 && (bs[2] == 0 || bs[2] == 0x80);
    forall c: nat, w | w in words && c + 1 < |bs|
      ensures !Starts(bs, c, |bs|, w)
    {
      assert PlainText(w) && w[0] > 63;
      if c == 1 {
        NoStart(bs, c, |bs|, w);
      }
    }
  }

  predicate PlainQuery(m: Message, words: set<bytes>) {
    && m.id == 0 && m.flags == 0 && m.answers == m.servers == m.additional == []
    && (forall w :: w in words ==> PlainText(w))
    && forall q :: q in m.questions ==> Spoken(q.name, words) && q.kind < 256 && Size(q.name) + 4 < 256
  }

  /** A multicast query for names of letters and underscores reads back if it fits. */
  lemma PlainQueryReadsBack(stale: bytes, m: Message, words: set<bytes>) returns (asked: seq<Asked>)
    requires |stale| == MAX_PACKET_SIZE && Blank(stale) && PlainQuery(m, words)
    requires |m.questions| < 256 && HEAD_LEN + QuestionsSize(m.questions) < MAX_PACKET_SIZE
    ensures m.Valid()
    ensures var e := Dispatched(stale, m); var p := e.data[..e.index];
            && ReadQuestions(p, HEAD_LEN, |m.questions|) == Some((asked, |p|)) && AllAsked(asked, m.questions)
            && forall i :: 0 <= i < |m.questions| ==>
                 Standard(m.questions[i].name) && SameName(asked[i].name, Expected(m.questions[i].name))
  {
    PlainTextIsWording(words);
    assert U16(0) + U16(0) == [0, 0, 0, 0];
    forall q | q in m.questions
      ensures ClearQuestion(q, words) && PlainLabels(q.name)
    {
      PlainQuestionIsClear(q, words);
      SpokenWords(q.name, words);
    }
    SmallMessageFits(stale, m);
    var found;
    asked, found := ClearMessageReadsBack(stale, m, words);
  }
}
