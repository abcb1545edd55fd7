/** Record framing: the receiver's walk over a packet lands on the boundaries at which the
    sender wrote its records, and reads back every field, although each length was written as
    zero first and patched when the data was complete. */
module Framing {
  import opened Bytes
  import opened FqdnReader
  import opened FqdnWriter
  import opened Compression
  import opened CompressionTheorem
  import opened RecordWriter
  import opened RecordReader

  // ---------------------------------------------------------------- names

  /** If the offset a name points at lies before it, it decodes within the packet's records and
      questions; the two bytes at loc, a length still to be patched, are not looked at. */
  ghost predicate Anchored(b: Buf, strings: seq<bytes>, loc: nat)
    requires b.Valid()
  {
    match Pointed(b, strings)
    case None => true
    case Some(c) => c < b.index ==> Sits(AtPointer(b, strings), c, loc)
  }

  /** The decode at c looks at nothing but settled bytes. */
  ghost predicate Sits(s: Buf, c: nat, loc: nat) {
    forall i: nat :: Touches(s.data, c, c, i) ==> Settled(i, s.index, loc)
  }

  /** The first of the two tests the search leaves out: a pointer leads before its own name. */
  predicate Backward(b: Buf, strings: seq<bytes>)
    requires b.Valid()
  {
    var c := Pointed(b, strings); c.Some? ==> c.value < b.index
  }

  predicate Settled(i: nat, end: nat, loc: nat) {
    HEAD_LEN <= i < end && i != loc && i != loc + 1
  }

  /** p holds the final bytes of data between the header and end, but for the length at loc. */
  ghost predicate Holds(p: bytes, data: bytes, end: nat, loc: nat) {
    end <= |p| && end <= |data| && forall i: nat :: Settled(i, end, loc) ==> p[i] == data[i]
  }

  lemma SitsIsWithin(s: Buf, c: nat, loc: nat)
    requires Sits(s, c, loc)
    ensures WithinWritten(s, c)
  {
    forall i: nat | Touches(s.data, c, c, i)
      ensures i < s.index
    {
      assert Settled(i, s.index, loc);
    }
  }

  lemma CopiedFromHeld(p: bytes, r: Buf, from: nat, loc: nat)
    requires r.Valid() && Holds(p, r.data, r.index, loc) && HEAD_LEN <= from && loc + 1 < from
    ensures Copied(p, r, from)
  {
    forall i | from <= i < r.index
      ensures p[i] == r.data[i]
    {
      assert Settled(i, r.index, loc);
    }
  }

  /** What a name points at reads in the finished packet as it did in the search. */
  lemma PointedHolds(b: Buf, strings: seq<bytes>, loc: nat, p: bytes)
    requires Fits(b, strings) && PlainLabels(strings)
    requires var c := Pointed(b, strings); c.Some? && Sits(AtPointer(b, strings), c.value, loc)
    requires var r := AppendName(b, strings).buf; Holds(p, r.data, r.index, loc)
    ensures var c := Pointed(b, strings).value; var s := AtPointer(b, strings);
            && c < |s.data| && Matches(s.data, c, strings[Spelled(b, strings)..])
            && WalkName(s.data, c, c).Good? && WalkName(p, c, c) == WalkName(s.data, c, c)
  {
    var s := AtPointer(b, strings);
    var c := Pointed(b, strings).value;
    var r := AppendName(b, strings).buf;
    SitsIsWithin(s, c, loc);
    PointedIsStable(b, strings);
    PointerKeepsPrefix(b, strings);
    forall i: nat | Touches(s.data, c, c, i)
      ensures SameAt(s.data, p, i)
    {
      assert Settled(i, s.index, loc);
      assert Settled(i, r.index, loc);
    }
    DecodeIsStable(s.data, p, c, c);
  }

  /** A name that was anchored when it was written is readable in the finished packet, and the
      reader ends where the writer ended. */
  lemma NameReads(b: Buf, strings: seq<bytes>, loc: nat, p: bytes)
    requires Fits(b, strings) && PlainLabels(strings) && HEAD_LEN <= b.index
    requires loc + 1 < b.index && Anchored(b, strings, loc) && Backward(b, strings)
    requires var r := AppendName(b, strings).buf; Holds(p, r.data, r.index, loc)
    ensures var w := WalkName(p, b.index, b.index); w.Good? && w.next == AppendName(b, strings).buf.index
  {
    CopiedFromHeld(p, AppendName(b, strings).buf, b.index, loc);
    WalkOfOutput(b, strings, b.index, p);
    if Pointed(b, strings).Some? {
      PointedHolds(b, strings, loc, p);
    }
  }

  /** In the finished packet, behind everything that was written and patched later, the receiver
      parses the very name that was given to append_fqdn, if and only if the offset that was
      pointed at passes the tests the search leaves out. */
  lemma NameReadsBackInPacket(b: Buf, strings: seq<bytes>, loc: nat, p: bytes)
    requires Fits(b, strings) && Standard(strings) && HEAD_LEN <= b.index
    requires loc + 1 < b.index && Anchored(b, strings, loc)
    requires var r := AppendName(b, strings).buf; Holds(p, r.data, r.index, loc)
    ensures ReadsBack(p, b.index, AppendName(b, strings).buf.index, strings) <==> Checked(b, strings)
  {
    CopiedFromHeld(p, AppendName(b, strings).buf, b.index, loc);
    WalkOfOutput(b, strings, b.index, p);
    match Pointed(b, strings)
    case None =>
      SpelledOutReadsBack(b, strings);
      WalkOfOutput(b, strings, b.index, AppendName(b, strings).buf.data);
    case Some(c) =>
      if c < b.index {
        PointedHolds(b, strings, loc, p);
        PointedName(strings, Spelled(b, strings), AtPointer(b, strings).data, c);
      }
  }

  /** A name that survives: readable, and if it is one of the responder's names, the same. */
  ghost predicate Sound(b: Buf, strings: seq<bytes>, loc: nat)
    requires b.Valid()
  {
    Anchored(b, strings, loc) && Backward(b, strings) && (Standard(strings) ==> Checked(b, strings))
  }

  predicate EndsAt(p: bytes, at: nat, next: nat) {
    var w := WalkName(p, at, at);
    w.Good? && w.next == next
  }

  /** The receiver reads a name from p[at..next), and the one given if that is a standard one. */
  predicate NameAt(p: bytes, at: nat, next: nat, strings: seq<bytes>) {
    EndsAt(p, at, next) && (Standard(strings) ==> ReadsBack(p, at, next, strings))
  }

  lemma SoundNameReads(b: Buf, strings: seq<bytes>, loc: nat, p: bytes)
    requires Fits(b, strings) && PlainLabels(strings) && HEAD_LEN <= b.index
    requires loc + 1 < b.index && Sound(b, strings, loc)
    requires var r := AppendName(b, strings).buf; Holds(p, r.data, r.index, loc)
    ensures NameAt(p, b.index, AppendName(b, strings).buf.index, strings)
  {
    hide Standard, ReadsBack, Checked;
    NameReads(b, strings, loc, p);
    if Standard(strings) {
      NameReadsBackInPacket(b, strings, loc, p);
    }
  }

  /** A later buffer that kept what was written still holds it. */
  lemma HoldsEarlier(p: bytes, e: Buf, s: Buf)
    requires e.Valid() && s.Valid() && s.index <= e.index && Holds(p, e.data, e.index, 0)
    requires forall i :: 0 <= i < s.index ==> e.data[i] == s.data[i]
    ensures Holds(p, s.data, s.index, 0)
  {
    forall i: nat | Settled(i, s.index, 0)
      ensures p[i] == s.data[i]
    {
      assert Settled(i, e.index, 0);
    }
  }

  // ---------------------------------------------------------------- records

  lemma {:induction false} NameWritten(b: Buf, strings: seq<bytes>)
    requires Fits(b, strings) && PlainLabels(strings)
    ensures var s := AppendName(b, strings);
            1 <= s.written <= Size(strings) && s.buf.index == b.index + s.written
    decreases |strings|
  {
    if strings != [] {
      if FirstMatch(b.data, b.index, strings, 0) == None {
        NameStep(b, strings);
        NameWritten(AppendString(b, strings[0]).buf, strings[1..]);
      } else {
        NameAtPointer(b, strings);
      }
    }
  }

  predicate NameFits(strings: seq<bytes>) {
    PlainLabels(strings) && Size(strings) < 256
  }

  function DataSize(d: Data): nat {
    match d
    case NameData(target) => Size(target)
    case SrvData(_, _, _, host) => 6 + Size(host)
    case TxtData(items) => 1 + |TxtEntries(items)|
    case Address4(_) => 4
    case Address6(_) => 16
  }

  predicate DataFits(d: Data) {
    && (d.NameData? ==> NameFits(d.target))
    && (d.SrvData? ==> NameFits(d.host))
  }

  predicate FitsRecord(b: Buf, r: Record) {
    && b.Valid() && r.Valid() && NameFits(r.owner) && DataFits(r.data)
    && b.index + Size(r.owner) + 10 + DataSize(r.data) < MAX_PACKET_SIZE
  }

  lemma {:induction false} TxtWritten(b: Buf, items: seq<TxtItem>)
    requires b.Valid() && b.index + |TxtEntries(items)| < MAX_PACKET_SIZE
    ensures AppendTxtItems(b, items) == (Put(b, TxtEntries(items)), Some(|TxtEntries(items)|))
    decreases |items|
  {
    if items == [] {
      assert Put(b, []).data == b.data;
    } else {
      var first := AppendTxtItem(b, items[0]);
      TxtWritten(first.buf, items[1..]);
      PutTwice(b, TxtEntry(items[0]), TxtEntries(items[1..]));
    }
  }

  lemma SrvFixedWritten(b: Buf, d: Data)
    requires b.Valid() && d.SrvData? && b.index + 6 < MAX_PACKET_SIZE
    ensures AppendSrvFixed(b, d) == Step(Put(b, U16(d.priority) + U16(d.weight) + U16(d.port)), 6)
  {
    PutTwice(b, U16(d.priority), U16(d.weight));
    PutTwice(b, U16(d.priority) + U16(d.weight), U16(d.port));
  }

  predicate Extends(b: Buf, s: Step) {
    && b.Valid() && s.buf.Valid() && s.buf.index == b.index + s.written
    && forall i :: 0 <= i < b.index ==> s.buf.data[i] == b.data[i]
  }

  lemma NameExtends(b: Buf, strings: seq<bytes>)
    requires Fits(b, strings) && PlainLabels(strings)
    ensures Extends(b, AppendName(b, strings)) && 1 <= AppendName(b, strings).written <= Size(strings)
  {
    NameWritten(b, strings);
    NameKeepsPrefix(b, strings);
  }

  lemma SrvWritten(b: Buf, d: Data)
    requires b.Valid() && d.SrvData? && DataFits(d) && b.index + DataSize(d) < MAX_PACKET_SIZE
    ensures Extends(b, AppendData(b, d)) && 1 <= AppendData(b, d).written <= DataSize(d)
  {
    SrvFixedWritten(b, d);
    NameExtends(AppendSrvFixed(b, d).buf, d.host);
  }

  lemma TxtDataWritten(b: Buf, d: Data)
    requires b.Valid() && d.TxtData? && b.index + DataSize(d) < MAX_PACKET_SIZE
    ensures Extends(b, AppendData(b, d)) && 1 <= AppendData(b, d).written <= DataSize(d)
  {
    TxtWritten(b, d.items);
    PlainExtends(b, TxtEntries(d.items));
    PlainExtends(Put(b, TxtEntries(d.items)), [0]);
  }

  lemma OtherDataWritten(b: Buf, r: Record)
    requires b.Valid() && r.Valid() && DataFits(r.data) && b.index + DataSize(r.data) < MAX_PACKET_SIZE
    requires r.data.NameData? || r.data.Address4? || r.data.Address6?
    ensures Extends(b, AppendData(b, r.data)) && 1 <= AppendData(b, r.data).written <= DataSize(r.data)
  {
    match r.data
    case NameData(target) => NameExtends(b, target);
    case Address4(ip) => PlainExtends(b, ip);
    case Address6(ip6) => PlainExtends(b, ip6);
  }

  /** Data that fits is written, behind everything written before. */
  lemma DataWritten(b: Buf, r: Record)
    requires b.Valid() && r.Valid() && DataFits(r.data) && b.index + DataSize(r.data) < MAX_PACKET_SIZE
    ensures Extends(b, AppendData(b, r.data)) && 1 <= AppendData(b, r.data).written <= DataSize(r.data)
  {
    if r.data.SrvData? {
      SrvWritten(b, r.data);
    } else if r.data.TxtData? {
      TxtDataWritten(b, r.data);
    } else {
      OtherDataWritten(b, r);
    }
  }

  lemma PlainExtends(b: Buf, bs: bytes)
    requires b.Valid() && b.index + |bs| <= MAX_PACKET_SIZE
    ensures Extends(b, Step(Put(b, bs), |bs|))
  {
  }

  /** The buffers between the parts of a record. */
  function OwnerDone(b: Buf, r: Record): Buf
    requires b.Valid()
  {
    AppendName(b, r.owner).buf
  }

  function FixedDone(b: Buf, r: Record): Buf
    requires b.Valid()
  {
    AppendType(OwnerDone(b, r), r).buf
  }

  /** All names of the record are sound when they are written; the data may not lean on the
      length field in front of it, which still changes. */
  ghost predicate SoundRecord(b: Buf, r: Record)
    requires b.Valid()
  {
    var t := FixedDone(b, r);
    Sound(b, r.owner, 0) && t.index >= 2 && SoundData(t, r.data)
  }

  /** The fixed part as it stands before the length is patched. */
  lemma FixedBytes(n: Buf, r: Record)
    requires n.Valid() && n.index + 10 < MAX_PACKET_SIZE
    ensures var t := AppendType(n, r);
            && Extends(n, t) && t.written == 10
            && t.buf.data[n.index..n.index + 8] == U16(r.kind) + U16(r.Class()) + U32(r.ttl)
  {
    var t := AppendType(n, r).buf;
    forall i | 0 <= i < 8
      ensures t.data[n.index + i] == (U16(r.kind) + U16(r.Class()) + U32(r.ttl))[i]
    {
      assert t.data[n.index + i] == Fixed(r)[i];
    }
  }

  /** The patch changes nothing but the length. */
  lemma BodyBytes(n: Buf, r: Record)
    requires n.Valid() && r.Valid() && DataFits(r.data) && n.index + 10 + DataSize(r.data) < MAX_PACKET_SIZE
    ensures var t := AppendType(n, r).buf; var d := AppendData(t, r.data); var s := AppendBody(n, r);
            && t.Valid() && t.index == n.index + 10 && Extends(n, s) && d.written > 0
            && s.buf.index == t.index + d.written == d.buf.index && s.buf.Valid()
            && s.buf.data[n.index..n.index + 8] == U16(r.kind) + U16(r.Class()) + U32(r.ttl)
            && s.buf.data[n.index + 8..n.index + 10] == U16(d.written)
            && forall i: nat :: i < s.buf.index && i != n.index + 8 && i != n.index + 9 ==> s.buf.data[i] == d.buf.data[i]
  {
    var t := AppendType(n, r).buf;
    FixedBytes(n, r);
    DataWritten(t, r);
    var d := AppendData(t, r.data);
    var s := SetU16(d.buf, t.index - 2, d.written);
    assert AppendBody(n, r) == Step(s, 10 + d.written);
    assert s.data[n.index..n.index + 8] == t.data[n.index..n.index + 8];
  }

  lemma FixedReads(p: bytes, at: nat, r: Record, len: nat)
    requires r.Valid() && at + 10 <= |p| && len < 0x1_0000
    requires p[at..at + 8] == U16(r.kind) + U16(r.Class()) + U32(r.ttl)
    requires p[at + 8..at + 10] == U16(len)
    ensures ReadU16(p, at) == r.kind && ReadU16(p, at + 2) == r.Class()
    ensures ReadU32(p, at + 4) == r.ttl && ReadU16(p, at + 8) == len
  {
    U16RoundTrip(r.kind);
    U16RoundTrip(r.Class());
    U32RoundTrip(r.ttl);
    U16RoundTrip(len);
    var bs := U16(r.kind) + U16(r.Class()) + U32(r.ttl);
    forall i | 0 <= i < 8
      ensures p[at + i] == bs[i]
    {
      assert p[at..at + 8][i] == bs[i];
    }
    assert bs[0..2] == U16(r.kind) && bs[2..4] == U16(r.Class()) && bs[4..8] == U32(r.ttl);
    assert p[at + 8] == p[at + 8..at + 10][0] && p[at + 9] == p[at + 8..at + 10][1];
  }

  /** The data of a record as the receiver gets at it. */
  ghost predicate DataReads(p: bytes, at: nat, next: nat, d: Data) {
    && at <= next <= |p|
    && match d
       case NameData(target) => NameAt(p, at, next, target)
       case SrvData(priority, weight, port, host) =>
         && at + 6 <= next
         && ReadU16(p, at) == priority && ReadU16(p, at + 2) == weight && ReadU16(p, at + 4) == port
         && NameAt(p, at + 6, next, host)
       case TxtData(items) => p[at..next] == if items == [] then [0] else TxtEntries(items)
       case Address4(ip) => p[at..next] == ip
       case Address6(ip6) => p[at..next] == ip6
  }

  ghost predicate SoundData(t: Buf, d: Data)
    requires t.Valid() && t.index >= 2
  {
    match d
    case NameData(target) => Sound(t, target, t.index - 2)
    case SrvData(_, _, _, host) => Sound(AppendSrvFixed(t, d).buf, host, t.index - 2)
    case _ => true
  }

  lemma SrvFixedReads(t: Buf, d: Data, f: Buf, data: bytes, end: nat, p: bytes)
    requires t.Valid() && d.SrvData? && t.index + 6 < MAX_PACKET_SIZE && HEAD_LEN + 2 <= t.index
    requires d.priority < 0x1_0000 && d.weight < 0x1_0000 && d.port < 0x1_0000
    requires f == Put(t, U16(d.priority) + U16(d.weight) + U16(d.port))
    requires |data| == MAX_PACKET_SIZE && f.index <= end && forall i :: 0 <= i < f.index ==> data[i] == f.data[i]
    requires Holds(p, data, end, t.index - 2)
    ensures ReadU16(p, t.index) == d.priority && ReadU16(p, t.index + 2) == d.weight && ReadU16(p, t.index + 4) == d.port
  {
    var bs := U16(d.priority) + U16(d.weight) + U16(d.port);
    PutBytesAt(t, bs);
    forall i | 0 <= i < 6
      ensures p[t.index + i] == bs[i]
    {
      assert data[t.index + i] == f.data[t.index + i] == bs[i];
      assert Settled(t.index + i, end, t.index - 2);
    }
    assert p[t.index..t.index + 6] == bs;
    ThreeShorts(p, t.index, d.priority, d.weight, d.port);
  }

  lemma SrvReads(t: Buf, d: Data, p: bytes)
    requires t.Valid() && d.SrvData? && DataFits(d) && t.index + DataSize(d) < MAX_PACKET_SIZE
    requires d.priority < 0x1_0000 && d.weight < 0x1_0000 && d.port < 0x1_0000
    requires HEAD_LEN + 2 <= t.index && SoundData(t, d)
    requires var s := AppendData(t, d).buf; Holds(p, s.data, s.index, t.index - 2)
    ensures DataReads(p, t.index, AppendData(t, d).buf.index, d)
  {
    var f := AppendSrvFixed(t, d).buf;
    var s := AppendData(t, d).buf;
    SrvFixedWritten(t, d);
    NameExtends(f, d.host);
    assert s == AppendName(f, d.host).buf;
    SrvFixedReads(t, d, f, s.data, s.index, p);
    SoundNameReads(f, d.host, t.index - 2, p);
  }

  lemma ThreeShorts(p: bytes, at: nat, x: nat, y: nat, z: nat)
    requires at + 6 <= |p| && p[at..at + 6] == U16(x) + U16(y) + U16(z)
    requires x < 0x1_0000 && y < 0x1_0000 && z < 0x1_0000
    ensures ReadU16(p, at) == x && ReadU16(p, at + 2) == y && ReadU16(p, at + 4) == z
  {
    U16RoundTrip(x);
    U16RoundTrip(y);
    U16RoundTrip(z);
    var bs := U16(x) + U16(y) + U16(z);
    forall i | 0 <= i < 6
      ensures p[at + i] == bs[i]
    {
      assert p[at..at + 6][i] == bs[i];
    }
    assert bs[0..2] == U16(x) && bs[2..4] == U16(y) && bs[4..6] == U16(z);
  }

  lemma PlainReads(t: Buf, p: bytes, bs: bytes)
    requires t.Valid() && t.index + |bs| < MAX_PACKET_SIZE && HEAD_LEN + 2 <= t.index
    requires Holds(p, Put(t, bs).data, t.index + |bs|, t.index - 2)
    ensures p[t.index..t.index + |bs|] == bs
  {
    forall i | 0 <= i < |bs|
      ensures p[t.index + i] == bs[i]
    {
      assert Put(t, bs).data[t.index + i] == bs[i];
      assert Settled(t.index + i, t.index + |bs|, t.index - 2);
    }
  }

  lemma DataReadsBack(t: Buf, r: Record, p: bytes)
    requires t.Valid() && r.Valid() && DataFits(r.data) && t.index + DataSize(r.data) < MAX_PACKET_SIZE
    requires HEAD_LEN + 2 <= t.index && SoundData(t, r.data)
    requires var s := AppendData(t, r.data).buf; Holds(p, s.data, s.index, t.index - 2)
    ensures DataReads(p, t.index, AppendData(t, r.data).buf.index, r.data)
  {
    match r.data
    case NameData(target) =>
      NameExtends(t, target);
      SoundNameReads(t, target, t.index - 2, p);
    case SrvData(_, _, _, _) => SrvReads(t, r.data, p);
    case TxtData(items) =>
      TxtWritten(t, items);
      if items == [] {
        assert Put(t, []) == t by { assert Put(t, []).data == t.data; }
        PlainReads(t, p, [0]);
      } else {
        PlainReads(t, p, TxtEntries(items));
      }
    case Address4(ip) => PlainReads(t, p, ip);
    case Address6(ip6) => PlainReads(t, p, ip6);
  }

  /** What the receiver finds for r: owner, kind, class without the cache-flush bit, lifetime,
      and the data in its place. */
  ghost predicate RecordFound(p: bytes, f: Found, r: Record) {
    && (Standard(r.owner) ==> SameName(f.name, Expected(r.owner)))
    && f.kind == r.kind && f.dnsClass == CLASS_IN && f.ttl == r.ttl
    && DataReads(p, f.at, f.next, r.data)
  }

  /** The fixed part of r and its data stand at offset content, and end at next. */
  ghost predicate RecordBytes(p: bytes, content: nat, next: nat, r: Record) {
    && content + 10 < next <= |p|
    && ReadU16(p, content) == r.kind && ReadU16(p, content + 2) == r.Class()
    && ReadU32(p, content + 4) == r.ttl && ReadU16(p, content + 8) == next - content - 10
    && DataReads(p, content + 10, next, r.data)
  }

  lemma BodyReads(n: Buf, r: Record, p: bytes)
    requires n.Valid() && r.Valid() && DataFits(r.data) && n.index + 10 + DataSize(r.data) < MAX_PACKET_SIZE
    requires HEAD_LEN <= n.index && SoundData(AppendType(n, r).buf, r.data)
    requires var s := AppendBody(n, r).buf; Holds(p, s.data, s.index, 0)
    ensures RecordBytes(p, n.index, AppendBody(n, r).buf.index, r)
  {
    hide AppendBody, AppendType, AppendData, DataReads, SoundData, ReadU16, ReadU32, U16, U32, Holds, DataFits, DataSize;
    var t := AppendType(n, r).buf;
    var s := AppendBody(n, r).buf;
    BodyBytes(n, r);
    HoldsIsWithin(p, s);
    SameSlice(p, s.data, n.index, n.index + 8, s.index);
    SameSlice(p, s.data, n.index + 8, n.index + 10, s.index);
    FixedReads(p, n.index, r, s.index - n.index - 10);
    HoldsUnpatched(p, s, AppendData(t, r.data).buf, n.index + 8);
    DataReadsBack(t, r, p);
  }

  lemma HoldsIsWithin(p: bytes, s: Buf)
    requires Holds(p, s.data, s.index, 0)
    ensures s.index <= |p|
  {}

  /** Up to the patched length, the finished record is what the data writer left. */
  lemma HoldsUnpatched(p: bytes, s: Buf, d: Buf, loc: nat)
    requires s.Valid() && d.Valid() && s.index == d.index && Holds(p, s.data, s.index, 0)
    requires forall i: nat :: i < s.index && i != loc && i != loc + 1 ==> s.data[i] == d.data[i]
    ensures Holds(p, d.data, d.index, loc)
  {
    forall i: nat | Settled(i, d.index, loc)
      ensures p[i] == d.data[i]
    {
      assert Settled(i, s.index, 0);
    }
  }

  lemma SameSlice(p: bytes, q: bytes, lo: nat, hi: nat, end: nat)
    requires Holds(p, q, end, 0) && HEAD_LEN <= lo <= hi <= end
    ensures p[lo..hi] == q[lo..hi]
  {
    forall i | lo <= i < hi
      ensures p[i] == q[i]
    {
      assert Settled(i, end, 0);
    }
  }

  lemma RecordStep(b: Buf, r: Record)
    requires FitsRecord(b, r)
    ensures var n := OwnerDone(b, r); var s := AppendRecord(b, r);
            && Extends(b, AppendName(b, r.owner)) && b.index < n.index <= b.index + Size(r.owner)
            && Extends(n, AppendBody(n, r))
            && s.buf == AppendBody(n, r).buf && s.written > 0
  {
    NameExtends(b, r.owner);
    BodyBytes(OwnerDone(b, r), r);
    RecordIsBody(b, r);
  }

  lemma RecordIsBody(b: Buf, r: Record)
    requires b.Valid() && r.Valid() && Narrow(AppendName(b, r.owner).written) != 0
    ensures AppendRecord(b, r).buf == AppendBody(OwnerDone(b, r), r).buf
    ensures AppendBody(OwnerDone(b, r), r).written > 0 ==> AppendRecord(b, r).written > 0
  {
  }

  /** A readable owner, the fixed part and the data make a record. */
  lemma RecordAt(p: bytes, at: nat, content: nat, next: nat, r: Record)
    requires NameAt(p, at, content, r.owner) && RecordBytes(p, content, next, r)
    ensures FoundAt(p, at, next, r)
  {
    hide ParseName, NameAt, DataReads, SameName, Expected, Standard, ReadU16, ReadU32;
    NameIsRead(p, at, content, r.owner);
  }

  lemma NameIsRead(p: bytes, at: nat, next: nat, strings: seq<bytes>)
    requires NameAt(p, at, next, strings)
    ensures var n := ParseName(p, at);
            n.Read? && n.next == next && (Standard(strings) ==> SameName(n.name, Expected(strings)))
  {
    hide SameName, Expected, Standard, Fold, Arrange;
  }

  /** The receiver finds r at offset at and goes on at next. */
  ghost predicate FoundAt(p: bytes, at: nat, next: nat, r: Record) {
    var f := ReadRecord(p, at);
    f.Some? && f.value.next == next && RecordFound(p, f.value, r)
  }

  lemma OwnerReads(b: Buf, r: Record, p: bytes)
    requires FitsRecord(b, r) && HEAD_LEN <= b.index && Sound(b, r.owner, 0)
    requires var s := AppendRecord(b, r).buf; Holds(p, s.data, s.index, 0)
    ensures NameAt(p, b.index, OwnerDone(b, r).index, r.owner)
  {
    RecordStep(b, r);
    HoldsEarlier(p, AppendRecord(b, r).buf, OwnerDone(b, r));
    SoundNameReads(b, r.owner, 0, p);
  }

  /** The owner of a record that the receiver meets in the finished packet. */
  lemma OwnerReadsBack(b: Buf, r: Record, p: bytes)
    requires FitsRecord(b, r) && HEAD_LEN <= b.index && Anchored(b, r.owner, 0) && Standard(r.owner)
    requires var s := AppendRecord(b, r).buf; Holds(p, s.data, s.index, 0)
    ensures ReadsBack(p, b.index, OwnerDone(b, r).index, r.owner) <==> Checked(b, r.owner)
  {
    hide AppendBody, AppendName, Checked, ReadsBack;
    RecordStep(b, r);
    HoldsEarlier(p, AppendRecord(b, r).buf, OwnerDone(b, r));
    NameReadsBackInPacket(b, r.owner, 0, p);
  }

  lemma RecordReads(b: Buf, r: Record, p: bytes)
    requires FitsRecord(b, r) && HEAD_LEN <= b.index && SoundRecord(b, r)
    requires var s := AppendRecord(b, r).buf; Holds(p, s.data, s.index, 0)
    ensures FoundAt(p, b.index, AppendRecord(b, r).buf.index, r)
  {
    hide AppendBody, AppendName, AppendType, AppendData, RecordBytes, NameAt, FoundAt;
    RecordStep(b, r);
    OwnerReads(b, r, p);
    BodyReads(OwnerDone(b, r), r, p);
    RecordAt(p, b.index, OwnerDone(b, r).index, AppendRecord(b, r).buf.index, r);
  }

  /** The ten bytes between the owner of a record and its data: type, class IN with the flush bit
      on top, lifetime, and the number of bytes that follow. */
  predicate FixedPart(data: bytes, at: nat, kind: nat, flush: bool, ttl: nat, len: nat) {
    && at + 10 <= |data|
    && data[at] as int == kind / 256 && data[at + 1] as int == kind % 256
    && data[at + 2] == (if flush then 0x80 else 0) && data[at + 3] == 1
    && data[at + 4] as int == ttl / 0x100_0000 && data[at + 5] as int == ttl / 0x1_0000 % 256
    && data[at + 6] as int == ttl / 256 % 256 && data[at + 7] as int == ttl % 256
    && 256 * data[at + 8] as int + data[at + 9] as int == len
  }

  lemma RecordOnWire(b: Buf, r: Record)
    requires FitsRecord(b, r)
    ensures var at := OwnerDone(b, r).index; var e := AppendRecord(b, r).buf;
            && b.index < at && at + 10 < e.index
            && FixedPart(e.data, at, r.kind, r.flush, r.ttl, e.index - at - 10)
  {
    hide U16, U32, AppendName, AppendBody, AppendType, AppendData, FixedPart, AppendRecord, DataFits;
    var n := OwnerDone(b, r);
    RecordParts(b, r);
    RecordStep(b, r);
    BodyBytes(n, r);
    var e := AppendBody(n, r).buf;
    FixedInBytes(e.data, n.index, r, e.index - n.index - 10);
  }

  lemma FixedInBytes(data: bytes, at: nat, r: Record, len: nat)
    requires r.Valid() && at + 10 <= |data| && len < 0x1_0000
    requires data[at..at + 8] == U16(r.kind) + U16(r.Class()) + U32(r.ttl) && data[at + 8..at + 10] == U16(len)
    ensures FixedPart(data, at, r.kind, r.flush, r.ttl, len)
  {
    hide U16, U32;
    NetworkOrder(r.kind);
    NetworkOrder(r.Class());
    NetworkOrder32(r.ttl);
    NetworkOrder(len);
    var bs := U16(r.kind) + U16(r.Class()) + U32(r.ttl);
    forall i | 0 <= i < 8
      ensures data[at + i] == bs[i]
    {
      assert data[at..at + 8][i] == bs[i];
    }
    assert data[at + 8] == data[at + 8..at + 10][0] && data[at + 9] == data[at + 8..at + 10][1];
  }

  lemma RecordParts(b: Buf, r: Record)
    requires FitsRecord(b, r)
    ensures var n := OwnerDone(b, r);
            n.Valid() && r.Valid() && DataFits(r.data) && n.index + 10 + DataSize(r.data) < MAX_PACKET_SIZE
  {
    NameExtends(b, r.owner);
  }
}
