/** The walk of mdns_parse_packet over questions and records. */
module RecordReader {
  import opened Bytes
  import opened FqdnReader

  /** One resource record as the receiver finds it: its fields and the place of its data. */
  datatype Found = Found(name: Parsed, kind: nat, dnsClass: nat, ttl: nat, at: nat, len: nat, next: nat)

  function ReadRecord(p: bytes, at: nat): (r: Option<Found>)
    ensures r.Some? ==> at < r.value.next <= |p| && r.value.at + r.value.len == r.value.next
  {
    match ParseName(p, at)
    case Unreadable => None
    case Read(content, name) =>
      if content + 9 >= |p| then None
      else
        var len := ReadU16(p, content + 8);
        var next := content + 10 + len;
        if next > |p| || len == 0 then None
        else Some(Found(name, ReadU16(p, content), ReadU16(p, content + 2) % 0x8000,
                        ReadU32(p, content + 4), content + 10, len, next))
  }

  /** All records from at to the end of the packet, and whether the walk got there. */
  function ReadRecords(p: bytes, at: nat): (r: (seq<Found>, bool))
    decreases |p| - at
  {
    if at >= |p| then ([], true)
    else
      match ReadRecord(p, at)
      case None => ([], false)
      case Some(first) =>
        var rest := ReadRecords(p, first.next);
        ([first] + rest.0, rest.1)
  }

  datatype Asked = Asked(name: Parsed, kind: nat, dnsClass: nat, unicast: bool, next: nat)

  function ReadQuestion(p: bytes, at: nat): (r: Option<Asked>) {
    match ParseName(p, at)
    case Unreadable => None
    case Read(content, name) =>
      if content + 3 >= |p| then None
      else
        var dnsClass := ReadU16(p, content + 2);
        Some(Asked(name, ReadU16(p, content), dnsClass % 0x8000, dnsClass >= 0x8000, content + 4))
  }

  /** The first count questions, and where the records begin. */
  function ReadQuestions(p: bytes, at: nat, count: nat): (r: Option<(seq<Asked>, nat)>)
    decreases count
  {
    if count == 0 then Some(([], at))
    else
      match ReadQuestion(p, at)
      case None => None
      case Some(q) =>
        match ReadQuestions(p, q.next, count - 1)
        case None => None
        case Some((more, next)) => Some(([q] + more, next))
  }

  method WalkRecord(p: bytes, at: nat, name: NameBuffer) returns (r: Option<Found>)
    requires name.Valid()
    modifies name
    ensures name.Valid() && r == ReadRecord(p, at)
  {
    var content := ParseFqdn(p, at, name);
    if content == None || content.value + 9 >= |p| {
      return None;
    }
    var c := content.value;
    var kind, dnsClass := ReadU16(p, c), ReadU16(p, c + 2);
    var ttl, dataLen := ReadU32(p, c + 4), ReadU16(p, c + 8);
    var dataPtr := c + 10;
    dnsClass := dnsClass % 0x8000;
    var next := dataPtr + dataLen;
    if next > |p| || dataLen == 0 {
      return None;
    }
    var n := Parsed(name.host, name.service, name.proto, name.domain, name.parts, name.sub, name.invalid);
    r := Some(Found(n, kind, dnsClass, ttl, dataPtr, dataLen, next));
  }

  method WalkRecords(p: bytes, at: nat) returns (found: seq<Found>, complete: bool)
    ensures (found, complete) == ReadRecords(p, at)
  {
    var name := new NameBuffer();
    var content := at;
    found := [];
    ghost var result := ReadRecords(p, at);
    assert [] + result.0 == result.0;
    while content < |p|
      invariant name.Valid()
      invariant result == (found + ReadRecords(p, content).0, ReadRecords(p, content).1)
      decreases |p| - content
    {
      var r := WalkRecord(p, content, name);
      if r == None {
        assert found + [] == found;
        return found, false;
      }
      assert found + ([r.value] + ReadRecords(p, r.value.next).0) == found + [r.value] + ReadRecords(p, r.value.next).0;
      found := found + [r.value];
      content := r.value.next;
    }
    assert found + [] == found;
    complete := true;
  }

  /** Exactly when there is a record at an offset, and what its fields are, in bytes: its data is
      not empty and ends within the packet. */
  lemma RecordTakenExactly(p: bytes, at: nat)
    ensures ReadRecord(p, at).Some? <==>
            var n := ParseName(p, at);
            n.Read? && n.next + 10 <= |p| && var len := 256 * p[n.next + 8] as int + p[n.next + 9] as int; 0 < len <= |p| - n.next - 10
    ensures ReadRecord(p, at).Some? ==>
            var f, c := ReadRecord(p, at).value, ParseName(p, at).next;
            && f.name == ParseName(p, at).name && f.kind == 256 * p[c] as int + p[c + 1] as int
            && f.dnsClass == 256 * (p[c + 2] as int % 128) + p[c + 3] as int
            && f.ttl == 0x100_0000 * p[c + 4] as int + 0x1_0000 * p[c + 5] as int + 256 * p[c + 6] as int + p[c + 7] as int
            && f.at == c + 10 && f.len == 256 * p[c + 8] as int + p[c + 9] as int && f.next == f.at + f.len
  {
    hide ParseName;
  }

  lemma QuestionTakenExactly(p: bytes, at: nat)
    ensures ReadQuestion(p, at).Some? <==> ParseName(p, at).Read? && ParseName(p, at).next + 4 <= |p|
    ensures ReadQuestion(p, at).Some? ==>
            var q, c := ReadQuestion(p, at).value, ParseName(p, at).next;
            && q.name == ParseName(p, at).name && q.kind == 256 * p[c] as int + p[c + 1] as int
            && q.dnsClass == 256 * (p[c + 2] as int % 128) + p[c + 3] as int
            && (q.unicast <==> p[c + 2] >= 128) && q.next == c + 4
  {
    hide ParseName;
  }
}
