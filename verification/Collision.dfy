/** Tie-breaking between simultaneous probes (section 8.2 of RFC 6762): check_srv_collision and
    check_txt_collision of mdns_receive.c.  Verdicts: -1 we win, 0 the same data, 1 they win. */
module Collision {
  import opened Bytes
  import opened FqdnReader
  import opened RecordWriter
  import opened TxtReader

  // ---------------------------------------------------------------- comparing wire data

  /** The sign of memcmp on two buffers of the same length. */
  function Memcmp(a: bytes, b: bytes): (r: int)
    requires |a| == |b|
    ensures -1 <= r <= 1
  {
    if a == [] then 0
    else if a[0] > b[0] then 1
    else if a[0] < b[0] then -1
    else Memcmp(a[1..], b[1..])
  }

  /** Length first, then bytes; the greater side wins. */
  function Contest(ours: bytes, theirs: bytes): (r: int)
    ensures -1 <= r <= 1
  {
    if |theirs| > |ours| then 1
    else if |theirs| < |ours| then -1
    else -Memcmp(ours, theirs)
  }

  lemma {:induction false} MemcmpSwaps(a: bytes, b: bytes)
    requires |a| == |b|
    ensures Memcmp(a, b) == -Memcmp(b, a)
    ensures Memcmp(a, b) == 0 <==> a == b
  {
    if a != [] && a[0] == b[0] {
      MemcmpSwaps(a[1..], b[1..]);
      assert a == [a[0]] + a[1..] && b == [b[0]] + b[1..];
    }
  }

  lemma {:induction false} MemcmpChains(a: bytes, b: bytes, c: bytes)
    requires |a| == |b| == |c| && Memcmp(a, b) > 0 && Memcmp(b, c) > 0
    ensures Memcmp(a, c) > 0
  {
    if a[0] == b[0] == c[0] {
      MemcmpChains(a[1..], b[1..], c[1..]);
    }
  }

  /** Both sides reach the same decision, and a draw means identical data. */
  lemma ContestSwaps(a: bytes, b: bytes)
    ensures Contest(a, b) == -Contest(b, a)
    ensures Contest(a, b) == 0 <==> a == b
  {
    if |a| == |b| {
      MemcmpSwaps(a, b);
    }
  }

  lemma ContestChains(a: bytes, b: bytes, c: bytes)
    requires Contest(a, b) == -1 && Contest(b, c) == -1
    ensures Contest(a, c) == -1
  {
    if |a| == |b| == |c| {
      MemcmpChains(a, b, c);
    }
  }

  /** a and b are the same before offset k, where a has the greater byte. */
  ghost predicate GreaterAt(a: bytes, b: bytes, k: nat) {
    k < |a| && k < |b| && a[..k] == b[..k] && a[k] > b[k]
  }

  /** The order of section 8.2 as the program has it: longer data is greater, and of two data of
      the same length the one with the greater byte at the first offset where they differ. */
  ghost predicate Greater(a: bytes, b: bytes) {
    |a| > |b| || (|a| == |b| && exists k: nat :: GreaterAt(a, b, k))
  }

  lemma EqualBefore(a: bytes, b: bytes, k: nat)
    requires GreaterAt(a, b, k)
    ensures k > 0 ==> a[0] == b[0]
  {
    assert k > 0 ==> a[0] == a[..k][0] && b[0] == b[..k][0];
  }

  lemma {:induction false} MemcmpIsOrder(a: bytes, b: bytes)
    requires |a| == |b|
    ensures Memcmp(a, b) == 1 <==> exists k: nat :: GreaterAt(a, b, k)
  {
    if a != [] && a[0] == b[0] {
      MemcmpIsOrder(a[1..], b[1..]);
      forall k: nat | GreaterAt(a[1..], b[1..], k)
        ensures GreaterAt(a, b, k + 1)
      {
        assert a[..k + 1] == [a[0]] + a[1..][..k] && b[..k + 1] == [b[0]] + b[1..][..k];
      }
      forall k: nat | GreaterAt(a, b, k)
        ensures k > 0 && GreaterAt(a[1..], b[1..], k - 1)
      {
        assert a[1..][..k - 1] == a[..k][1..] && b[1..][..k - 1] == b[..k][1..];
      }
    } else if a != [] {
      forall k: nat | GreaterAt(a, b, k)
        ensures k == 0
      {
        EqualBefore(a, b, k);
      }
      assert a[0] > b[0] ==> GreaterAt(a, b, 0);
    }
  }

  /** They win exactly with the greater data, and so do we. */
  lemma ContestIsOrder(ours: bytes, theirs: bytes)
    ensures Contest(ours, theirs) == 1 <==> Greater(theirs, ours)
    ensures Contest(ours, theirs) == -1 <==> Greater(ours, theirs)
  {
    if |ours| == |theirs| {
      MemcmpSwaps(ours, theirs);
      MemcmpIsOrder(ours, theirs);
      MemcmpIsOrder(theirs, ours);
    }
  }

  // ---------------------------------------------------------------- SRV

  /** A claim to a service instance: the data of its SRV record in domain local. */
  datatype Contender = Contender(priority: nat, weight: nat, port: nat, host: bytes) {
    predicate Valid() {
      priority < 0x1_0000 && weight < 0x1_0000 && port < 0x1_0000 && 1 <= |host| < 256
    }
  }

  /** Six bytes, then host and domain as labels; lengths are stored in one byte. */
  function SrvWire(c: Contender, domain: bytes): bytes {
    U16(c.priority) + U16(c.weight) + U16(c.port) + [Narrow(|c.host|)] + c.host + [Narrow(|domain|)] + domain + [0]
  }

  /** check_srv_collision: the lengths are compared before any data is built. */
  method CheckSrvCollision(ours: Contender, theirs: Contender, domain: bytes) returns (verdict: int)
    ensures verdict == if ours.host == [] then 0 else Contest(SrvWire(ours, LOCAL), SrvWire(theirs, domain))
    ensures ours.host == [] ==> verdict == 0
    ensures ours.host != [] ==> (verdict == 1 <==> Greater(SrvWire(theirs, domain), SrvWire(ours, LOCAL)))
    ensures ours.host != [] ==> (verdict == -1 <==> Greater(SrvWire(ours, LOCAL), SrvWire(theirs, domain)))
    ensures -1 <= verdict <= 1
  {
    if |ours.host| == 0 {
      return 0;
    }
    ContestIsOrder(SrvWire(ours, LOCAL), SrvWire(theirs, domain));
    var ourLen := 14 + |ours.host|;
    var theirLen := 9 + |theirs.host| + |domain|;
    if theirLen > ourLen {
      return 1;
    } else if theirLen < ourLen {
      return -1;
    }
    var ourData := SrvWire(ours, LOCAL);
    var theirData := SrvWire(theirs, domain);
    var ret := Memcmp(ourData, theirData);
    if ret > 0 {
      return -1;
    } else if ret < 0 {
      return 1;
    }
    verdict := 0;
  }

  /** The decision of a when it hears from b. */
  function SrvVerdict(a: Contender, b: Contender): int {
    Contest(SrvWire(a, LOCAL), SrvWire(b, LOCAL))
  }

  function SrvFixed(c: Contender): (b: bytes)
    ensures |b| == 6
  {
    U16(c.priority) + U16(c.weight) + U16(c.port)
  }

  function SrvName(c: Contender, domain: bytes): (b: bytes)
    ensures |b| == |c.host| + |domain| + 3
  {
    [Narrow(|c.host|)] + c.host + [Narrow(|domain|)] + domain + [0]
  }

  lemma SrvFixedIsInjective(a: Contender, b: Contender)
    requires a.Valid() && b.Valid() && SrvFixed(a) == SrvFixed(b)
    ensures a.priority == b.priority && a.weight == b.weight && a.port == b.port
  {
    var x, y := SrvFixed(a), SrvFixed(b);
    assert x[0..2] == U16(a.priority) && x[2..4] == U16(a.weight) && x[4..6] == U16(a.port);
    assert y[0..2] == U16(b.priority) && y[2..4] == U16(b.weight) && y[4..6] == U16(b.port);
    U16RoundTrip(a.priority);
    U16RoundTrip(b.priority);
    U16RoundTrip(a.weight);
    U16RoundTrip(b.weight);
    U16RoundTrip(a.port);
    U16RoundTrip(b.port);
  }

  lemma SrvWireIsInjective(a: Contender, b: Contender)
    requires a.Valid() && b.Valid() && SrvWire(a, LOCAL) == SrvWire(b, LOCAL)
    ensures a == b
  {
    var x, y := SrvWire(a, LOCAL), SrvWire(b, LOCAL);
    assert x == SrvFixed(a) + SrvName(a, LOCAL) && y == SrvFixed(b) + SrvName(b, LOCAL);
    assert x[..6] == SrvFixed(a) && y[..6] == SrvFixed(b);
    SrvFixedIsInjective(a, b);
    assert |a.host| == |b.host|;
    assert x[7..7 + |a.host|] == a.host && y[7..7 + |b.host|] == b.host;
  }

  /** Of two different claims each side sees the same winner, and a draw means the same claim. */
  lemma SrvVerdictsAgree(a: Contender, b: Contender)
    requires a.Valid() && b.Valid()
    ensures SrvVerdict(a, b) == -SrvVerdict(b, a)
    ensures SrvVerdict(a, b) == 0 <==> a == b
  {
    ContestSwaps(SrvWire(a, LOCAL), SrvWire(b, LOCAL));
    if SrvWire(a, LOCAL) == SrvWire(b, LOCAL) {
      SrvWireIsInjective(a, b);
    }
  }

  /** The order in fields: the longer host name is greater, then the priority, the weight, the port
      and the bytes of the host name decide. */
  ghost predicate Outranks(a: Contender, b: Contender) {
    || |a.host| > |b.host|
    || (|a.host| == |b.host|
        && (|| a.priority > b.priority
            || (a.priority == b.priority && a.weight > b.weight)
            || (a.priority == b.priority && a.weight == b.weight && a.port > b.port)
            || (a.priority == b.priority && a.weight == b.weight && a.port == b.port
                && Greater(a.host, b.host))))
  }

  /** The verdict in fields, for both sides. */
  lemma SrvVerdictInFields(a: Contender, b: Contender)
    requires a.Valid() && b.Valid()
    ensures SrvVerdict(a, b) == 1 <==> Outranks(b, a)
    ensures SrvVerdict(a, b) == -1 <==> Outranks(a, b)
  {
    ContestIsOrder(SrvWire(a, LOCAL), SrvWire(b, LOCAL));
    ContestSwaps(SrvWire(a, LOCAL), SrvWire(b, LOCAL));
    if Outranks(a, b) {
      OutranksInData(a, b);
    }
    if Outranks(b, a) {
      OutranksInData(b, a);
    }
    ContestIsOrder(a.host, b.host);
    ContestSwaps(a.host, b.host);
  }

  lemma OutranksInData(a: Contender, b: Contender)
    requires a.Valid() && b.Valid() && Outranks(a, b)
    ensures Greater(SrvWire(a, LOCAL), SrvWire(b, LOCAL))
  {
    hide Greater, SrvWire;
    if |a.host| > |b.host| {
      LongerHost(a, b);
    } else if a.priority > b.priority {
      GreaterPriority(a, b);
    } else if a.weight > b.weight {
      GreaterWeight(a, b);
    } else if a.port > b.port {
      GreaterPort(a, b);
    } else {
      OutranksByHost(a, b);
    }
  }

  lemma LongerHost(a: Contender, b: Contender)
    requires |a.host| > |b.host|
    ensures Greater(SrvWire(a, LOCAL), SrvWire(b, LOCAL))
  {
    hide Greater, U16;
    LongerIsGreater(SrvWire(a, LOCAL), SrvWire(b, LOCAL));
  }

  lemma GreaterPriority(a: Contender, b: Contender)
    requires a.Valid() && b.Valid() && |a.host| == |b.host| && a.priority > b.priority
    ensures Greater(SrvWire(a, LOCAL), SrvWire(b, LOCAL))
  {
    hide Greater, GreaterAt, U16;
    var x, y := SrvName(a, LOCAL), SrvName(b, LOCAL);
    var k := U16Greater(a.priority, b.priority);
    GreaterInside([], U16(a.priority), U16(b.priority), U16(a.weight) + U16(a.port) + x, U16(b.weight) + U16(b.port) + y, k);
    assert SrvWire(a, LOCAL) == [] + U16(a.priority) + (U16(a.weight) + U16(a.port) + x);
    assert SrvWire(b, LOCAL) == [] + U16(b.priority) + (U16(b.weight) + U16(b.port) + y);
  }

  lemma GreaterWeight(a: Contender, b: Contender)
    requires a.Valid() && b.Valid() && |a.host| == |b.host| && a.priority == b.priority && a.weight > b.weight
    ensures Greater(SrvWire(a, LOCAL), SrvWire(b, LOCAL))
  {
    hide Greater, GreaterAt, U16;
    var x, y := SrvName(a, LOCAL), SrvName(b, LOCAL);
    var k := U16Greater(a.weight, b.weight);
    GreaterInside(U16(a.priority), U16(a.weight), U16(b.weight), U16(a.port) + x, U16(b.port) + y, k);
    assert SrvWire(a, LOCAL) == U16(a.priority) + U16(a.weight) + (U16(a.port) + x);
    assert SrvWire(b, LOCAL) == U16(a.priority) + U16(b.weight) + (U16(b.port) + y);
  }

  lemma GreaterPort(a: Contender, b: Contender)
    requires a.Valid() && b.Valid() && |a.host| == |b.host|
    requires a.priority == b.priority && a.weight == b.weight && a.port > b.port
    ensures Greater(SrvWire(a, LOCAL), SrvWire(b, LOCAL))
  {
    hide Greater, GreaterAt, U16;
    var x, y := SrvName(a, LOCAL), SrvName(b, LOCAL);
    var k := U16Greater(a.port, b.port);
    GreaterInside(U16(a.priority) + U16(a.weight), U16(a.port), U16(b.port), x, y, k);
    assert SrvWire(a, LOCAL) == U16(a.priority) + U16(a.weight) + U16(a.port) + x;
    assert SrvWire(b, LOCAL) == U16(a.priority) + U16(a.weight) + U16(b.port) + y;
  }

  lemma LongerIsGreater(a: bytes, b: bytes)
    requires |a| > |b|
    ensures Greater(a, b)
  {}

  lemma OutranksByHost(a: Contender, b: Contender)
    requires SrvFixed(a) == SrvFixed(b) && |a.host| == |b.host| && Greater(a.host, b.host)
    ensures Greater(SrvWire(a, LOCAL), SrvWire(b, LOCAL))
  {
    var k: nat :| GreaterAt(a.host, b.host, k);
    var head := SrvFixed(a) + [Narrow(|a.host|)];
    var end := [Narrow(|LOCAL|)] + LOCAL + [0];
    GreaterInside(head, a.host, b.host, end, end, k);
    assert SrvWire(a, LOCAL) == head + a.host + end && SrvWire(b, LOCAL) == head + b.host + end;
  }

  /** The greater 16-bit field has the greater bytes. */
  lemma U16Greater(v: nat, w: nat) returns (k: nat)
    requires w < v < 0x1_0000
    ensures GreaterAt(U16(v), U16(w), k)
  {
    NarrowIsModulo(v);
    NarrowIsModulo(w);
    k := if v / 256 > w / 256 then 0 else 1;
  }

  /** A difference between two data stays the first one when both go behind the same bytes. */
  lemma GreaterInside(head: bytes, x: bytes, y: bytes, tail: bytes, tail': bytes, k: nat)
    requires |x| == |y| && |tail| == |tail'| && GreaterAt(x, y, k)
    ensures GreaterAt(head + x + tail, head + y + tail', |head| + k)
    ensures Greater(head + x + tail, head + y + tail')
  {
    assert (head + x + tail)[..|head| + k] == head + x[..k];
    assert (head + y + tail')[..|head| + k] == head + y[..k];
    assert GreaterAt(head + x + tail, head + y + tail', |head| + k);
  }

  predicate Beats(a: Contender, b: Contender) {
    SrvVerdict(a, b) == -1
  }

  lemma BeatsChains(a: Contender, b: Contender, c: Contender)
    requires Beats(a, b) && Beats(b, c)
    ensures Beats(a, c)
  {
    ContestChains(SrvWire(a, LOCAL), SrvWire(b, LOCAL), SrvWire(c, LOCAL));
  }

  ghost predicate BeatsAllOthers(w: Contender, s: set<Contender>) {
    w in s && forall o :: o in s && o != w ==> Beats(w, o)
  }

  /** Any number of different claims has exactly one that beats all others: the one that outranks
      them, with the greatest data. */
  lemma {:induction false} OneWinner(s: set<Contender>) returns (w: Contender)
    requires s != {} && forall c :: c in s ==> c.Valid()
    ensures BeatsAllOthers(w, s)
    ensures forall v :: BeatsAllOthers(v, s) ==> v == w
    ensures forall o :: o in s && o != w ==> SrvVerdict(o, w) == 1
    ensures forall o :: o in s && o != w ==> Outranks(w, o) && Greater(SrvWire(w, LOCAL), SrvWire(o, LOCAL))
    decreases |s|
  {
    var c :| c in s;
    var rest := s - {c};
    if rest == {} {
      assert s == {c};
      w := c;
    } else {
      w := OneWinner(rest);
      SrvVerdictsAgree(c, w);
      if Beats(c, w) {
        forall o | o in s && o != c
          ensures Beats(c, o)
        {
          if o != w {
            BeatsChains(c, w, o);
          }
        }
        w := c;
      }
    }
    WinnerIsUnique(s, w);
  }

  lemma WinnerIsUnique(s: set<Contender>, w: Contender)
    requires (forall c :: c in s ==> c.Valid()) && BeatsAllOthers(w, s)
    ensures forall v :: BeatsAllOthers(v, s) ==> v == w
    ensures forall o :: o in s && o != w ==> SrvVerdict(o, w) == 1
    ensures forall o :: o in s && o != w ==> Outranks(w, o) && Greater(SrvWire(w, LOCAL), SrvWire(o, LOCAL))
  {
    forall o | o in s
      ensures SrvVerdict(o, w) == -SrvVerdict(w, o)
      ensures SrvVerdict(w, o) == -1 ==> Outranks(w, o) && Greater(SrvWire(w, LOCAL), SrvWire(o, LOCAL))
    {
      SrvVerdictsAgree(o, w);
      SrvVerdictInFields(w, o);
      ContestIsOrder(SrvWire(w, LOCAL), SrvWire(o, LOCAL));
    }
  }

  // ---------------------------------------------------------------- TXT

  /** The entries written one behind the other from index on.  An entry that does not fit into a
      packet is left out, and its bytes stay what they were. */
  function Filled(buf: bytes, index: nat, items: seq<TxtItem>): (r: bytes)
    requires index + |TxtEntries(items)| <= |buf|
    ensures |r| == |buf|
    decreases |items|
  {
    if items == [] then buf
    else
      var entry := TxtEntry(items[0]);
      if index + |entry| >= MAX_PACKET_SIZE then Filled(buf, index, items[1..])
      else Filled(Written(buf, index, entry), index + |entry|, items[1..])
  }

  function Written(buf: bytes, index: nat, entry: bytes): (r: bytes)
    requires index + |entry| <= |buf|
    ensures |r| == |buf|
  {
    buf[..index] + entry + buf[index + |entry|..]
  }

  /** Below the size of a packet everything is written. */
  lemma {:induction false} FilledIsEntries(buf: bytes, index: nat, items: seq<TxtItem>)
    requires index + |TxtEntries(items)| <= |buf| && index + |TxtEntries(items)| < MAX_PACKET_SIZE
    ensures Filled(buf, index, items) == Written(buf, index, TxtEntries(items))
    decreases |items|
  {
    if items == [] {
      assert buf[..index] + [] + buf[index..] == buf;
    } else {
      var entry, rest := TxtEntry(items[0]), TxtEntries(items[1..]);
      var more := Written(buf, index, entry);
      FilledIsEntries(more, index + |entry|, items[1..]);
      WrittenTwice(buf, index, entry, rest);
    }
  }

  /** An entry that would reach the last byte of a packet is not written. */
  lemma EntryWrittenExactly(buf: bytes, index: nat, item: TxtItem)
    requires index + |TxtEntry(item)| <= |buf|
    ensures TxtEntries([item]) == TxtEntry(item)
    ensures Filled(buf, index, [item])
            == if index + |TxtEntry(item)| < 1460 then Written(buf, index, TxtEntry(item)) else buf
  {
    assert [item][1..] == [] && TxtEntries([]) == [];
  }

  lemma WrittenTwice(buf: bytes, index: nat, x: bytes, y: bytes)
    requires index + |x| + |y| <= |buf|
    ensures Written(Written(buf, index, x), index + |x|, y) == Written(buf, index, x + y)
  {}

  /** What the two sides are compared by: the bytes on the stack that no entry overwrites count,
      too. */
  function TxtVerdictOver(left: bytes, ours: seq<TxtItem>, data: bytes): int
    requires |left| == |data|
  {
    if |data| <= 1 || ours == [] || |data| != |TxtEntries(ours)| then TxtVerdict(ours, data)
    else -Memcmp(Filled(left, 0, ours), data)
  }

  /** check_txt_collision against the data of a received TXT record; left is what the stack held.
      It does not matter for data that a packet of our own could hold. */
  method CheckTxtCollision(ours: seq<TxtItem>, data: bytes) returns (verdict: int, ghost left: bytes)
    ensures |left| == |data| && verdict == TxtVerdictOver(left, ours, data)
    ensures |data| < MAX_PACKET_SIZE || |data| != |TxtEntries(ours)| ==>
              verdict == TxtVerdict(ours, data) && DecidedByOrder(ours, data, verdict)
  {
    left := data;
    TxtVerdictIsOrder(ours, data);
    if |data| <= 1 && ours != [] {
      return -1, left;
    } else if |data| > 1 && ours == [] {
      return 1, left;
    } else if |data| <= 1 && ours == [] {
      return 0, left;
    }
    var dataLen := 0;
    var i := 0;
    while i < |ours|
      invariant 0 <= i <= |ours|
      invariant dataLen + |TxtEntries(ours[i..])| == |TxtEntries(ours)|
    {
      assert ours[i..][1..] == ours[i + 1..];
      dataLen := dataLen + 1 + |TxtText(ours[i])|;
      i := i + 1;
    }
    if |data| > dataLen {
      return 1, left;
    } else if |data| < dataLen {
      return -1, left;
    }
    var buf := new byte[|data|];
    left := buf[..];
    FillBuffer(ours, buf);
    verdict := -Memcmp(buf[..], data);
    if |data| < MAX_PACKET_SIZE {
      FilledIsEntries(left, 0, ours);
      assert Written(left, 0, TxtEntries(ours)) == TxtEntries(ours);
    }
  }

  /** The second loop: the entries go into the buffer. */
  method FillBuffer(ours: seq<TxtItem>, buf: array<byte>)
    requires |TxtEntries(ours)| <= buf.Length
    modifies buf
    ensures buf[..] == Filled(old(buf[..]), 0, ours)
  {
    hide TxtEntry, Written;
    var index: nat := 0;
    assert ours[0..] == ours;
    for i := 0 to |ours|
      invariant index + |TxtEntries(ours[i..])| <= buf.Length
      invariant Filled(buf[..], index, ours[i..]) == Filled(old(buf[..]), 0, ours)
    {
      assert ours[i..][1..] == ours[i + 1..];
      index := AppendEntry(buf, index, TxtEntry(ours[i]));
    }
  }

  /** mdns_priv_append_one_txt_record_entry. */
  method AppendEntry(buf: array<byte>, index: nat, entry: bytes) returns (next: nat)
    requires index + |entry| <= buf.Length
    modifies buf
    ensures if index + |entry| >= MAX_PACKET_SIZE then buf[..] == old(buf[..]) && next == index
            else buf[..] == Written(old(buf[..]), index, entry) && next == index + |entry|
  {
    if index + |entry| >= MAX_PACKET_SIZE {
      return index;
    }
    for i := 0 to |entry|
      invariant forall k :: 0 <= k < i ==> buf[index + k] == entry[k]
      invariant forall k :: 0 <= k < buf.Length && !(index <= k < index + i) ==> buf[k] == old(buf[k])
    {
      buf[index + i] := entry[i];
    }
    assert buf[..] == Written(old(buf[..]), index, entry);
    next := index + |entry|;
  }

  function TxtVerdict(ours: seq<TxtItem>, data: bytes): (r: int)
    ensures -1 <= r <= 1
  {
    if |data| <= 1 && ours != [] then -1
    else if |data| > 1 && ours == [] then 1
    else if |data| <= 1 then 0
    else Contest(TxtEntries(ours), data)
  }

  /** The verdict on TXT data: no data against none is a draw, some data wins against none, and
      otherwise the greater data wins. */
  ghost predicate DecidedByOrder(ours: seq<TxtItem>, data: bytes, verdict: int) {
    && -1 <= verdict <= 1
    && (verdict == 1 <==> |data| > 1 && (ours == [] || Greater(data, TxtEntries(ours))))
    && (verdict == -1 <==> ours != [] && (|data| <= 1 || Greater(TxtEntries(ours), data)))
  }

  lemma TxtVerdictIsOrder(ours: seq<TxtItem>, data: bytes)
    ensures DecidedByOrder(ours, data, TxtVerdict(ours, data))
  {
    ContestIsOrder(TxtEntries(ours), data);
  }

  lemma WireOfItems(items: seq<TxtItem>)
    requires AllProper(items)
    ensures items != [] ==> |TxtWire(items)| > 1 && TxtWire(items) == TxtEntries(items)
    ensures items == [] ==> TxtWire(items) == [0]
  {
    if items != [] {
      EntriesSplit(items);
      assert Proper(items[0]);
    }
  }

  lemma {:induction false} TxtEntriesInjective(a: seq<TxtItem>, b: seq<TxtItem>)
    requires AllProper(a) && AllProper(b) && TxtEntries(a) == TxtEntries(b)
    ensures a == b
    decreases |a|
  {
    hide TxtEntries, TxtEntry, Proper, AllProper;
    if a == [] || b == [] {
      NoEntries(a);
      NoEntries(b);
    } else {
      ProperTail(a);
      ProperTail(b);
      HeadOfEntries(a, b);
      TxtEntriesInjective(a[1..], b[1..]);
      assert a == [a[0]] + a[1..] && b == [b[0]] + b[1..];
    }
  }

  lemma NoEntries(items: seq<TxtItem>)
    ensures items == [] <==> TxtEntries(items) == []
  {
  }

  lemma HeadOfEntries(a: seq<TxtItem>, b: seq<TxtItem>)
    requires a != [] && b != [] && Proper(a[0]) && Proper(b[0]) && TxtEntries(a) == TxtEntries(b)
    ensures a[0] == b[0] && TxtEntries(a[1..]) == TxtEntries(b[1..])
  {
    EntriesSplit(a);
    EntriesSplit(b);
    var x, y := TxtEntry(a[0]), TxtEntry(b[0]);
    assert TxtEntries(a)[0] == x[0] && TxtEntries(b)[0] == y[0];
    assert |x| == |y|;
    assert TxtEntries(a)[..|x|] == x && TxtEntries(b)[..|y|] == y;
    assert TxtEntries(a)[|x|..] == TxtEntries(a[1..]) && TxtEntries(b)[|y|..] == TxtEntries(b[1..]);
    assert x[1..] == TxtText(a[0]) && y[1..] == TxtText(b[0]);
    KeyOfText(a[0]);
    KeyOfText(b[0]);
    assert a[0].value.Some? <==> |TxtText(a[0])| > |a[0].key|;
  }

  /** Two responders that compare each other's TXT data as each of them sends it come to
      opposite verdicts, empty data included, and draw only with equal items. */
  lemma TxtVerdictsAgree(a: seq<TxtItem>, b: seq<TxtItem>)
    requires AllProper(a) && AllProper(b)
    ensures TxtVerdict(a, TxtWire(b)) == -TxtVerdict(b, TxtWire(a))
    ensures TxtVerdict(a, TxtWire(b)) == 0 <==> a == b
  {
    WireOfItems(a);
    WireOfItems(b);
    if a != [] && b != [] {
      ContestSwaps(TxtEntries(a), TxtEntries(b));
      if TxtEntries(a) == TxtEntries(b) {
        TxtEntriesInjective(a, b);
      }
    }
  }

  /** Between responders that send their items the greater data wins. */
  lemma TxtVerdictOfWire(a: seq<TxtItem>, b: seq<TxtItem>)
    requires AllProper(a) && AllProper(b)
    ensures TxtVerdict(a, TxtWire(b)) == 1 <==> Greater(TxtWire(b), TxtWire(a))
    ensures TxtVerdict(a, TxtWire(b)) == -1 <==> Greater(TxtWire(a), TxtWire(b))
  {
    WireOfItems(a);
    WireOfItems(b);
    TxtVerdictIsOrder(a, TxtWire(b));
    ContestIsOrder([0], [0]);
  }

  ghost predicate TxtBeatsAllOthers(w: seq<TxtItem>, s: set<seq<TxtItem>>) {
    w in s && forall o :: o in s && o != w ==> TxtVerdict(w, TxtWire(o)) == -1
  }

  /** Any number of different lists of items has exactly one that beats all others, the one with
      the greatest data, and all others see it win. */
  lemma {:induction false} OneTxtWinner(s: set<seq<TxtItem>>) returns (w: seq<TxtItem>)
    requires s != {} && forall c :: c in s ==> AllProper(c)
    ensures TxtBeatsAllOthers(w, s)
    ensures forall v :: TxtBeatsAllOthers(v, s) ==> v == w
    ensures forall o :: o in s && o != w ==> TxtVerdict(o, TxtWire(w)) == 1 && Greater(TxtWire(w), TxtWire(o))
    decreases |s|
  {
    hide TxtVerdict, TxtWire, Greater, AllProper;
    var c :| c in s;
    var rest := s - {c};
    if rest == {} {
      assert s == {c};
      w := c;
    } else {
      w := OneTxtWinner(rest);
      TxtVerdictsAgree(c, w);
      if TxtVerdict(c, TxtWire(w)) == -1 {
        forall o | o in s && o != c
          ensures TxtVerdict(c, TxtWire(o)) == -1
        {
          if o != w {
            TxtVerdictsChain(c, w, o);
          }
        }
        w := c;
      }
    }
    forall o | o in s
      ensures TxtVerdict(o, TxtWire(w)) == -TxtVerdict(w, TxtWire(o))
      ensures TxtVerdict(o, TxtWire(w)) == 1 <==> Greater(TxtWire(w), TxtWire(o))
    {
      TxtVerdictsAgree(o, w);
      TxtVerdictOfWire(o, w);
    }
  }

  lemma TxtVerdictsChain(a: seq<TxtItem>, b: seq<TxtItem>, c: seq<TxtItem>)
    requires AllProper(a) && AllProper(b) && AllProper(c)
    requires TxtVerdict(a, TxtWire(b)) == -1 && TxtVerdict(b, TxtWire(c)) == -1
    ensures TxtVerdict(a, TxtWire(c)) == -1
  {
    WireOfItems(a);
    WireOfItems(b);
    WireOfItems(c);
    if c != [] {
      ContestChains(TxtEntries(a), TxtEntries(b), TxtEntries(c));
    }
  }
}
