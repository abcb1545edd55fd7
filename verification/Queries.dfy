/** What a one-shot search collects (mdns_querier.c). */
module Queries {
  import opened Bytes
  import opened RecordWriter
  import opened Packets

  /** What the parser hands over. */
  datatype Record =
    | Ptr(instance: bytes, kind: bytes, proto: bytes)
    | Srv(hostname: bytes, port: nat)
    | Txt(items: bytes)
    | Ip(hostname: bytes, address: bytes)

  /** A record and where it comes from. */
  datatype Arrival = Arrival(rec: Record, pair: Pair, ttl: nat)

  /** mdns_result_t.  An address has 4 or 16 bytes.  seen is the observer's: the records that were
      for the result, the one that made it first. */
  datatype Result = Result(pair: Pair, instance: Option<bytes>, kind: Option<bytes>, proto: Option<bytes>,
                           hostname: Option<bytes>, port: nat, txt: Option<bytes>, addresses: seq<bytes>,
                           ttl: nat, seen: seq<Arrival>)

  /** What is looked for. */
  datatype Wanted = Wanted(kind: nat, instance: Option<bytes>, service: Option<bytes>, proto: Option<bytes>, maxResults: nat)

  // ---------------------------------------------------------------- merging

  function Least(a: nat, b: nat): nat {
    if a < b then a else b
  }

  /** mdns_priv_query_update_result_ttl. */
  function Shorten(r: Result, ttl: nat): Result {
    r.(ttl := Least(r.ttl, ttl))
  }

  function Noted(r: Result, rec: Record, ttl: nat): Result {
    r.(seen := r.seen + [Arrival(rec, r.pair, ttl)])
  }

  /** result_add_ip. */
  function AddAddress(list: seq<bytes>, a: bytes): seq<bytes> {
    if a in list then list else [a] + list
  }

  predicate NamedAs(name: Option<bytes>, text: bytes) {
    name.Some? && name.value != [] && SameText(text, name.value)
  }

  /** The searches an address is a result of by itself. */
  predicate AddressWanted(kind: nat, address: bytes) {
    (kind == TYPE_A && |address| == 4) || (kind == TYPE_AAAA && |address| == 16) || kind == TYPE_ANY
  }

  /** Whether a record belongs to a result that is there already. */
  predicate Belongs(w: Wanted, r: Result, rec: Record, pair: Pair) {
    r.pair == pair
    && match rec
       case Ptr(instance, _, _) => NamedAs(r.instance, instance)
       case Srv(hostname, _) => NamedAs(r.hostname, hostname)
       case Txt(_) => true
       case Ip(hostname, address) =>
         AddressWanted(w.kind, address)
         || ((w.kind == TYPE_PTR || w.kind == TYPE_SRV) && NamedAs(r.hostname, hostname))
  }

  function Merge(r: Result, rec: Record, ttl: nat): Result {
    match rec
    case Ptr(_, _, _) => Noted(Shorten(r, ttl), rec, ttl)
    case Srv(_, _) => Noted(Shorten(r, ttl), rec, ttl)
    case Txt(items) => Noted(if r.txt.Some? then r else Shorten(r.(txt := Some(items)), ttl), rec, ttl)
    case Ip(_, address) => Noted(Shorten(r.(addresses := AddAddress(r.addresses, address)), ttl), rec, ttl)
  }

  /** Whether a record that belongs to no result makes a new one. */
  predicate MakesResult(w: Wanted, rec: Record) {
    rec.Ip? ==> AddressWanted(w.kind, rec.address)
  }

  function NewResult(w: Wanted, rec: Record, pair: Pair, ttl: nat): Result {
    var blank := Result(pair, None, None, None, None, 0, None, [], ttl, [Arrival(rec, pair, ttl)]);
    match rec
    case Ptr(instance, kind, proto) => blank.(instance := Some(instance), kind := Some(kind), proto := Some(proto))
    case Srv(hostname, port) =>
      blank.(hostname := Some(hostname), instance := w.instance, kind := w.service, proto := w.proto, port := port)
    case Txt(items) => blank.(txt := Some(items))
    case Ip(hostname, address) => blank.(hostname := Some(hostname), addresses := [address])
  }

  /** The first result the record belongs to. */
  function Position(w: Wanted, list: seq<Result>, rec: Record, pair: Pair): (i: nat)
    ensures i <= |list| && (i < |list| ==> Belongs(w, list[i], rec, pair))
    ensures forall j :: 0 <= j < i ==> !Belongs(w, list[j], rec, pair)
  {
    if list == [] || Belongs(w, list[0], rec, pair) then 0
    else
      var rest := Position(w, list[1..], rec, pair);
      assert forall j :: 1 <= j < |list| ==> list[j] == list[1..][j - 1];
      rest + 1
  }

  predicate Room(w: Wanted, count: nat) {
    w.maxResults == 0 || count < w.maxResults
  }

  /** The four mdns_priv_query_result_add functions; new results come first. */
  function Added(w: Wanted, list: seq<Result>, rec: Record, pair: Pair, ttl: nat): seq<Result> {
    var i := Position(w, list, rec, pair);
    if i < |list| then list[i := Merge(list[i], rec, ttl)]
    else if MakesResult(w, rec) && Room(w, |list|) then [NewResult(w, rec, pair, ttl)] + list
    else list
  }

  // ---------------------------------------------------------------- what holds of every list

  predicate NoRepeat(list: seq<bytes>) {
    forall i, j :: 0 <= i < j < |list| ==> list[i] != list[j]
  }

  /** Whether record k counts for the lifetime: a TXT record behind the first one is thrown away. */
  predicate Counts(seen: seq<Arrival>, k: nat)
    requires k < |seen|
  {
    seen[k].rec.Txt? ==> forall j :: 0 <= j < k ==> !seen[j].rec.Txt?
  }

  ghost predicate LeastLifetime(r: Result) {
    && (exists k :: 0 <= k < |r.seen| && Counts(r.seen, k) && r.seen[k].ttl == r.ttl)
    && forall k :: 0 <= k < |r.seen| && Counts(r.seen, k) ==> r.ttl <= r.seen[k].ttl
  }

  /** The addresses are those that arrived. */
  ghost predicate AddressesOfSeen(r: Result) {
    && NoRepeat(r.addresses)
    && forall a :: a in r.addresses <==> exists k :: 0 <= k < |r.seen| && r.seen[k].rec.Ip? && r.seen[k].rec.address == a
  }

  /** The items are the first ones that arrived. */
  ghost predicate FirstItems(r: Result) {
    && (r.txt == None ==> forall k :: 0 <= k < |r.seen| ==> !r.seen[k].rec.Txt?)
    && (r.txt.Some? ==> exists k :: 0 <= k < |r.seen| && Counts(r.seen, k) && r.seen[k].rec == Txt(r.txt.value))
  }

  /** Every other field is that of the record that made the result; a result that an SRV record
      made carries the instance, type and protocol that were asked for. */
  predicate NamedByFirst(w: Wanted, r: Result)
    requires r.seen != []
  {
    match r.seen[0].rec
    case Ptr(instance, kind, proto) =>
      && r.instance == Some(instance) && r.kind == Some(kind) && r.proto == Some(proto)
      && r.hostname == None && r.port == 0
    case Srv(hostname, port) =>
      && r.instance == w.instance && r.kind == w.service && r.proto == w.proto
      && r.hostname == Some(hostname) && r.port == port
    case Txt(_) => r.instance == r.kind == r.proto == r.hostname == None && r.port == 0
    case Ip(hostname, address) =>
      && r.instance == r.kind == r.proto == None && r.hostname == Some(hostname) && r.port == 0
      && AddressWanted(w.kind, address)
  }

  ghost predicate ResultOk(w: Wanted, r: Result) {
    && r.seen != [] && (forall k :: 0 <= k < |r.seen| ==> r.seen[k].pair == r.pair)
    && LeastLifetime(r) && AddressesOfSeen(r) && FirstItems(r) && NamedByFirst(w, r)
  }

  /** Two results of one search never carry the same name: the same instance in a list that PTR
      records made, the same host in one that SRV records made. */
  predicate Apart(a: Result, b: Result, byInstance: bool) {
    a.pair == b.pair ==>
      if byInstance then a.instance.Some? ==> !NamedAs(b.instance, a.instance.value)
      else a.hostname.Some? ==> !NamedAs(b.hostname, a.hostname.value)
  }

  ghost predicate ListOk(w: Wanted, list: seq<Result>) {
    && (forall i :: 0 <= i < |list| ==> ResultOk(w, list[i]))
    && (w.maxResults > 0 ==> |list| <= w.maxResults)
  }

  predicate AllApart(list: seq<Result>, byInstance: bool) {
    forall i, j :: 0 <= i < j < |list| ==> Apart(list[i], list[j], byInstance)
  }

  /** What a record does to the result it is for: an address goes to the front unless it is there,
      items stay if there are some, nothing else changes but the lifetime. */
  ghost predicate Took(before: Result, after: Result, rec: Record, ttl: nat) {
    && after == before.(txt := after.txt, addresses := after.addresses, ttl := after.ttl, seen := after.seen)
    && after.seen == before.seen + [Arrival(rec, before.pair, ttl)]
    && (if rec.Txt? then after.txt.Some? && (before.txt == after.txt || (before.txt == None && after.txt.value == rec.items))
        else after.txt == before.txt)
    && (if rec.Ip? && rec.address !in before.addresses then after.addresses == [rec.address] + before.addresses
        else after.addresses == before.addresses)
    && (if rec.Txt? && before.txt.Some? then after.ttl == before.ttl
        else after.ttl <= ttl && after.ttl <= before.ttl && after.ttl in {ttl, before.ttl})
  }

  /** A new result: what its record says, and nothing else. */
  ghost predicate Made(w: Wanted, r: Result, rec: Record, pair: Pair, ttl: nat) {
    && r.pair == pair && r.ttl == ttl && r.seen == [Arrival(rec, pair, ttl)] && NamedByFirst(w, r)
    && r.txt == (if rec.Txt? then Some(rec.items) else None)
    && r.addresses == (if rec.Ip? then [rec.address] else [])
  }

  /** A record changes the first result it is for, or comes in front as a new one while there is
      room, or leaves everything as it is. */
  lemma RecordIsTaken(w: Wanted, list: seq<Result>, rec: Record, pair: Pair, ttl: nat)
    ensures var after := Added(w, list, rec, pair, ttl);
            (exists i :: 0 <= i < |list| && Belongs(w, list[i], rec, pair) && |after| == |list|
                         && (forall j :: 0 <= j < i ==> !Belongs(w, list[j], rec, pair))
                         && (forall j :: 0 <= j < |list| && j != i ==> after[j] == list[j])
                         && Took(list[i], after[i], rec, ttl))
            || ((forall j :: 0 <= j < |list| ==> !Belongs(w, list[j], rec, pair))
                && if (rec.Ip? && !AddressWanted(w.kind, rec.address)) || (w.maxResults > 0 && |list| >= w.maxResults) then
                     after == list
                   else
                     after != [] && after[1..] == list && Made(w, after[0], rec, pair, ttl))
  {
    var i := Position(w, list, rec, pair);
    var after := Added(w, list, rec, pair, ttl);
    if i < |list| {
      TookByMerge(list[i], rec, ttl);
      assert forall j :: 0 <= j < |list| && j != i ==> after[j] == list[j];
    }
  }

  lemma TookByMerge(r: Result, rec: Record, ttl: nat)
    ensures Took(r, Merge(r, rec, ttl), rec, ttl)
  {}

  /** A search for services gives an address to the first result of its host on its pair. */
  lemma HostTakesAddress(w: Wanted, list: seq<Result>, i: nat, hostname: bytes, address: bytes, pair: Pair, ttl: nat)
    requires (w.kind == TYPE_PTR || w.kind == TYPE_SRV) && i < |list|
    requires list[i].pair == pair && list[i].hostname.Some? && SameText(hostname, list[i].hostname.value) && hostname != []
    requires forall j :: 0 <= j < i && list[j].pair == pair && list[j].hostname.Some? ==> !SameText(hostname, list[j].hostname.value)
    ensures var after := Added(w, list, Ip(hostname, address), pair, ttl);
            && |after| == |list| && (forall j :: 0 <= j < |list| && j != i ==> after[j] == list[j])
            && Took(list[i], after[i], Ip(hostname, address), ttl) && address in after[i].addresses
  {
    var rec := Ip(hostname, address);
    assert Belongs(w, list[i], rec, pair);
    assert forall j :: 0 <= j < i ==> !Belongs(w, list[j], rec, pair);
    assert Position(w, list, rec, pair) == i;
    TookByMerge(list[i], rec, ttl);
  }

  /** A search for addresses gives every address it is for to the first result of the pair. */
  lemma PairTakesAddress(w: Wanted, list: seq<Result>, i: nat, hostname: bytes, address: bytes, pair: Pair, ttl: nat)
    requires w.kind == TYPE_ANY || (w.kind == TYPE_A && |address| == 4) || (w.kind == TYPE_AAAA && |address| == 16)
    requires i < |list| && list[i].pair == pair && forall j :: 0 <= j < i ==> list[j].pair != pair
    ensures var after := Added(w, list, Ip(hostname, address), pair, ttl);
            && |after| == |list| && (forall j :: 0 <= j < |list| && j != i ==> after[j] == list[j])
            && Took(list[i], after[i], Ip(hostname, address), ttl) && address in after[i].addresses
  {
    var rec := Ip(hostname, address);
    assert Position(w, list, rec, pair) == i;
    TookByMerge(list[i], rec, ttl);
  }

  /** Any other address changes nothing. */
  lemma StrangeAddress(w: Wanted, list: seq<Result>, hostname: bytes, address: bytes, pair: Pair, ttl: nat)
    requires w.kind != TYPE_ANY && !(w.kind == TYPE_A && |address| == 4) && !(w.kind == TYPE_AAAA && |address| == 16)
    requires w.kind == TYPE_PTR || w.kind == TYPE_SRV ==>
               forall j :: 0 <= j < |list| && list[j].pair == pair && list[j].hostname.Some? ==>
                 list[j].hostname.value == [] || !SameText(hostname, list[j].hostname.value)
    ensures Added(w, list, Ip(hostname, address), pair, ttl) == list
  {
    assert forall j :: 0 <= j < |list| ==> !Belongs(w, list[j], Ip(hostname, address), pair);
  }

  /** Items go to the first result of the pair. */
  lemma PairTakesItems(w: Wanted, list: seq<Result>, i: nat, items: bytes, pair: Pair, ttl: nat)
    requires i < |list| && list[i].pair == pair && forall j :: 0 <= j < i ==> list[j].pair != pair
    ensures var after := Added(w, list, Txt(items), pair, ttl);
            && |after| == |list| && (forall j :: 0 <= j < |list| && j != i ==> after[j] == list[j])
            && Took(list[i], after[i], Txt(items), ttl)
  {
    assert Position(w, list, Txt(items), pair) == i;
    TookByMerge(list[i], Txt(items), ttl);
  }

  /** A record keeps what is true of the result it is for. */
  lemma TookOk(w: Wanted, before: Result, after: Result, rec: Record, ttl: nat)
    requires ResultOk(w, before) && Took(before, after, rec, ttl)
    ensures ResultOk(w, after)
  {
    var n := |before.seen|;
    assert forall k :: 0 <= k < n ==> after.seen[k] == before.seen[k] && (Counts(after.seen, k) <==> Counts(before.seen, k));
    assert after.seen[n] == Arrival(rec, before.pair, ttl);
    TookAddresses(before, after, rec, ttl);
    if rec.Txt? && before.txt.Some? {
      var k :| 0 <= k < n && Counts(before.seen, k) && before.seen[k].rec == Txt(before.txt.value);
      assert !Counts(after.seen, n);
    } else {
      assert Counts(after.seen, n);
    }
    TookLifetime(before, after, rec, ttl);
    TookItems(before, after, rec, ttl);
  }

  lemma TookAddresses(before: Result, after: Result, rec: Record, ttl: nat)
    requires AddressesOfSeen(before) && Took(before, after, rec, ttl)
    ensures AddressesOfSeen(after)
  {
    var n := |before.seen|;
    assert after.seen[n].rec == rec && forall k :: 0 <= k < n ==> after.seen[k] == before.seen[k];
    assert after.addresses != before.addresses ==>
        forall j :: 1 <= j < |after.addresses| ==> after.addresses[j] == before.addresses[j - 1];
    forall a
      ensures a in after.addresses <==> exists k :: 0 <= k <= n && after.seen[k].rec.Ip? && after.seen[k].rec.address == a
    {
      if exists k :: 0 <= k < n && before.seen[k].rec.Ip? && before.seen[k].rec.address == a {
        var k :| 0 <= k < n && before.seen[k].rec.Ip? && before.seen[k].rec.address == a;
        assert after.seen[k] == before.seen[k];
      }
    }
  }

  lemma TookLifetime(before: Result, after: Result, rec: Record, ttl: nat)
    requires LeastLifetime(before) && Took(before, after, rec, ttl)
    requires Counts(after.seen, |before.seen|) <==> !(rec.Txt? && before.txt.Some?)
    ensures LeastLifetime(after)
  {
    var n := |before.seen|;
    assert forall k :: 0 <= k < n ==> after.seen[k] == before.seen[k] && (Counts(after.seen, k) <==> Counts(before.seen, k));
    assert after.seen[n] == Arrival(rec, before.pair, ttl);
    var k :| 0 <= k < n && Counts(before.seen, k) && before.seen[k].ttl == before.ttl;
    assert Counts(after.seen, k) && after.seen[k].ttl == before.ttl;
  }

  lemma TookItems(before: Result, after: Result, rec: Record, ttl: nat)
    requires FirstItems(before) && Took(before, after, rec, ttl)
    ensures FirstItems(after)
  {
    var n := |before.seen|;
    assert after.seen[n].rec == rec && forall k :: 0 <= k < n ==> after.seen[k] == before.seen[k];
    if before.txt.Some? {
      var k :| 0 <= k < n && Counts(before.seen, k) && before.seen[k].rec == Txt(before.txt.value);
      assert Counts(after.seen, k) && after.seen[k].rec == Txt(before.txt.value);
    } else if rec.Txt? {
      assert Counts(after.seen, n);
    }
  }

  lemma MadeOk(w: Wanted, r: Result, rec: Record, pair: Pair, ttl: nat)
    requires Made(w, r, rec, pair, ttl)
    ensures ResultOk(w, r)
  {
    assert Counts(r.seen, 0) && r.seen[0] == Arrival(rec, pair, ttl);
  }

  /** Whatever arrives, in whatever order: the limit is kept, and every result is what the records
      that were for it make it. */
  lemma AddedOk(w: Wanted, list: seq<Result>, rec: Record, pair: Pair, ttl: nat)
    requires ListOk(w, list)
    ensures ListOk(w, Added(w, list, rec, pair, ttl))
  {
    hide ResultOk, Took, Made, Merge, NewResult;
    var i := Position(w, list, rec, pair);
    if i < |list| {
      TookByMerge(list[i], rec, ttl);
      TookOk(w, list[i], Merge(list[i], rec, ttl), rec, ttl);
    } else if MakesResult(w, rec) {
      MadeByNew(w, rec, pair, ttl);
      MadeOk(w, NewResult(w, rec, pair, ttl), rec, pair, ttl);
    }
  }

  lemma MadeByNew(w: Wanted, rec: Record, pair: Pair, ttl: nat)
    requires MakesResult(w, rec)
    ensures Made(w, NewResult(w, rec, pair, ttl), rec, pair, ttl)
  {}

  /** A search that is fed by PTR records only (or by SRV records only), apart from data for the
      results it has, never lists a name twice on one pair. */
  lemma AddedApart(w: Wanted, list: seq<Result>, rec: Record, pair: Pair, ttl: nat, byInstance: bool)
    requires AllApart(list, byInstance)
    requires if byInstance then rec.Ptr? || !MakesResult(w, rec) else rec.Srv? || !MakesResult(w, rec)
    ensures AllApart(Added(w, list, rec, pair, ttl), byInstance)
  {}

  function Collect(w: Wanted, list: seq<Result>, arrivals: seq<Arrival>): seq<Result>
    decreases |arrivals|
  {
    if arrivals == [] then list
    else Collect(w, Added(w, list, arrivals[0].rec, arrivals[0].pair, arrivals[0].ttl), arrivals[1..])
  }

  lemma {:induction false} CollectedFrom(w: Wanted, list: seq<Result>, arrivals: seq<Arrival>)
    requires ListOk(w, list)
    ensures ListOk(w, Collect(w, list, arrivals))
    decreases |arrivals|
  {
    if arrivals != [] {
      AddedOk(w, list, arrivals[0].rec, arrivals[0].pair, arrivals[0].ttl);
      CollectedFrom(w, Added(w, list, arrivals[0].rec, arrivals[0].pair, arrivals[0].ttl), arrivals[1..]);
    }
  }

  /** Every search, over every sequence of arrivals: the lifetime of a result is the least of those
      of its records, its addresses are exactly those that came for it, each once, its items are
      the first that came, and all else is from the record that made it. */
  lemma SearchesStayInOrder(w: Wanted, arrivals: seq<Arrival>, r: Result)
    requires r in Collect(w, [], arrivals)
    ensures w.maxResults > 0 ==> |Collect(w, [], arrivals)| <= w.maxResults
    ensures forall x :: x in r.seen ==> x in arrivals && x.pair == r.pair
    ensures LeastLifetime(r) && AddressesOfSeen(r) && FirstItems(r)
    ensures r.seen != [] && NamedByFirst(w, r)
  {
    CollectedFrom(w, [], arrivals);
    SeenArrived(w, [], arrivals, r);
  }

  /** What is noted at a result arrived. */
  lemma {:induction false} SeenArrived(w: Wanted, list: seq<Result>, arrivals: seq<Arrival>, r: Result)
    requires r in Collect(w, list, arrivals)
    ensures forall x :: x in r.seen ==> x in arrivals || exists o :: o in list && x in o.seen
    decreases |arrivals|
  {
    if arrivals == [] {
    } else {
      var a := arrivals[0];
      var more := Added(w, list, a.rec, a.pair, a.ttl);
      SeenArrived(w, more, arrivals[1..], r);
      forall o, x | o in more && x in o.seen
        ensures x == a || exists o' :: o' in list && x in o'.seen
      {
        SeenByStep(w, list, a, o, x);
      }
    }
  }

  lemma SeenByStep(w: Wanted, list: seq<Result>, a: Arrival, o: Result, x: Arrival)
    requires o in Added(w, list, a.rec, a.pair, a.ttl) && x in o.seen
    ensures x == a || exists o' :: o' in list && x in o'.seen
  {
    var i := Position(w, list, a.rec, a.pair);
    if i < |list| {
      assert list[i] in list;
    }
  }

  predicate OnlyPtr(w: Wanted, arrivals: seq<Arrival>) {
    forall i :: 0 <= i < |arrivals| ==> arrivals[i].rec.Ptr? || !MakesResult(w, arrivals[i].rec)
  }

  lemma {:induction false} InstancesStayApart(w: Wanted, list: seq<Result>, arrivals: seq<Arrival>)
    requires AllApart(list, true) && OnlyPtr(w, arrivals)
    ensures AllApart(Collect(w, list, arrivals), true)
    decreases |arrivals|
  {
    if arrivals != [] {
      AddedApart(w, list, arrivals[0].rec, arrivals[0].pair, arrivals[0].ttl, true);
      InstancesStayApart(w, Added(w, list, arrivals[0].rec, arrivals[0].pair, arrivals[0].ttl), arrivals[1..]);
    }
  }

  // ---------------------------------------------------------------- the search in place

  /** mdns_search_once_t. */
  class Search {
    const wanted: Wanted
    var result: seq<Result>
    var numResults: nat

    ghost predicate Valid()
      reads this
    {
      numResults == |result| && ListOk(wanted, result)
    }

    constructor (wanted: Wanted)
      ensures Valid() && result == [] && this.wanted == wanted
    {
      this.wanted, result, numResults := wanted, [], 0;
    }

    /** The loop all four functions start with. */
    method Find(rec: Record, pair: Pair) returns (i: nat)
      ensures i == Position(wanted, result, rec, pair)
    {
      i := 0;
      while i < |result| && !Belongs(wanted, result[i], rec, pair)
        invariant 0 <= i <= |result|
        invariant Position(wanted, result, rec, pair) == i + Position(wanted, result[i..], rec, pair)
      {
        assert result[i..][1..] == result[i + 1..];
        i := i + 1;
      }
    }

    method Insert(r: Result)
      modifies this
      ensures result == (if Room(wanted, old(numResults)) then [r] else []) + old(result)
      ensures numResults == old(numResults) + if Room(wanted, old(numResults)) then 1 else 0
    {
      if wanted.maxResults == 0 || numResults < wanted.maxResults {
        result := [r] + result;
        numResults := numResults + 1;
      }
    }

    /** mdns_priv_query_result_add_ptr. */
    method AddPtr(instance: bytes, kind: bytes, proto: bytes, pair: Pair, ttl: nat)
      requires Valid()
      modifies this
      ensures Valid() && result == Added(wanted, old(result), Ptr(instance, kind, proto), pair, ttl)
    {
      var rec := Ptr(instance, kind, proto);
      AddedOk(wanted, result, rec, pair, ttl);
      var i := Find(rec, pair);
      if i < |result| {
        result := result[i := Noted(Shorten(result[i], ttl), rec, ttl)];
      } else {
        Insert(NewResult(wanted, rec, pair, ttl));
      }
    }

    /** mdns_priv_query_result_add_srv. */
    method AddSrv(hostname: bytes, port: nat, pair: Pair, ttl: nat)
      requires Valid()
      modifies this
      ensures Valid() && result == Added(wanted, old(result), Srv(hostname, port), pair, ttl)
    {
      var rec := Srv(hostname, port);
      AddedOk(wanted, result, rec, pair, ttl);
      var i := Find(rec, pair);
      if i < |result| {
        result := result[i := Noted(Shorten(result[i], ttl), rec, ttl)];
      } else {
        Insert(NewResult(wanted, rec, pair, ttl));
      }
    }

    /** mdns_priv_query_result_add_txt. */
    method AddTxt(items: bytes, pair: Pair, ttl: nat)
      requires Valid()
      modifies this
      ensures Valid() && result == Added(wanted, old(result), Txt(items), pair, ttl)
    {
      var rec := Txt(items);
      AddedOk(wanted, result, rec, pair, ttl);
      var i := Find(rec, pair);
      if i < |result| {
        var r := result[i];
        if r.txt == None {
          r := Shorten(r.(txt := Some(items)), ttl);
        }
        result := result[i := Noted(r, rec, ttl)];
      } else {
        Insert(NewResult(wanted, rec, pair, ttl));
      }
    }

    /** mdns_priv_query_result_add_ip. */
    method AddIp(hostname: bytes, address: bytes, pair: Pair, ttl: nat)
      requires Valid()
      modifies this
      ensures Valid() && result == Added(wanted, old(result), Ip(hostname, address), pair, ttl)
    {
      var rec := Ip(hostname, address);
      AddedOk(wanted, result, rec, pair, ttl);
      var i := Find(rec, pair);
      if i < |result| {
        var addresses := AddOnce(result[i].addresses, address);
        result := result[i := Noted(Shorten(result[i].(addresses := addresses), ttl), rec, ttl)];
      } else if AddressWanted(wanted.kind, address) {
        Insert(NewResult(wanted, rec, pair, ttl));
      }
    }
  }

  /** The loop of result_add_ip. */
  method AddOnce(list: seq<bytes>, address: bytes) returns (r: seq<bytes>)
    ensures r == AddAddress(list, address)
  {
    for i := 0 to |list|
      invariant address !in list[..i]
    {
      if list[i] == address {
        return list;
      }
    }
    r := [address] + list;
  }
}
