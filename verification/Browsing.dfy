/** What a running browse collects, and what it reports (mdns_browser.c). */
module Browsing {
  import opened Bytes
  import opened Packets
  import Queries

  datatype Item = Item(key: bytes, value: bytes)

  /** mdns_result_t; id stands for its address. */
  datatype Found = Found(id: nat, pair: Pair, instance: bytes, kind: bytes, proto: bytes, hostname: Option<bytes>,
                         port: nat, txt: Option<seq<Item>>, addresses: seq<bytes>, ttl: nat)

  /** The results of a browse, and the ids of those to report once the packet has been read. */
  datatype State = State(results: seq<Found>, sync: seq<nat>)

  // ---------------------------------------------------------------- single steps

  /** The key of a result: a blank part is never found again. */
  predicate SameKey(f: Found, pair: Pair, instance: bytes, kind: bytes, proto: bytes) {
    && f.pair == pair && f.instance != [] && f.kind != [] && f.proto != []
    && SameText(instance, f.instance) && SameText(kind, f.kind) && SameText(proto, f.proto)
  }

  predicate OnHost(f: Found, hostname: bytes) {
    f.hostname.Some? && f.hostname.value != [] && SameText(hostname, f.hostname.value)
  }

  /** A lifetime of 0 says goodbye; it gives way to any later one. */
  function NewTtl(known: nat, ttl: nat): nat {
    if known == 0 then ttl else Queries.Least(known, ttl)
  }

  /** add_browse_result. */
  function Report(sync: seq<nat>, id: nat): seq<nat> {
    if id in sync then sync else [id] + sync
  }

  function FirstKey(list: seq<Found>, pair: Pair, instance: bytes, kind: bytes, proto: bytes): (i: nat)
    ensures i <= |list| && (i < |list| ==> SameKey(list[i], pair, instance, kind, proto))
    ensures forall j :: 0 <= j < i ==> !SameKey(list[j], pair, instance, kind, proto)
  {
    if list == [] || SameKey(list[0], pair, instance, kind, proto) then 0
    else
      assert forall j :: 1 <= j < |list| ==> list[j] == list[1..][j - 1];
      1 + FirstKey(list[1..], pair, instance, kind, proto)
  }

  predicate Lacks(f: Found, hostname: bytes, address: bytes, pair: Pair) {
    f.pair == pair && OnHost(f, hostname) && address !in f.addresses
  }

  /** The first result of the host that does not have the address yet. */
  function FirstLacking(list: seq<Found>, hostname: bytes, address: bytes, pair: Pair): (i: nat)
    ensures i <= |list| && (i < |list| ==> Lacks(list[i], hostname, address, pair))
    ensures forall j :: 0 <= j < i ==> !Lacks(list[j], hostname, address, pair)
  {
    if list == [] || Lacks(list[0], hostname, address, pair) then 0
    else
      assert forall j :: 1 <= j < |list| ==> list[j] == list[1..][j - 1];
      1 + FirstLacking(list[1..], hostname, address, pair)
  }

  /** copy_address_in_previous_result: the addresses of the first result of that host and protocol
      that has any. */
  function KnownAddresses(list: seq<Found>, hostname: bytes, v6: bool): seq<bytes> {
    if list == [] then []
    else if OnHost(list[0], hostname) && list[0].pair.v6 == v6 && list[0].addresses != [] then list[0].addresses
    else KnownAddresses(list[1..], hostname, v6)
  }

  predicate ItemListed(item: Item, list: seq<Item>) {
    list != [] && (if item.key == list[0].key then item.value == list[0].value else ItemListed(item, list[1..]))
  }

  /** The items of a TXT record: None stands for the null pointer that the parser leaves when it
      counts no items. */
  function ItemsOf(txt: Option<seq<Item>>): seq<Item> {
    if txt == None then [] else txt.value
  }

  /** Whether the TXT items differ from those known, as the program compares them. */
  predicate TxtChanged(before: Option<seq<Item>>, txt: Option<seq<Item>>) {
    var items := ItemsOf(txt);
    before.Some? && (|items| != |before.value| || exists i :: 0 <= i < |items| && !ItemListed(items[i], before.value))
  }

  // ---------------------------------------------------------------- the three functions

  /** mdns_priv_browse_result_add_ip. */
  function AddIp(s: State, hostname: bytes, address: bytes, pair: Pair, ttl: nat): State {
    var i := FirstLacking(s.results, hostname, address, pair);
    if i == |s.results| then s
    else
      var f := s.results[i];
      var g := f.(addresses := [address] + f.addresses, ttl := NewTtl(f.ttl, ttl));
      State(s.results[i := g], Report(s.sync, f.id))
  }

  /** mdns_priv_browse_result_add_txt. */
  function AddTxt(s: State, instance: bytes, kind: bytes, proto: bytes, txt: Option<seq<Item>>, pair: Pair, ttl: nat, id: nat): State {
    var i := FirstKey(s.results, pair, instance, kind, proto);
    if i == |s.results| then
      State([Found(id, pair, instance, kind, proto, None, 0, txt, [], ttl)] + s.results, Report(s.sync, id))
    else
      var f := s.results[i];
      var g := f.(txt := txt, ttl := NewTtl(f.ttl, ttl));
      State(s.results[i := g], if TxtChanged(f.txt, txt) || f.ttl != g.ttl then Report(s.sync, f.id) else s.sync)
  }

  /** mdns_priv_browse_result_add_srv. */
  function AddSrv(s: State, hostname: bytes, instance: bytes, kind: bytes, proto: bytes, port: nat, pair: Pair, ttl: nat, id: nat): State {
    var i := FirstKey(s.results, pair, instance, kind, proto);
    if i == |s.results| then
      State([Found(id, pair, instance, kind, proto, Some(hostname), port, None, [], ttl)] + s.results, Report(s.sync, id))
    else
      var f := s.results[i];
      var moved := f.hostname == None || f.hostname.value == [] || !SameText(hostname, f.hostname.value);
      var h :=
        if !moved then f
        else
          f.(hostname := Some(hostname), port := port,
             addresses := if f.addresses == [] && hostname != [] then KnownAddresses(s.results, hostname, pair.v6) else f.addresses);
      var g := h.(ttl := NewTtl(h.ttl, ttl));
      State(s.results[i := g], if moved || f.ttl != g.ttl then Report(s.sync, f.id) else s.sync)
  }

  /** browse_sync: whoever has said goodbye is reported a last time and goes. */
  function Sync(s: State): State {
    State(Remaining(s.results, s.sync), [])
  }

  function Remaining(list: seq<Found>, sync: seq<nat>): seq<Found> {
    if list == [] then []
    else (if list[0].id in sync && list[0].ttl == 0 then [] else [list[0]]) + Remaining(list[1..], sync)
  }

  // ---------------------------------------------------------------- the invariant

  predicate KeysApart(list: seq<Found>) {
    forall i, j :: 0 <= i < j < |list| ==> !SameKey(list[j], list[i].pair, list[i].instance, list[i].kind, list[i].proto)
  }

  predicate IdsApart(list: seq<Found>) {
    forall i, j :: 0 <= i < j < |list| ==> list[i].id != list[j].id
  }

  predicate SyncOk(s: State) {
    && (forall i, j :: 0 <= i < j < |s.sync| ==> s.sync[i] != s.sync[j])
    && (forall id :: id in s.sync ==> exists i :: 0 <= i < |s.results| && s.results[i].id == id)
    && (forall i :: 0 <= i < |s.results| && s.results[i].ttl == 0 ==> s.results[i].id in s.sync)
  }

  /** No service instance is listed twice on a pair, no address twice in a result, nothing is
      reported twice, and whoever has said goodbye will be reported. */
  predicate Ok(s: State) {
    && KeysApart(s.results) && IdsApart(s.results) && SyncOk(s)
    && forall i :: 0 <= i < |s.results| ==> Queries.NoRepeat(s.results[i].addresses)
  }

  lemma ReportOk(s: State, i: nat, g: Found, reported: bool)
    requires Ok(s) && i < |s.results|
    requires g.id == s.results[i].id && g.pair == s.results[i].pair && Queries.NoRepeat(g.addresses)
    requires g.instance == s.results[i].instance && g.kind == s.results[i].kind && g.proto == s.results[i].proto
    requires !reported ==> g.ttl == s.results[i].ttl
    ensures Ok(State(s.results[i := g], if reported then Report(s.sync, g.id) else s.sync))
  {
    var t := State(s.results[i := g], if reported then Report(s.sync, g.id) else s.sync);
    forall id | id in t.sync
      ensures exists j :: 0 <= j < |t.results| && t.results[j].id == id
    {
      if id in s.sync {
        var j :| 0 <= j < |s.results| && s.results[j].id == id;
        assert t.results[j].id == id;
      } else {
        assert t.results[i].id == id;
      }
    }
    assert forall x :: x in t.sync <==> x in s.sync || (reported && x == g.id);
    assert t.sync == s.sync || (forall j :: 1 <= j < |t.sync| ==> t.sync[j] == s.sync[j - 1]);
  }

  lemma NewOk(s: State, f: Found)
    requires Ok(s) && f.addresses == [] && forall i :: 0 <= i < |s.results| ==> s.results[i].id != f.id
    requires FirstKey(s.results, f.pair, f.instance, f.kind, f.proto) == |s.results|
    ensures Ok(State([f] + s.results, Report(s.sync, f.id)))
  {
    var t := State([f] + s.results, Report(s.sync, f.id));
    assert f.id !in s.sync;
    assert forall j :: 1 <= j < |t.results| ==> t.results[j] == s.results[j - 1];
    assert forall j :: 1 <= j < |t.sync| ==> t.sync[j] == s.sync[j - 1];
    forall id | id in t.sync
      ensures exists j :: 0 <= j < |t.results| && t.results[j].id == id
    {
      if id == f.id {
        assert t.results[0].id == id;
      } else {
        assert id in s.sync;
        var j :| 0 <= j < |s.results| && s.results[j].id == id;
        assert t.results[j + 1].id == id;
      }
    }
  }

  lemma {:induction false} KnownAddressesOk(list: seq<Found>, hostname: bytes, v6: bool)
    requires forall i :: 0 <= i < |list| ==> Queries.NoRepeat(list[i].addresses)
    ensures Queries.NoRepeat(KnownAddresses(list, hostname, v6))
  {
    if list != [] {
      KnownAddressesOk(list[1..], hostname, v6);
    }
  }

  predicate Unused(s: State, id: nat) {
    forall i :: 0 <= i < |s.results| ==> s.results[i].id != id
  }

  lemma AddIpOk(s: State, hostname: bytes, address: bytes, pair: Pair, ttl: nat)
    requires Ok(s)
    ensures Ok(AddIp(s, hostname, address, pair, ttl))
  {
    var i := FirstLacking(s.results, hostname, address, pair);
    if i < |s.results| {
      var f := s.results[i];
      var more := [address] + f.addresses;
      assert forall j :: 1 <= j < |more| ==> more[j] == f.addresses[j - 1];
      ReportOk(s, i, f.(addresses := more, ttl := NewTtl(f.ttl, ttl)), true);
    }
  }

  lemma AddTxtOk(s: State, instance: bytes, kind: bytes, proto: bytes, txt: Option<seq<Item>>, pair: Pair, ttl: nat, id: nat)
    requires Ok(s) && Unused(s, id)
    ensures Ok(AddTxt(s, instance, kind, proto, txt, pair, ttl, id))
  {
    var i := FirstKey(s.results, pair, instance, kind, proto);
    if i == |s.results| {
      NewOk(s, Found(id, pair, instance, kind, proto, None, 0, txt, [], ttl));
    } else {
      var f := s.results[i];
      var g := f.(txt := txt, ttl := NewTtl(f.ttl, ttl));
      ReportOk(s, i, g, TxtChanged(f.txt, txt) || f.ttl != g.ttl);
    }
  }

  lemma AddSrvOk(s: State, hostname: bytes, instance: bytes, kind: bytes, proto: bytes, port: nat, pair: Pair, ttl: nat, id: nat)
    requires Ok(s) && Unused(s, id)
    ensures Ok(AddSrv(s, hostname, instance, kind, proto, port, pair, ttl, id))
  {
    hide KeysApart, IdsApart, SyncOk, SameKey;
    var i := FirstKey(s.results, pair, instance, kind, proto);
    if i == |s.results| {
      NewOk(s, Found(id, pair, instance, kind, proto, Some(hostname), port, None, [], ttl));
    } else {
      KnownAddressesOk(s.results, hostname, pair.v6);
      var f := s.results[i];
      var moved := f.hostname == None || f.hostname.value == [] || !SameText(hostname, f.hostname.value);
      var g := AddSrv(s, hostname, instance, kind, proto, port, pair, ttl, id).results[i];
      ReportOk(s, i, g, moved || f.ttl != g.ttl);
    }
  }

  lemma {:induction false} RemainingMembers(list: seq<Found>, sync: seq<nat>, f: Found)
    ensures f in Remaining(list, sync) <==> f in list && !(f.id in sync && f.ttl == 0)
  {
    if list != [] {
      RemainingMembers(list[1..], sync, f);
    }
  }

  lemma {:induction false} RemainingApart(list: seq<Found>, sync: seq<nat>)
    requires KeysApart(list) && IdsApart(list)
    ensures KeysApart(Remaining(list, sync)) && IdsApart(Remaining(list, sync))
  {
    hide SameKey;
    if list != [] {
      var rest := Remaining(list[1..], sync);
      assert forall j :: 1 <= j < |list| ==> list[j] == list[1..][j - 1];
      RemainingApart(list[1..], sync);
      forall f | f in rest
        ensures f.id != list[0].id && !SameKey(f, list[0].pair, list[0].instance, list[0].kind, list[0].proto)
      {
        RemainingMembers(list[1..], sync, f);
        var j :| 0 <= j < |list[1..]| && list[1..][j] == f;
        assert list[j + 1] == f;
      }
      var r := Remaining(list, sync);
      if r != rest {
        assert r == [list[0]] + rest;
        assert forall j :: 1 <= j < |r| ==> r[j] == rest[j - 1] && rest[j - 1] in rest;
      }
    }
  }

  /** After the report nobody is left who has said goodbye, and nobody else has gone. */
  lemma SyncClearsGoodbyes(s: State)
    requires Ok(s)
    ensures Ok(Sync(s))
    ensures forall f :: f in Sync(s).results <==> f in s.results && f.ttl != 0
  {
    var t := Sync(s);
    RemainingApart(s.results, s.sync);
    forall f
      ensures f in t.results <==> f in s.results && f.ttl != 0
    {
      RemainingMembers(s.results, s.sync, f);
      if f in s.results && f.ttl == 0 {
        var i :| 0 <= i < |s.results| && s.results[i] == f;
        assert s.results[i].id in s.sync;
      }
    }
    forall i | 0 <= i < |t.results|
      ensures Queries.NoRepeat(t.results[i].addresses) && t.results[i].ttl != 0
    {
      assert t.results[i] in t.results && t.results[i] in s.results;
    }
  }

  // ---------------------------------------------------------------- over whole runs

  datatype Step =
    | IpStep(hostname: bytes, address: bytes, pair: Pair, ttl: nat)
    | TxtStep(instance: bytes, kind: bytes, proto: bytes, txt: Option<seq<Item>>, pair: Pair, ttl: nat, id: nat)
    | SrvStep(hostname: bytes, instance: bytes, kind: bytes, proto: bytes, port: nat, pair: Pair, ttl: nat, id: nat)
    | SyncStep

  function Apply(s: State, step: Step): State {
    match step
    case IpStep(hostname, address, pair, ttl) => AddIp(s, hostname, address, pair, ttl)
    case TxtStep(instance, kind, proto, txt, pair, ttl, id) => AddTxt(s, instance, kind, proto, txt, pair, ttl, id)
    case SrvStep(hostname, instance, kind, proto, port, pair, ttl, id) => AddSrv(s, hostname, instance, kind, proto, port, pair, ttl, id)
    case SyncStep => Sync(s)
  }

  /** Addresses of new results are not in use. */
  predicate Possible(s: State, steps: seq<Step>)
    decreases |steps|
  {
    steps == []
    || ((steps[0].TxtStep? || steps[0].SrvStep? ==> Unused(s, steps[0].id)) && Possible(Apply(s, steps[0]), steps[1..]))
  }

  function Run(s: State, steps: seq<Step>): State
    decreases |steps|
  {
    if steps == [] then s else Run(Apply(s, steps[0]), steps[1..])
  }

  lemma {:induction false} RunOk(s: State, steps: seq<Step>)
    requires Ok(s) && Possible(s, steps)
    ensures Ok(Run(s, steps))
    decreases |steps|
  {
    hide Ok, AddIp, AddTxt, AddSrv, Sync;
    if steps != [] {
      match steps[0] {
        case IpStep(hostname, address, pair, ttl) => AddIpOk(s, hostname, address, pair, ttl);
        case TxtStep(instance, kind, proto, txt, pair, ttl, id) => AddTxtOk(s, instance, kind, proto, txt, pair, ttl, id);
        case SrvStep(hostname, instance, kind, proto, port, pair, ttl, id) =>
          AddSrvOk(s, hostname, instance, kind, proto, port, pair, ttl, id);
        case SyncStep => SyncClearsGoodbyes(s);
      }
      RunOk(Apply(s, steps[0]), steps[1..]);
    }
  }

  /** Every browse, over every sequence of records and reports: two results of one pair never name
      the same instance of the same service, unless a part of the name is blank. */
  lemma BrowsesStayInOrder(steps: seq<Step>, i: nat, j: nat)
    requires Possible(State([], []), steps)
    requires i < j < |Run(State([], []), steps).results|
    ensures var list := Run(State([], []), steps).results; var a, b := list[i], list[j];
            && a.id != b.id && Queries.NoRepeat(a.addresses)
            && (a.pair == b.pair && b.instance != [] && b.kind != [] && b.proto != [] ==>
                  !(SameText(a.instance, b.instance) && SameText(a.kind, b.kind) && SameText(a.proto, b.proto)))
  {
    RunOk(State([], []), steps);
  }

  // ---------------------------------------------------------------- what goes unreported

  /** A result is new or has changed, and will not be reported. */
  predicate Unreported(s: State, t: State) {
    exists f :: f in t.results && f !in s.results && f.id !in t.sync
  }

  /** The result a TXT record is for gets different items, which the comparison takes for the
      same: it had none so far, or each new one is among the old ones and there are as many. */
  predicate MissesTxt(s: State, step: Step) {
    step.TxtStep? &&
    var i := FirstKey(s.results, step.pair, step.instance, step.kind, step.proto);
    && i < |s.results|
    && var f := s.results[i];
       && f.txt != step.txt && !TxtChanged(f.txt, step.txt)
       && NewTtl(f.ttl, step.ttl) == f.ttl && f.id !in s.sync
  }

  lemma ReplacedReported(s: State, i: nat, g: Found, sync: seq<nat>)
    requires IdsApart(s.results) && i < |s.results| && g.id == s.results[i].id
    requires sync == s.sync || sync == Report(s.sync, g.id)
    ensures Unreported(s, State(s.results[i := g], sync)) <==> g != s.results[i] && g.id !in sync
  {
    var t := State(s.results[i := g], sync);
    assert t.results[i] == g;
    forall f | f in t.results && f != g
      ensures f in s.results
    {
      var j :| 0 <= j < |t.results| && t.results[j] == f;
      assert s.results[j] == f;
    }
    if g in s.results {
      var j :| 0 <= j < |s.results| && s.results[j] == g;
      assert j == i;
    }
  }

  lemma NewReported(s: State, f: Found)
    ensures !Unreported(s, State([f] + s.results, Report(s.sync, f.id)))
  {
    var t := State([f] + s.results, Report(s.sync, f.id));
    assert forall x :: x in t.results ==> x == f || x in s.results;
    assert f.id in t.sync;
  }

  lemma {:induction false} RemainingWithin(list: seq<Found>, sync: seq<nat>)
    ensures forall f :: f in Remaining(list, sync) ==> f in list
  {
    forall f | f in Remaining(list, sync)
      ensures f in list
    {
      RemainingMembers(list, sync, f);
    }
  }

  /** Every new result and every change of one will be reported, whatever the step, but for the
      TXT items that the comparison misses. */
  lemma ReportedExactly(s: State, step: Step)
    requires IdsApart(s.results)
    ensures Unreported(s, Apply(s, step)) <==> MissesTxt(s, step)
  {
    hide IdsApart, Unreported, TxtChanged, SameKey, KnownAddresses;
    match step {
      case IpStep(hostname, address, pair, ttl) =>
        IpReported(s, hostname, address, pair, ttl);
      case TxtStep(instance, kind, proto, txt, pair, ttl, id) =>
        var i := FirstKey(s.results, pair, instance, kind, proto);
        if i == |s.results| {
          NewReported(s, Found(id, pair, instance, kind, proto, None, 0, txt, [], ttl));
        } else {
          var f := s.results[i];
          var g := f.(txt := txt, ttl := NewTtl(f.ttl, ttl));
          ReplacedReported(s, i, g, Apply(s, step).sync);
        }
      case SrvStep(hostname, instance, kind, proto, port, pair, ttl, id) =>
        var i := FirstKey(s.results, pair, instance, kind, proto);
        if i == |s.results| {
          NewReported(s, Found(id, pair, instance, kind, proto, Some(hostname), port, None, [], ttl));
        } else {
          var t := Apply(s, step);
          ReplacedReported(s, i, t.results[i], t.sync);
        }
      case SyncStep =>
        RemainingWithin(s.results, s.sync);
        SyncReports(s);
    }
  }

  lemma IpReported(s: State, hostname: bytes, address: bytes, pair: Pair, ttl: nat)
    requires IdsApart(s.results)
    ensures !Unreported(s, AddIp(s, hostname, address, pair, ttl))
  {
    var i := FirstLacking(s.results, hostname, address, pair);
    if i < |s.results| {
      var f := s.results[i];
      var g := f.(addresses := [address] + f.addresses, ttl := NewTtl(f.ttl, ttl));
      ReplacedReported(s, i, g, Report(s.sync, f.id));
    }
  }

  lemma SyncReports(s: State)
    requires forall f :: f in Remaining(s.results, s.sync) ==> f in s.results
    ensures !Unreported(s, Sync(s))
  {}

  /** The first TXT record of a result is missed unless it brings a shorter lifetime. */
  lemma FirstTxtMissed(s: State, f: Found, items: seq<Item>)
    requires s == State([f], []) && f.txt == None && f.instance != [] && f.kind != [] && f.proto != []
    ensures MissesTxt(s, TxtStep(f.instance, f.kind, f.proto, Some(items), f.pair, f.ttl, f.id))
  {}

  /** So is a key that gives way to a repetition of another one. */
  lemma LostKeyMissed(s: State, f: Found, x: Item, y: Item)
    requires s == State([f], []) && f.txt == Some([x, y]) && x.key != y.key
    requires f.instance != [] && f.kind != [] && f.proto != []
    ensures MissesTxt(s, TxtStep(f.instance, f.kind, f.proto, Some([x, x]), f.pair, f.ttl, f.id))
  {
    assert [x, y][0] == x && [x, x][1] == x;
    assert forall i :: 0 <= i < 2 ==> ItemListed([x, x][i], [x, y]);
  }

  /** An SRV record sets the port of a result exactly when the result is new or changes its
      host: a service that moves to another port of the same host keeps the old one. */
  lemma PortTaken(s: State, hostname: bytes, instance: bytes, kind: bytes, proto: bytes, port: nat, pair: Pair, ttl: nat, id: nat)
    ensures var t := AddSrv(s, hostname, instance, kind, proto, port, pair, ttl, id);
            var i := FirstKey(s.results, pair, instance, kind, proto);
            if i == |s.results| then t.results[0].port == port
            else
              var f := s.results[i];
              t.results[i].port == port <==> f.port == port || !OnHost(f, hostname)
  {}

  // ---------------------------------------------------------------- what is stored

  /** The lifetime after a record: the least of both, but a goodbye gives way. */
  predicate Lasts(before: nat, after: nat, ttl: nat) {
    after in {before, ttl} && (before == 0 ==> after == ttl) && (before > 0 ==> after <= before && after <= ttl)
  }

  predicate OthersStay(before: seq<Found>, after: seq<Found>, i: nat) {
    |after| == |before| && forall j :: 0 <= j < |before| && j != i ==> after[j] == before[j]
  }

  predicate ServesHost(f: Found, hostname: bytes, pair: Pair) {
    f.pair == pair && f.hostname.Some? && f.hostname.value != [] && SameText(hostname, f.hostname.value)
  }

  /** An address goes in front of those of the first result of its host and pair that does not have
      it, and of that one only; if there is none, nothing changes. */
  lemma IpStored(s: State, hostname: bytes, address: bytes, pair: Pair, ttl: nat, i: nat)
    requires i < |s.results| && ServesHost(s.results[i], hostname, pair) && address !in s.results[i].addresses
    requires forall j :: 0 <= j < i && ServesHost(s.results[j], hostname, pair) ==> address in s.results[j].addresses
    ensures var t := AddIp(s, hostname, address, pair, ttl); var f, g := s.results[i], t.results[i];
            && OthersStay(s.results, t.results, i) && Lasts(f.ttl, g.ttl, ttl)
            && g == f.(addresses := [address] + f.addresses, ttl := g.ttl)
  {
    assert Lacks(s.results[i], hostname, address, pair);
    assert forall j :: 0 <= j < i ==> !Lacks(s.results[j], hostname, address, pair);
    assert FirstLacking(s.results, hostname, address, pair) == i;
  }

  lemma IpIgnored(s: State, hostname: bytes, address: bytes, pair: Pair, ttl: nat)
    requires forall f :: f in s.results && ServesHost(f, hostname, pair) ==> address in f.addresses
    ensures AddIp(s, hostname, address, pair, ttl) == s
  {
    assert forall j :: 0 <= j < |s.results| ==> s.results[j] in s.results && !Lacks(s.results[j], hostname, address, pair);
  }

  /** Result i is the first one a record of this name is for. */
  predicate IsFirst(list: seq<Found>, i: nat, pair: Pair, instance: bytes, kind: bytes, proto: bytes) {
    && i < |list| && SameKey(list[i], pair, instance, kind, proto)
    && forall j :: 0 <= j < i ==> !SameKey(list[j], pair, instance, kind, proto)
  }

  predicate NoneIs(list: seq<Found>, pair: Pair, instance: bytes, kind: bytes, proto: bytes) {
    forall j :: 0 <= j < |list| ==> !SameKey(list[j], pair, instance, kind, proto)
  }

  /** TXT items replace those of the result they are for, and nothing else. */
  lemma TxtStored(s: State, instance: bytes, kind: bytes, proto: bytes, txt: Option<seq<Item>>, pair: Pair, ttl: nat, id: nat, i: nat)
    requires IsFirst(s.results, i, pair, instance, kind, proto)
    ensures var t := AddTxt(s, instance, kind, proto, txt, pair, ttl, id); var f, g := s.results[i], t.results[i];
            && OthersStay(s.results, t.results, i) && Lasts(f.ttl, g.ttl, ttl)
            && g == f.(txt := txt, ttl := g.ttl)
  {
    assert FirstKey(s.results, pair, instance, kind, proto) == i;
  }

  /** An SRV record changes host and port of the result it is for if the host is another one; a
      result without addresses then takes those of the first result of the new host and the same
      protocol that has any. */
  lemma SrvStored(s: State, hostname: bytes, instance: bytes, kind: bytes, proto: bytes, port: nat, pair: Pair, ttl: nat, id: nat, i: nat)
    requires IsFirst(s.results, i, pair, instance, kind, proto)
    ensures var t := AddSrv(s, hostname, instance, kind, proto, port, pair, ttl, id); var f, g := s.results[i], t.results[i];
            && OthersStay(s.results, t.results, i) && Lasts(f.ttl, g.ttl, ttl)
            && g == f.(hostname := g.hostname, port := g.port, addresses := g.addresses, ttl := g.ttl)
            && (if OnHost(f, hostname) then g == f.(ttl := g.ttl)
                else
                  && g.hostname == Some(hostname) && g.port == port
                  && (if f.addresses != [] || hostname == [] then g.addresses == f.addresses
                      else AddressesOfFirst(s.results, hostname, pair.v6, g.addresses)))
  {
    assert FirstKey(s.results, pair, instance, kind, proto) == i;
    KnownAddressesAreFirst(s.results, hostname, pair.v6);
  }

  /** A record that no result is for comes first as a new one that holds what it says. */
  lemma NewStored(s: State, hostname: bytes, instance: bytes, kind: bytes, proto: bytes, port: nat,
                  txt: Option<seq<Item>>, pair: Pair, ttl: nat, id: nat)
    requires NoneIs(s.results, pair, instance, kind, proto)
    ensures var t := AddTxt(s, instance, kind, proto, txt, pair, ttl, id);
            t.results != [] && t.results[1..] == s.results && id in t.sync
            && t.results[0] == Found(id, pair, instance, kind, proto, None, 0, txt, [], ttl)
    ensures var t := AddSrv(s, hostname, instance, kind, proto, port, pair, ttl, id);
            t.results != [] && t.results[1..] == s.results && id in t.sync
            && t.results[0] == Found(id, pair, instance, kind, proto, Some(hostname), port, None, [], ttl)
  {
    assert FirstKey(s.results, pair, instance, kind, proto) == |s.results|;
  }

  predicate HasHostAddresses(f: Found, hostname: bytes, v6: bool) {
    && f.hostname.Some? && f.hostname.value != [] && SameText(hostname, f.hostname.value)
    && f.pair.v6 == v6 && f.addresses != []
  }

  ghost predicate AddressesOfFirst(list: seq<Found>, hostname: bytes, v6: bool, addresses: seq<bytes>) {
    if forall f :: f in list ==> !HasHostAddresses(f, hostname, v6) then addresses == []
    else exists i :: 0 <= i < |list| && HasHostAddresses(list[i], hostname, v6) && addresses == list[i].addresses
           && forall j :: 0 <= j < i ==> !HasHostAddresses(list[j], hostname, v6)
  }

  lemma {:induction false} KnownAddressesAreFirst(list: seq<Found>, hostname: bytes, v6: bool)
    ensures AddressesOfFirst(list, hostname, v6, KnownAddresses(list, hostname, v6))
  {
    if list != [] && !HasHostAddresses(list[0], hostname, v6) {
      var rest := list[1..];
      KnownAddressesAreFirst(rest, hostname, v6);
      if exists f :: f in rest && HasHostAddresses(f, hostname, v6) {
        var i :| 0 <= i < |rest| && HasHostAddresses(rest[i], hostname, v6)
                 && KnownAddresses(list, hostname, v6) == rest[i].addresses
                 && forall j :: 0 <= j < i ==> !HasHostAddresses(rest[j], hostname, v6);
        assert list[i + 1] == rest[i];
        assert forall j :: 1 <= j < i + 1 ==> list[j] == rest[j - 1];
      }
    }
  }

  predicate KeysDiffer(list: seq<Item>) {
    forall i, j :: 0 <= i < j < |list| ==> list[i].key != list[j].key
  }

  /** In a list that repeats no key, an item is listed if it is there. */
  lemma {:induction false} ListedIsMember(item: Item, list: seq<Item>)
    requires KeysDiffer(list)
    ensures ItemListed(item, list) <==> item in list
  {
    if list != [] {
      assert KeysDiffer(list[1..]);
      ListedIsMember(item, list[1..]);
      if item in list[1..] {
        var j :| 0 <= j < |list[1..]| && list[1..][j] == item;
        assert list[j + 1] == item && list[0].key != item.key;
      }
    }
  }

  function Members(list: seq<Item>): set<Item> {
    set x | x in list
  }

  lemma {:induction false} CountMembers(list: seq<Item>)
    requires KeysDiffer(list)
    ensures |Members(list)| == |list|
  {
    if list != [] {
      var rest := list[1..];
      assert forall j :: 0 <= j < |rest| ==> rest[j] == list[j + 1];
      CountMembers(rest);
      assert Members(list) == {list[0]} + Members(rest);
      assert list[0] !in rest;
    }
  }

  lemma SameSizeSubset(a: set<Item>, b: set<Item>)
    requires a <= b && |a| == |b|
    ensures a == b
  {
    assert b == a + (b - a);
  }

  /** Between lists that repeat no key the comparison is right: a change is seen exactly when the
      items are not the same, in whatever order. */
  lemma ChangesAreSeen(before: seq<Item>, items: seq<Item>)
    requires KeysDiffer(before) && KeysDiffer(items)
    ensures !TxtChanged(Some(before), Some(items)) <==> forall x :: x in items <==> x in before
  {
    forall x
      ensures ItemListed(x, before) <==> x in before
    {
      ListedIsMember(x, before);
    }
    CountMembers(before);
    CountMembers(items);
    if !TxtChanged(Some(before), Some(items)) {
      assert Members(items) <= Members(before);
      SameSizeSubset(Members(items), Members(before));
      forall x
        ensures x in items <==> x in before
      {
        assert x in Members(items) <==> x in Members(before);
      }
    }
    if forall x :: x in items <==> x in before {
      assert Members(items) == Members(before);
    }
  }

  // ---------------------------------------------------------------- two packets before a report

  /** A second packet may be read before the report of the first one is made.  The second report
      then names a result that is no longer there exactly when the first one, too, names it and
      the result has said goodbye. */
  lemma SecondReportDangles(list: seq<Found>, first: seq<nat>, second: seq<nat>)
    requires IdsApart(list)
    requires forall id :: id in second ==> exists f :: f in list && f.id == id
    ensures (exists id :: id in second && forall f :: f in Remaining(list, first) ==> f.id != id)
            <==> exists f :: f in list && f.ttl == 0 && f.id in first && f.id in second
  {
    forall f
      ensures f in Remaining(list, first) <==> f in list && !(f.id in first && f.ttl == 0)
    {
      RemainingMembers(list, first, f);
    }
    if exists id :: id in second && forall f :: f in Remaining(list, first) ==> f.id != id {
      var id :| id in second && forall f :: f in Remaining(list, first) ==> f.id != id;
      var f :| f in list && f.id == id;
      assert f !in Remaining(list, first);
    }
    if exists f :: f in list && f.ttl == 0 && f.id in first && f.id in second {
      var f :| f in list && f.ttl == 0 && f.id in first && f.id in second;
      forall g | g in Remaining(list, first)
        ensures g.id != f.id
      {
        SameIdSameResult(list, f, g);
      }
    }
  }

  lemma SameIdSameResult(list: seq<Found>, f: Found, g: Found)
    requires IdsApart(list) && f in list && g in list
    ensures f.id == g.id ==> f == g
  {
    var i :| 0 <= i < |list| && list[i] == f;
    var j :| 0 <= j < |list| && list[j] == g;
  }

  // ---------------------------------------------------------------- in place

  /** The loop over the addresses of one result. */
  method HasAddress(list: seq<bytes>, address: bytes) returns (found: bool)
    ensures found == (address in list)
  {
    for i := 0 to |list|
      invariant address !in list[..i]
    {
      if list[i] == address {
        return true;
      }
    }
    found := false;
  }

  /** is_txt_item_in_list. */
  method FindItem(item: Item, list: seq<Item>) returns (found: bool)
    ensures found == ItemListed(item, list)
  {
    for i := 0 to |list|
      invariant ItemListed(item, list[i..]) == ItemListed(item, list)
    {
      assert list[i..][1..] == list[i + 1..];
      if item.key == list[i].key {
        return item.value == list[i].value;
      }
    }
    found := false;
  }

  method CompareTxt(before: Option<seq<Item>>, txt: Option<seq<Item>>) returns (changed: bool)
    ensures changed == TxtChanged(before, txt)
  {
    var items := ItemsOf(txt);
    if before == None || |items| != |before.value| {
      return before.Some?;
    }
    for i := 0 to |items|
      invariant forall j :: 0 <= j < i ==> ItemListed(items[j], before.value)
    {
      var found := FindItem(items[i], before.value);
      if !found {
        return true;
      }
    }
    changed := false;
  }

  /** mdns_browse_t and the mdns_browse_sync_t of the packet that is being read. */
  class Browse {
    var results: seq<Found>
    var sync: seq<nat>

    function Abs(): State
      reads this
    {
      State(results, sync)
    }

    constructor ()
      ensures Abs() == State([], [])
    {
      results, sync := [], [];
    }

    method AddBrowseResult(id: nat)
      modifies this`sync
      ensures sync == Report(old(sync), id)
    {
      for i := 0 to |sync|
        invariant id !in sync[..i] && sync == old(sync)
      {
        if sync[i] == id {
          return;
        }
      }
      sync := [id] + sync;
    }

    method FindKey(pair: Pair, instance: bytes, kind: bytes, proto: bytes) returns (i: nat)
      ensures i == FirstKey(results, pair, instance, kind, proto)
    {
      i := 0;
      while i < |results| && !SameKey(results[i], pair, instance, kind, proto)
        invariant 0 <= i <= |results|
        invariant FirstKey(results, pair, instance, kind, proto) == i + FirstKey(results[i..], pair, instance, kind, proto)
      {
        assert results[i..][1..] == results[i + 1..];
        i := i + 1;
      }
    }

    /** mdns_priv_browse_result_add_ip. */
    method ResultAddIp(hostname: bytes, address: bytes, pair: Pair, ttl: nat)
      modifies this
      ensures Abs() == AddIp(old(Abs()), hostname, address, pair, ttl)
    {
      var i := 0;
      while i < |results|
        invariant 0 <= i <= |results| && Abs() == old(Abs())
        invariant FirstLacking(results, hostname, address, pair) == i + FirstLacking(results[i..], hostname, address, pair)
      {
        assert results[i..][1..] == results[i + 1..];
        var f := results[i];
        if f.pair == pair && OnHost(f, hostname) {
          var known := HasAddress(f.addresses, address);
          if !known {
            results := results[i := f.(addresses := [address] + f.addresses, ttl := NewTtl(f.ttl, ttl))];
            AddBrowseResult(f.id);
            return;
          }
        }
        i := i + 1;
      }
    }

    /** mdns_priv_browse_result_add_txt. */
    method ResultAddTxt(instance: bytes, kind: bytes, proto: bytes, txt: Option<seq<Item>>, pair: Pair, ttl: nat, id: nat)
      modifies this
      ensures Abs() == AddTxt(old(Abs()), instance, kind, proto, txt, pair, ttl, id)
    {
      var i := FindKey(pair, instance, kind, proto);
      if i == |results| {
        results := [Found(id, pair, instance, kind, proto, None, 0, txt, [], ttl)] + results;
        AddBrowseResult(id);
        return;
      }
      var f := results[i];
      var changed := CompareTxt(f.txt, txt);
      results := results[i := f.(txt := txt, ttl := NewTtl(f.ttl, ttl))];
      if changed || f.ttl != NewTtl(f.ttl, ttl) {
        AddBrowseResult(f.id);
      }
    }

    /** copy_address_in_previous_result. */
    method CopyAddresses(hostname: bytes, v6: bool) returns (r: seq<bytes>)
      ensures r == KnownAddresses(results, hostname, v6)
    {
      for i := 0 to |results|
        invariant KnownAddresses(results[i..], hostname, v6) == KnownAddresses(results, hostname, v6)
      {
        assert results[i..][1..] == results[i + 1..];
        if OnHost(results[i], hostname) && results[i].pair.v6 == v6 && results[i].addresses != [] {
          return results[i].addresses;
        }
      }
      r := [];
    }

    /** mdns_priv_browse_result_add_srv. */
    method ResultAddSrv(hostname: bytes, instance: bytes, kind: bytes, proto: bytes, port: nat, pair: Pair, ttl: nat, id: nat)
      modifies this
      ensures Abs() == AddSrv(old(Abs()), hostname, instance, kind, proto, port, pair, ttl, id)
    {
      var i := FindKey(pair, instance, kind, proto);
      if i == |results| {
        results := [Found(id, pair, instance, kind, proto, Some(hostname), port, None, [], ttl)] + results;
        AddBrowseResult(id);
        return;
      }
      var f := results[i];
      var g := f;
      if f.hostname == None || f.hostname.value == [] || !SameText(hostname, f.hostname.value) {
        g := f.(hostname := Some(hostname), port := port);
        if f.addresses == [] && hostname != [] {
          var addresses := CopyAddresses(hostname, pair.v6);
          g := g.(addresses := addresses);
        }
        AddBrowseResult(f.id);
      }
      if g.ttl != NewTtl(g.ttl, ttl) {
        AddBrowseResult(f.id);
      }
      results := results[i := g.(ttl := NewTtl(g.ttl, ttl))];
    }

    /** The result of an entry of the list, if it has said goodbye, is taken out. */
    method DropGone(id: nat)
      requires IdsApart(results)
      modifies this`results
      ensures results == Remaining(old(results), [id]) && IdsApart(results)
    {
      var i := 0;
      while i < |results| && results[i].id != id
        invariant 0 <= i <= |results| && forall j :: 0 <= j < i ==> results[j].id != id
      {
        i := i + 1;
      }
      RemainingOne(results, i, id);
      if i < |results| && results[i].ttl == 0 {
        CutIdsApart(results, i);
        results := results[..i] + results[i + 1..];
      }
    }

    /** browse_sync. */
    method BrowseSync()
      requires IdsApart(results)
      modifies this
      ensures Abs() == Sync(old(Abs()))
    {
      RemainingNone(results);
      for i := 0 to |sync|
        invariant sync == old(sync) && IdsApart(results)
        invariant results == Remaining(old(results), sync[..i])
      {
        RemainingMore(old(results), sync[..i], sync[i]);
        assert sync[..i] + [sync[i]] == sync[..i + 1];
        DropGone(sync[i]);
      }
      assert sync[..|sync|] == sync;
      sync := [];
    }
  }

  lemma {:induction false} RemainingNone(list: seq<Found>)
    ensures Remaining(list, []) == list
  {
    if list != [] {
      RemainingNone(list[1..]);
    }
  }

  lemma {:induction false} RemainingMore(list: seq<Found>, sync: seq<nat>, id: nat)
    ensures Remaining(Remaining(list, sync), [id]) == Remaining(list, sync + [id])
  {
    if list != [] {
      var rest := Remaining(list[1..], sync);
      RemainingMore(list[1..], sync, id);
      assert ([list[0]] + rest)[1..] == rest && [] + rest == rest;
      assert list[0].id in sync + [id] <==> list[0].id in sync || list[0].id == id;
    }
  }

  /** The one result of that id. */
  lemma {:induction false} RemainingOne(list: seq<Found>, i: nat, id: nat)
    requires i <= |list| && (i < |list| ==> list[i].id == id)
    requires forall j :: 0 <= j < |list| && j != i ==> list[j].id != id
    ensures Remaining(list, [id]) == if i < |list| && list[i].ttl == 0 then list[..i] + list[i + 1..] else list
    decreases |list|
  {
    if list != [] {
      var rest := list[1..];
      assert forall j :: 0 <= j < |rest| ==> rest[j] == list[j + 1];
      HeadRemains(list, id);
      if i == 0 {
        RemainingOne(rest, |rest|, id);
        assert list[..0] + list[1..] == rest;
      } else {
        RemainingOne(rest, i - 1, id);
        if i < |list| {
          CutBehindHead(list, i);
        }
      }
    }
  }

  lemma HeadRemains(list: seq<Found>, id: nat)
    requires list != []
    ensures Remaining(list, [id]) == (if list[0].id == id && list[0].ttl == 0 then [] else [list[0]]) + Remaining(list[1..], [id])
    ensures [list[0]] + list[1..] == list
  {}

  lemma CutBehindHead(list: seq<Found>, i: nat)
    requires 0 < i < |list|
    ensures [list[0]] + (list[1..][..i - 1] + list[1..][i..]) == list[..i] + list[i + 1..]
  {}

  lemma CutIdsApart(list: seq<Found>, i: nat)
    requires IdsApart(list) && i < |list|
    ensures IdsApart(list[..i] + list[i + 1..])
  {}
}
