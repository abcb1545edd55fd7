/** What the packets of a probe ask and claim (mdns_priv_create_probe_packet of mdns_send.c), and
    what is left of that when services are removed. */
module ProbePackets {
  import opened Bytes
  import opened RecordWriter
  import opened Packets
  import opened Pcb

  // ---------------------------------------------------------------- questions and claims

  /** The services that are asked about, in order. */
  function AskedServices(qs: seq<OutQuestion>): seq<nat> {
    if qs == [] then []
    else if qs[0].owner.Some? then [qs[0].owner.value] + AskedServices(qs[1..])
    else AskedServices(qs[1..])
  }

  /** The host names that are asked about, in order. */
  function AskedHosts(qs: seq<OutQuestion>): seq<nat> {
    if qs == [] then []
    else if qs[0].owner == None && qs[0].host.Some? then [qs[0].host.value] + AskedHosts(qs[1..])
    else AskedHosts(qs[1..])
  }

  /** The services that are claimed, in order. */
  function ClaimedServices(list: seq<Answer>): seq<nat> {
    if list == [] then []
    else if list[0].service.Some? then [list[0].service.value] + ClaimedServices(list[1..])
    else ClaimedServices(list[1..])
  }

  /** The addresses that are claimed. */
  function ClaimedAddresses(list: seq<Answer>): seq<Answer> {
    if list == [] then []
    else if list[0].service == None then [list[0]] + ClaimedAddresses(list[1..])
    else ClaimedAddresses(list[1..])
  }

  /** A question for everything about a service or about a host name. */
  predicate ProperQuestion(q: OutQuestion) {
    q.kind == TYPE_ANY && (q.owner.Some? <==> q.host == None)
  }

  /** An SRV record of a service, or an address. */
  predicate ProperClaim(a: Answer) {
    && !a.flush && !a.bye
    && (if a.service.Some? then a.kind == TYPE_SRV && a.host == None else a.kind == TYPE_A || a.kind == TYPE_AAAA)
  }

  predicate Proper(p: TxPacket) {
    (forall q :: q in p.questions ==> ProperQuestion(q)) && (forall a :: a in p.servers ==> ProperClaim(a))
  }

  // ---------------------------------------------------------------- a new probe

  /** The host names a new probe asks about: our own and those of the services, each once. */
  ghost predicate AsksHosts(hosts: seq<nat>, names: Names, services: seq<nat>) {
    && Distinct(hosts)
    && forall h :: h in hosts <==> h == names.hostname || exists x :: x in services && names.lookup(x).hostname == h
  }

  /** One question and one SRV record for each service, and if the host is claimed one question
      for each host name and both addresses of each host; nothing else. */
  ghost predicate IsProbe(p: TxPacket, names: Names, services: seq<nat>, first: bool, ip: bool) {
    && Proper(p) && AllUnicast(p.questions, first) && NoRepeats(p.servers) && p.answers == [] && p.additional == []
    && AskedServices(p.questions) == services && ClaimedServices(p.servers) == services
    && (if ip then AsksHosts(AskedHosts(p.questions), names, services) else AskedHosts(p.questions) == [])
    && forall kind, host :: Announced(p.servers, kind, None, host) <==>
                              ip && OfHost(kind) && HostOf(names, services, host)
  }

  lemma AskedBehind(a: seq<OutQuestion>, b: seq<OutQuestion>)
    ensures AskedServices(a + b) == AskedServices(a) + AskedServices(b)
    ensures AskedHosts(a + b) == AskedHosts(a) + AskedHosts(b)
  {
    ServicesBehind(a, b);
    HostsBehind(a, b);
  }

  lemma {:induction false} ServicesBehind(a: seq<OutQuestion>, b: seq<OutQuestion>)
    ensures AskedServices(a + b) == AskedServices(a) + AskedServices(b)
    decreases |a|
  {
    if a == [] {
      assert a + b == b;
    } else {
      assert (a + b)[1..] == a[1..] + b;
      ServicesBehind(a[1..], b);
    }
  }

  lemma {:induction false} HostsBehind(a: seq<OutQuestion>, b: seq<OutQuestion>)
    ensures AskedHosts(a + b) == AskedHosts(a) + AskedHosts(b)
    decreases |a|
  {
    if a == [] {
      assert a + b == b;
    } else {
      assert (a + b)[1..] == a[1..] + b;
      HostsBehind(a[1..], b);
    }
  }

  lemma {:induction false} ClaimedBehind(a: seq<Answer>, b: seq<Answer>)
    ensures ClaimedServices(a + b) == ClaimedServices(a) + ClaimedServices(b)
    ensures ClaimedAddresses(a + b) == ClaimedAddresses(a) + ClaimedAddresses(b)
    decreases |a|
  {
    if a == [] {
      assert a + b == b;
    } else {
      assert (a + b)[1..] == a[1..] + b;
      ClaimedBehind(a[1..], b);
    }
  }

  lemma {:induction false} AskedMembers(qs: seq<OutQuestion>, x: nat)
    ensures x in AskedServices(qs) <==> exists q :: q in qs && q.owner == Some(x)
    ensures x in AskedHosts(qs) <==> exists q :: q in qs && q.owner == None && q.host == Some(x)
    decreases |qs|
  {
    if qs != [] {
      AskedMembers(qs[1..], x);
      assert forall q :: q in qs <==> q == qs[0] || q in qs[1..];
    }
  }

  lemma {:induction false} ClaimedMembers(list: seq<Answer>, x: nat)
    ensures x in ClaimedServices(list) <==> exists a :: a in list && a.service == Some(x)
    decreases |list|
  {
    if list != [] {
      ClaimedMembers(list[1..], x);
      assert forall a :: a in list <==> a == list[0] || a in list[1..];
    }
  }

  lemma {:induction false} AddressMembers(list: seq<Answer>, a: Answer)
    ensures a in ClaimedAddresses(list) <==> a in list && a.service == None
    decreases |list|
  {
    if list != [] {
      AddressMembers(list[1..], a);
    }
  }

  /** What the loop over the services adds to a packet that has nothing about any of them yet. */
  lemma {:induction false} ServicesAsked(p: TxPacket, services: seq<nat>, first: bool)
    requires Distinct(services) && Proper(p) && AllUnicast(p.questions, first) && NoRepeats(p.servers)
    requires forall x :: x in services ==> x !in AskedServices(p.questions) && x !in ClaimedServices(p.servers)
    ensures var r := ProbeServices(p, services, first);
            && Proper(r) && AllUnicast(r.questions, first) && NoRepeats(r.servers)
            && AskedServices(r.questions) == AskedServices(p.questions) + services
            && ClaimedServices(r.servers) == ClaimedServices(p.servers) + services
            && AskedHosts(r.questions) == AskedHosts(p.questions)
            && ClaimedAddresses(r.servers) == ClaimedAddresses(p.servers)
            && r.answers == p.answers && r.additional == p.additional
    decreases |services|
  {
    hide Proper, ProbeServices, AskedServices, AskedHosts, ClaimedServices, ClaimedAddresses, NoRepeats, AddAnswer, QuestionExists;
    if services == [] {
      NoServices(p, first);
    } else {
      var x, rest := services[0], services[1..];
      assert x in services && x !in rest;
      var next := OneServiceAsked(p, x, first);
      assert forall y :: y in rest ==> y in services && y != x;
      ServicesAsked(next, rest, first);
      ProbeServicesStep(p, services, first, next);
      assert AskedServices(p.questions) + [x] + rest == AskedServices(p.questions) + services;
      assert ClaimedServices(p.servers) + [x] + rest == ClaimedServices(p.servers) + services;
    }
  }

  lemma NoServices(p: TxPacket, first: bool)
    ensures ProbeServices(p, [], first) == p
  {}

  lemma ProbeServicesStep(p: TxPacket, services: seq<nat>, first: bool, next: TxPacket)
    requires services != []
    requires var q := OutQuestion(TYPE_ANY, first, Some(services[0]), None);
             && !QuestionExists(p.questions, q)
             && next == p.(questions := p.questions + [q],
                           servers := AddAnswer(p.servers, Answer(TYPE_SRV, Some(services[0]), None, false, false)))
    ensures ProbeServices(p, services, first) == ProbeServices(next, services[1..], first)
  {}

  lemma OneServiceAsked(p: TxPacket, x: nat, first: bool) returns (next: TxPacket)
    requires Proper(p) && AllUnicast(p.questions, first) && NoRepeats(p.servers)
    requires x !in AskedServices(p.questions) && x !in ClaimedServices(p.servers)
    ensures var q := OutQuestion(TYPE_ANY, first, Some(x), None);
            && !QuestionExists(p.questions, q)
            && next == p.(questions := p.questions + [q],
                          servers := AddAnswer(p.servers, Answer(TYPE_SRV, Some(x), None, false, false)))
    ensures Proper(next) && AllUnicast(next.questions, first) && NoRepeats(next.servers)
    ensures AskedServices(next.questions) == AskedServices(p.questions) + [x]
    ensures ClaimedServices(next.servers) == ClaimedServices(p.servers) + [x]
    ensures AskedHosts(next.questions) == AskedHosts(p.questions)
    ensures ClaimedAddresses(next.servers) == ClaimedAddresses(p.servers)
  {
    var q := OutQuestion(TYPE_ANY, first, Some(x), None);
    var a := Answer(TYPE_SRV, Some(x), None, false, false);
    AskedMembers(p.questions, x);
    ClaimedMembers(p.servers, x);
    AddAnswerKeepsNoRepeats(p.servers, a);
    assert AddAnswer(p.servers, a) == p.servers + [a];
    AskedBehind(p.questions, [q]);
    ClaimedBehind(p.servers, [a]);
    next := p.(questions := p.questions + [q], servers := AddAnswer(p.servers, a));
  }

  /** What the loop over the host names adds. */
  lemma OneHostAsked(list: seq<OutQuestion>, h: nat, unicast: bool)
    requires (forall q :: q in list ==> ProperQuestion(q)) && AllUnicast(list, unicast) && Distinct(AskedHosts(list))
    ensures var r := AddHostQuestion(list, h, unicast);
            && (forall q :: q in r ==> ProperQuestion(q)) && AllUnicast(r, unicast)
            && AskedServices(r) == AskedServices(list)
            && Distinct(AskedHosts(r)) && forall x :: x in AskedHosts(r) <==> x == h || x in AskedHosts(list)
  {
    var q := OutQuestion(TYPE_ANY, unicast, None, Some(h));
    AskedMembers(list, h);
    if !QuestionExists(list, q) {
      AskedBehind(list, [q]);
      assert h !in AskedHosts(list);
      assert AskedHosts(list + [q]) == AskedHosts(list) + [h];
    }
  }

  lemma {:induction false} HostsAsked(list: seq<OutQuestion>, names: Names, services: seq<nat>, unicast: bool)
    requires (forall q :: q in list ==> ProperQuestion(q)) && AllUnicast(list, unicast) && Distinct(AskedHosts(list))
    ensures var r := AddHostQuestions(list, names, services, unicast);
            && (forall q :: q in r ==> ProperQuestion(q)) && AllUnicast(r, unicast)
            && AskedServices(r) == AskedServices(list)
            && Distinct(AskedHosts(r))
            && forall h :: h in AskedHosts(r) <==> h in AskedHosts(list) || exists x :: x in services && names.lookup(x).hostname == h
    decreases |services|
  {
    hide AddHostQuestion, ProperQuestion, AskedHosts, AskedServices;
    if services != [] {
      var h := names.lookup(services[0]).hostname;
      OneHostAsked(list, h, unicast);
      HostsAsked(AddHostQuestion(list, h, unicast), names, services[1..], unicast);
      assert forall x :: x in services <==> x == services[0] || x in services[1..];
    }
  }

  /** The addresses of the hosts are claims beside those of the services. */
  ghost predicate GoodClaims(list: seq<Answer>, services: seq<nat>) {
    (forall a :: a in list ==> ProperClaim(a)) && NoRepeats(list) && ClaimedServices(list) == services
  }

  lemma OneAddressClaimed(list: seq<Answer>, services: seq<nat>, kind: nat, host: Option<nat>)
    requires GoodClaims(list, services) && OfHost(kind)
    ensures GoodClaims(AddAnswer(list, Answer(kind, None, host, false, false)), services)
  {
    var a := Answer(kind, None, host, false, false);
    AddAnswerKeepsNoRepeats(list, a);
    ClaimedBehind(list, [a]);
    assert forall d :: d in AddAnswer(list, a) ==> d in list || d == a;
  }

  lemma OneHostClaimed(list: seq<Answer>, services: seq<nat>, host: Option<nat>)
    requires GoodClaims(list, services)
    ensures GoodClaims(AddHost(list, host, false), services)
  {
    hide AddAnswer, GoodClaims;
    OneAddressClaimed(list, services, TYPE_A, host);
    OneAddressClaimed(AddAnswer(list, Answer(TYPE_A, None, host, false, false)), services, TYPE_AAAA, host);
  }

  lemma {:induction false} HostsClaimed(list: seq<Answer>, claimed: seq<nat>, names: Names, services: seq<nat>)
    requires GoodClaims(list, claimed)
    ensures GoodClaims(AddHosts(list, names, services, false), claimed)
    decreases |services|
  {
    hide AddHost, GoodClaims;
    if services != [] {
      var host := names.lookup(services[0]).hostItem;
      OneHostClaimed(list, claimed, host);
      HostsClaimed(AddHost(list, host, false), claimed, names, services[1..]);
    }
  }

  /** A new probe asks about exactly the services it claims, and about every host name if it
      claims addresses. */
  lemma NewProbe(id: nat, pair: Pair, names: Names, services: seq<nat>, first: bool, ip: bool)
    requires Distinct(services)
    ensures IsProbe(ProbePacket(id, pair, names, services, first, ip), names, services, first, ip)
  {
    hide ProbeServices, AddHostQuestion, AddHostQuestions, AddHosts, AddHost, ProperQuestion, ProperClaim, NoRepeats, Announced;
    var p := ServicesProbed(id, pair, services, first);
    NoAddresses(p.servers);
    if ip {
      HostQuestionsOf(p.questions, names, services, first);
      HostClaimsOf(p.servers, names, services);
    }
  }

  /** The part of it that is about services. */
  lemma ServicesProbed(id: nat, pair: Pair, services: seq<nat>, first: bool) returns (p: TxPacket)
    requires Distinct(services)
    ensures p == ProbeServices(NewPacket(id, pair), services, first)
    ensures Proper(p) && AllUnicast(p.questions, first) && GoodClaims(p.servers, services)
    ensures AskedServices(p.questions) == services && AskedHosts(p.questions) == [] && ClaimedAddresses(p.servers) == []
    ensures p.answers == [] && p.additional == []
  {
    hide ProbeServices;
    var none := NewPacket(id, pair);
    assert AskedServices(none.questions) == [] && ClaimedServices(none.servers) == [];
    ServicesAsked(none, services, first);
    assert [] + services == services;
    p := ProbeServices(none, services, first);
  }

  lemma HostQuestionsOf(list: seq<OutQuestion>, names: Names, services: seq<nat>, first: bool)
    requires (forall q :: q in list ==> ProperQuestion(q)) && AllUnicast(list, first) && AskedHosts(list) == []
    ensures var r := AddHostQuestions(AddHostQuestion(list, names.hostname, first), names, services, first);
            && (forall q :: q in r ==> ProperQuestion(q)) && AllUnicast(r, first)
            && AskedServices(r) == AskedServices(list) && AsksHosts(AskedHosts(r), names, services)
  {
    hide AddHostQuestion, AddHostQuestions, ProperQuestion, AskedHosts, AskedServices;
    OneHostAsked(list, names.hostname, first);
    HostsAsked(AddHostQuestion(list, names.hostname, first), names, services, first);
  }

  lemma HostClaimsOf(list: seq<Answer>, names: Names, services: seq<nat>)
    requires GoodClaims(list, services) && forall kind, host :: !Announced(list, kind, None, host)
    ensures var r := AddHostsOrSelf(list, names, services, false);
            && GoodClaims(r, services)
            && forall kind, host :: Announced(r, kind, None, host) <==> OfHost(kind) && HostOf(names, services, host)
  {
    hide AddHosts, AddHost, GoodClaims, Announced;
    OneHostClaimed(list, services, Some(names.selfHost));
    HostsClaimed(list, services, names, services);
    forall kind, host
      ensures Announced(AddHostsOrSelf(list, names, services, false), kind, None, host) <==>
              OfHost(kind) && HostOf(names, services, host)
    {
      HostListAnnounced(list, names, services, false, kind, None, host);
    }
  }

  lemma NoAddresses(list: seq<Answer>)
    requires ClaimedAddresses(list) == []
    ensures forall kind, host :: !Announced(list, kind, None, host)
  {
    forall kind, host
      ensures !Announced(list, kind, None, host)
    {
      if Announced(list, kind, None, host) {
        var d :| d in list && d.kind == kind && d.service == None && d.host == host;
        AddressMembers(list, d);
      }
    }
  }

  /** Clearing the unicast marks changes nothing else. */
  lemma StillAsked(qs: seq<OutQuestion>)
    ensures AskedServices(WithoutUnicast(qs)) == AskedServices(qs) && AskedHosts(WithoutUnicast(qs)) == AskedHosts(qs)
    ensures (forall q :: q in qs ==> ProperQuestion(q)) ==> forall q :: q in WithoutUnicast(qs) ==> ProperQuestion(q)
    ensures forall i :: 0 <= i < |qs| ==> WithoutUnicast(qs)[i] == qs[i].(unicast := false)
  {
    UnicastCleared(qs);
    AskedAlike(qs, WithoutUnicast(qs));
    forall q | q in WithoutUnicast(qs) && forall o :: o in qs ==> ProperQuestion(o)
      ensures ProperQuestion(q)
    {
      var i :| 0 <= i < |qs| && WithoutUnicast(qs)[i] == q;
      assert ProperQuestion(qs[i]);
    }
  }

  lemma {:induction false} UnicastCleared(qs: seq<OutQuestion>)
    ensures forall i :: 0 <= i < |qs| ==> WithoutUnicast(qs)[i] == qs[i].(unicast := false)
    decreases |qs|
  {
    if qs != [] {
      UnicastCleared(qs[1..]);
      var rest := WithoutUnicast(qs[1..]);
      forall i | 0 <= i < |qs|
        ensures WithoutUnicast(qs)[i] == qs[i].(unicast := false)
      {
        assert i > 0 ==> WithoutUnicast(qs)[i] == rest[i - 1] && qs[i] == qs[1..][i - 1];
      }
    }
  }

  lemma {:induction false} AskedAlike(qs: seq<OutQuestion>, rs: seq<OutQuestion>)
    requires |qs| == |rs| && forall i :: 0 <= i < |qs| ==> rs[i].owner == qs[i].owner && rs[i].host == qs[i].host
    ensures AskedServices(rs) == AskedServices(qs) && AskedHosts(rs) == AskedHosts(qs)
    decreases |qs|
  {
    if qs != [] {
      AskedAlike(qs[1..], rs[1..]);
    }
  }

  // ---------------------------------------------------------------- counting by type

  type Types = nat -> ServiceType

  function CountOf(types: Types, list: seq<nat>, t: ServiceType): nat {
    if list == [] then 0 else (if types(list[0]) == t then 1 else 0) + CountOf(types, list[1..], t)
  }

  /** The elements of list that are kept. */
  function Among(list: seq<nat>, kept: seq<nat>): seq<nat> {
    if list == [] then [] else if list[0] in kept then [list[0]] + Among(list[1..], kept) else Among(list[1..], kept)
  }

  function Others(list: seq<nat>, x: nat): seq<nat> {
    if list == [] then [] else if list[0] != x then [list[0]] + Others(list[1..], x) else Others(list[1..], x)
  }

  /** Of each type the last ones of all, as many as there are of it in left: what is still asked
      about when left is what is still claimed. */
  function LastOfEach(types: Types, all: seq<nat>, left: seq<nat>): seq<nat> {
    if all == [] then []
    else
      var rest := LastOfEach(types, all[1..], left);
      if CountOf(types, rest, types(all[0])) < CountOf(types, left, types(all[0])) then [all[0]] + rest else rest
  }

  /** A service has gone while another one of its type, in front of it, is still claimed. */
  predicate Overtaken(types: Types, all: seq<nat>, left: seq<nat>) {
    exists i, j :: 0 <= i < j < |all| && all[i] in left && all[j] !in left && types(all[i]) == types(all[j])
  }

  lemma {:induction false} CountBehind(types: Types, a: seq<nat>, b: seq<nat>, t: ServiceType)
    ensures CountOf(types, a + b, t) == CountOf(types, a, t) + CountOf(types, b, t)
    decreases |a|
  {
    if a == [] {
      assert a + b == b;
    } else {
      assert (a + b)[1..] == a[1..] + b;
      CountBehind(types, a[1..], b, t);
    }
  }

  lemma {:induction false} AmongBehind(a: seq<nat>, b: seq<nat>, kept: seq<nat>)
    ensures Among(a + b, kept) == Among(a, kept) + Among(b, kept)
    decreases |a|
  {
    if a == [] {
      assert a + b == b;
    } else {
      assert (a + b)[1..] == a[1..] + b;
      AmongBehind(a[1..], b, kept);
    }
  }

  lemma {:induction false} AmongMembers(list: seq<nat>, kept: seq<nat>, x: nat)
    ensures x in Among(list, kept) <==> x in list && x in kept
  {
    if list != [] {
      AmongMembers(list[1..], kept, x);
    }
  }

  lemma {:induction false} CountsSome(types: Types, list: seq<nat>, t: ServiceType)
    ensures CountOf(types, list, t) > 0 <==> exists i :: 0 <= i < |list| && types(list[i]) == t
    decreases |list|
  {
    if list != [] {
      CountsSome(types, list[1..], t);
      if CountOf(types, list[1..], t) > 0 {
        var i :| 0 <= i < |list[1..]| && types(list[1..][i]) == t;
        assert types(list[i + 1]) == t;
      }
      if exists i :: 0 <= i < |list| && types(list[i]) == t {
        var i :| 0 <= i < |list| && types(list[i]) == t;
        assert i > 0 ==> types(list[1..][i - 1]) == t;
      }
    }
  }

  lemma {:induction false} LastCount(types: Types, all: seq<nat>, left: seq<nat>, t: ServiceType)
    ensures var c := CountOf(types, LastOfEach(types, all, left), t);
            c == if CountOf(types, all, t) < CountOf(types, left, t) then CountOf(types, all, t) else CountOf(types, left, t)
    decreases |all|
  {
    if all != [] {
      LastCount(types, all[1..], left, t);
      var rest := LastOfEach(types, all[1..], left);
      assert ([all[0]] + rest)[1..] == rest;
    }
  }

  lemma {:induction false} LastMembers(types: Types, all: seq<nat>, left: seq<nat>, x: nat)
    ensures x in LastOfEach(types, all, left) ==> x in all
    decreases |all|
  {
    if all != [] {
      LastMembers(types, all[1..], left, x);
    }
  }

  /** The last ones behind the front are the end of the last ones of all. */
  lemma {:induction false} LastOfBack(types: Types, front: seq<nat>, back: seq<nat>, left: seq<nat>) returns (more: seq<nat>)
    ensures LastOfEach(types, front + back, left) == more + LastOfEach(types, back, left)
    decreases |front|
  {
    var rest := LastOfEach(types, back, left);
    if front == [] {
      assert front + back == back && [] + rest == rest;
      more := [];
    } else {
      assert (front + back)[1..] == front[1..] + back;
      more := LastOfBack(types, front[1..], back, left);
      if LastOfEach(types, front + back, left) != more + rest {
        assert [front[0]] + (more + rest) == [front[0]] + more + rest;
        more := [front[0]] + more;
      }
    }
  }

  lemma SplitCount(types: Types, front: seq<nat>, back: seq<nat>, left: seq<nat>, t: ServiceType)
    requires left == Among(front + back, left)
    ensures CountOf(types, left, t) == CountOf(types, Among(front, left), t) + CountOf(types, Among(back, left), t)
  {
    AmongBehind(front, back, left);
    CountBehind(types, Among(front, left), Among(back, left), t);
  }

  lemma OvertakenBy(types: Types, front: seq<nat>, x: nat, rest: seq<nat>, left: seq<nat>, y: nat)
    requires y in front && y in left && x !in left && types(y) == types(x)
    ensures Overtaken(types, front + [x] + rest, left)
  {
    var all := front + [x] + rest;
    var j :| 0 <= j < |front| && front[j] == y;
    assert all[j] == y && all[|front|] == x;
  }

  lemma NoneInFront(types: Types, front: seq<nat>, x: nat, rest: seq<nat>, left: seq<nat>)
    requires !Overtaken(types, front + [x] + rest, left) && x !in left
    ensures CountOf(types, Among(front, left), types(x)) == 0
  {
    hide Overtaken;
    var kept := Among(front, left);
    CountsSome(types, kept, types(x));
    forall i | 0 <= i < |kept|
      ensures types(kept[i]) != types(x)
    {
      AmongMembers(front, left, kept[i]);
      if types(kept[i]) == types(x) {
        OvertakenBy(types, front, x, rest, left, kept[i]);
      }
    }
  }

  lemma {:induction false} LastAreLeft(types: Types, front: seq<nat>, back: seq<nat>, left: seq<nat>)
    requires left == Among(front + back, left) && !Overtaken(types, front + back, left)
    ensures LastOfEach(types, back, left) == Among(back, left)
    decreases |back|
  {
    hide Overtaken;
    if back != [] {
      var x, rest := back[0], back[1..];
      assert front + back == front + [x] + rest && back == [x] + rest;
      LastAreLeft(types, front + [x], rest, left);
      SplitCount(types, front, back, left, types(x));
      AmongBehind([x], rest, left);
      CountBehind(types, Among([x], left), Among(rest, left), types(x));
      assert [x][1..] == [];
      if x !in left {
        NoneInFront(types, front, x, rest, left);
      }
    }
  }

  lemma {:induction false} LastWithin(types: Types, all: seq<nat>, left: seq<nat>, t: ServiceType)
    requires forall x :: x in LastOfEach(types, all, left) ==> x in left
    ensures CountOf(types, LastOfEach(types, all, left), t) <= CountOf(types, Among(all, left), t)
    decreases |all|
  {
    if all != [] {
      var rest := LastOfEach(types, all[1..], left);
      assert ([all[0]] + rest)[1..] == rest && [all[0]][1..] == [];
      LastWithin(types, all[1..], left, t);
      assert all == [all[0]] + all[1..];
      AmongBehind([all[0]], all[1..], left);
      CountBehind(types, Among([all[0]], left), Among(all[1..], left), t);
    }
  }

  /** What is still asked about is what is still claimed exactly when no service has overtaken
      another one of its type. */
  lemma LastExactly(types: Types, all: seq<nat>, left: seq<nat>)
    requires left == Among(all, left)
    ensures LastOfEach(types, all, left) == left <==> !Overtaken(types, all, left)
  {
    if !Overtaken(types, all, left) {
      assert [] + all == all;
      LastAreLeft(types, [], all, left);
    } else {
      var i, j :| 0 <= i < j < |all| && all[i] in left && all[j] !in left && types(all[i]) == types(all[j]);
      if LastOfEach(types, all, left) == left {
        OvertakenIsAsked(types, all, left, i, j);
      }
    }
  }

  lemma OvertakenIsAsked(types: Types, all: seq<nat>, left: seq<nat>, i: nat, j: nat)
    requires left == Among(all, left) && i < j < |all|
    requires all[i] in left && all[j] !in left && types(all[i]) == types(all[j])
    ensures LastOfEach(types, all, left) != left
  {
    if LastOfEach(types, all, left) == left {
      var front, x, rest := all[..j], all[j], all[j + 1..];
      assert all == front + ([x] + rest) && ([x] + rest)[1..] == rest;
      var more := LastOfBack(types, front, [x] + rest, left);
      assert x !in LastOfEach(types, [x] + rest, left);
      LastWithin(types, rest, left, types(x));
      SplitCount(types, front, [x] + rest, left, types(x));
      assert Among([x] + rest, left) == Among(rest, left);
      assert front[i] == all[i];
      AmongMembers(front, left, all[i]);
      var at :| 0 <= at < |Among(front, left)| && Among(front, left)[at] == all[i];
      CountsSome(types, Among(front, left), types(x));
      assert false;
    }
  }

  // ---------------------------------------------------------------- a service goes

  /** The first one of the type goes. */
  function DropType(types: Types, list: seq<nat>, t: ServiceType): seq<nat> {
    if list == [] then [] else if types(list[0]) == t then list[1..] else [list[0]] + DropType(types, list[1..], t)
  }

  lemma {:induction false} LastDrops(types: Types, all: seq<nat>, left: seq<nat>, less: seq<nat>, t: ServiceType)
    requires forall u :: CountOf(types, left, u) == CountOf(types, less, u) + if u == t then 1 else 0
    ensures var kept := LastOfEach(types, all, left);
            LastOfEach(types, all, less)
            == if CountOf(types, kept, t) == CountOf(types, left, t) then DropType(types, kept, t) else kept
    decreases |all|
  {
    if all == [] {
      assert CountOf(types, left, t) == CountOf(types, less, t) + 1;
    } else {
      var x, rest := all[0], LastOfEach(types, all[1..], left);
      LastDrops(types, all[1..], left, less, t);
      LastCount(types, all[1..], left, t);
      assert ([x] + rest)[1..] == rest;
      assert CountOf(types, left, types(x)) == CountOf(types, less, types(x)) + if types(x) == t then 1 else 0;
      if types(x) == t {
        CountDropped(types, rest, t);
      } else {
        CountUndropped(types, rest, t, types(x));
      }
    }
  }

  lemma {:induction false} CountDropped(types: Types, list: seq<nat>, t: ServiceType)
    ensures CountOf(types, DropType(types, list, t), t) == if CountOf(types, list, t) > 0 then CountOf(types, list, t) - 1 else 0
    decreases |list|
  {
    if list != [] {
      CountDropped(types, list[1..], t);
      assert ([list[0]] + DropType(types, list[1..], t))[1..] == DropType(types, list[1..], t);
    }
  }

  lemma {:induction false} CountUndropped(types: Types, list: seq<nat>, t: ServiceType, u: ServiceType)
    requires u != t
    ensures CountOf(types, DropType(types, list, t), u) == CountOf(types, list, u)
    decreases |list|
  {
    if list != [] {
      CountUndropped(types, list[1..], t, u);
      assert ([list[0]] + DropType(types, list[1..], t))[1..] == DropType(types, list[1..], t);
    }
  }

  lemma {:induction false} CountOthers(types: Types, list: seq<nat>, x: nat, u: ServiceType)
    requires Distinct(list)
    ensures CountOf(types, list, u) == CountOf(types, Others(list, x), u) + if x in list && u == types(x) then 1 else 0
    ensures x !in list ==> Others(list, x) == list
    decreases |list|
  {
    if list != [] {
      CountOthers(types, list[1..], x, u);
      assert ([list[0]] + Others(list[1..], x))[1..] == Others(list[1..], x);
    }
  }

  lemma {:induction false} OthersMembers(list: seq<nat>, x: nat, y: nat)
    ensures y in Others(list, x) <==> y in list && y != x
  {
    if list != [] {
      OthersMembers(list[1..], x, y);
    }
  }

  lemma {:induction false} AmongOthers(all: seq<nat>, left: seq<nat>, x: nat)
    ensures Among(all, Others(left, x)) == Others(Among(all, left), x)
    decreases |all|
  {
    if all != [] {
      AmongOthers(all[1..], left, x);
      OthersMembers(left, x, all[0]);
      assert ([all[0]] + Among(all[1..], left))[1..] == Among(all[1..], left);
    }
  }

  lemma {:induction false} AmongCounts(types: Types, all: seq<nat>, left: seq<nat>, t: ServiceType)
    ensures CountOf(types, Among(all, left), t) <= CountOf(types, all, t)
    decreases |all|
  {
    if all != [] {
      AmongCounts(types, all[1..], left, t);
      assert ([all[0]] + Among(all[1..], left))[1..] == Among(all[1..], left);
    }
  }

  /** Removing a service drops the first question of its type: what is asked about stays the last
      ones of each type. */
  lemma QuestionGoes(types: Types, all: seq<nat>, left: seq<nat>, svc: nat)
    requires Distinct(left) && left == Among(all, left) && svc in left
    ensures DropType(types, LastOfEach(types, all, left), types(svc)) == LastOfEach(types, all, Others(left, svc))
    ensures Others(left, svc) == Among(all, Others(left, svc))
  {
    forall u
      ensures CountOf(types, left, u) == CountOf(types, Others(left, svc), u) + if u == types(svc) then 1 else 0
    {
      CountOthers(types, left, svc, u);
    }
    LastDrops(types, all, left, Others(left, svc), types(svc));
    LastCount(types, all, left, types(svc));
    AmongCounts(types, all, left, types(svc));
    AmongOthers(all, left, svc);
  }

  lemma {:induction false} DroppedQuestion(qs: seq<OutQuestion>, types: Types, svc: nat)
    requires forall q :: q in qs ==> ProperQuestion(q)
    ensures var r := DropQuestion(qs, types, svc);
            && AskedServices(r) == DropType(types, AskedServices(qs), types(svc)) && AskedHosts(r) == AskedHosts(qs)
            && forall q :: q in r ==> q in qs
    decreases |qs|
  {
    if qs != [] {
      assert qs[0] in qs;
      DroppedQuestion(qs[1..], types, svc);
      var rest := DropQuestion(qs[1..], types, svc);
      assert ([qs[0]] + rest)[1..] == rest;
      if qs[0].owner.Some? {
        assert ([qs[0].owner.value] + AskedServices(qs[1..]))[1..] == AskedServices(qs[1..]);
      }
    }
  }

  lemma {:induction false} ClaimGoes(list: seq<Answer>, svc: nat)
    ensures ClaimedServices(Without(list, svc)) == Others(ClaimedServices(list), svc)
    ensures ClaimedAddresses(Without(list, svc)) == ClaimedAddresses(list)
    ensures forall a :: a in Without(list, svc) ==> a in list
    decreases |list|
  {
    if list != [] {
      ClaimGoes(list[1..], svc);
      var rest := Without(list[1..], svc);
      assert ([list[0]] + rest)[1..] == rest;
      if list[0].service.Some? {
        assert ([list[0].service.value] + ClaimedServices(list[1..]))[1..] == ClaimedServices(list[1..]);
      }
    }
  }

  lemma {:induction false} GapIsOthers(list: seq<nat>, svc: nat)
    requires Distinct(list) && svc in list
    ensures var i := Position(list, svc); list[..i] + list[i + 1..] == Others(list, svc)
    decreases |list|
  {
    if list[0] == svc {
      NoneToDrop(list[1..], svc);
      assert list[..0] + list[1..] == list[1..];
    } else {
      GapIsOthers(list[1..], svc);
      var i := Position(list, svc);
      assert list[..i] + list[i + 1..] == [list[0]] + (list[1..][..i - 1] + list[1..][i..]);
    }
  }

  lemma {:induction false} NoneToDrop(list: seq<nat>, svc: nat)
    requires svc !in list
    ensures Others(list, svc) == list
  {
    if list != [] {
      NoneToDrop(list[1..], svc);
    }
  }

  // ---------------------------------------------------------------- what is left of a probe

  /** p is what is left of probe o after some of its services have been removed. */
  ghost predicate LeftOf(types: Types, o: TxPacket, p: TxPacket) {
    && p.id == o.id && Proper(p)
    && AskedHosts(p.questions) == AskedHosts(o.questions) && ClaimedAddresses(p.servers) == ClaimedAddresses(o.servers)
    && var all, left := ClaimedServices(o.servers), ClaimedServices(p.servers);
       left == Among(all, left) && AskedServices(p.questions) == LastOfEach(types, all, left)
  }

  lemma {:induction false} AmongItself(list: seq<nat>, more: seq<nat>)
    requires forall x :: x in list ==> x in more
    ensures Among(list, more) == list
  {
    if list != [] {
      AmongItself(list[1..], more);
    }
  }

  lemma NothingRemoved(types: Types, p: TxPacket)
    requires Proper(p) && AskedServices(p.questions) == ClaimedServices(p.servers)
    ensures LeftOf(types, p, p)
  {
    var all := ClaimedServices(p.servers);
    AmongItself(all, all);
    LastExactly(types, all, all);
  }

  /** The question and the claim of a service go. */
  lemma OneRemoved(types: Types, o: TxPacket, p: TxPacket, r: TxPacket, svc: nat)
    requires LeftOf(types, o, p) && Distinct(ClaimedServices(p.servers)) && svc in ClaimedServices(p.servers)
    requires r.id == p.id && r.questions == DropQuestion(p.questions, types, svc) && r.servers == Without(p.servers, svc)
    ensures LeftOf(types, o, r) && ClaimedServices(r.servers) == Others(ClaimedServices(p.servers), svc)
  {
    DroppedQuestion(p.questions, types, svc);
    ClaimGoes(p.servers, svc);
    QuestionGoes(types, ClaimedServices(o.servers), ClaimedServices(p.servers), svc);
  }

  /** Nothing in the packet is about the service. */
  lemma NoneRemoved(types: Types, o: TxPacket, p: TxPacket, r: TxPacket, svc: nat)
    requires LeftOf(types, o, p) && svc !in ClaimedServices(p.servers)
    requires r.id == p.id && r.questions == p.questions && r.servers == Without(p.servers, svc)
    ensures LeftOf(types, o, r) && ClaimedServices(r.servers) == ClaimedServices(p.servers)
  {
    ClaimGoes(p.servers, svc);
    NoneToDrop(ClaimedServices(p.servers), svc);
  }

  /** The services that are asked about are exactly those that are claimed, in the same order, if
      and only if none of them has overtaken another one of its type; and as many of each type are
      asked about as are claimed in any case. */
  lemma AsksWhatItClaims(types: Types, o: TxPacket, p: TxPacket)
    requires LeftOf(types, o, p)
    ensures AskedServices(p.questions) == ClaimedServices(p.servers) <==>
            !Overtaken(types, ClaimedServices(o.servers), ClaimedServices(p.servers))
    ensures forall t :: CountOf(types, AskedServices(p.questions), t) == CountOf(types, ClaimedServices(p.servers), t)
    ensures forall x :: x in AskedServices(p.questions) ==> x in ClaimedServices(o.servers)
  {
    var all, left := ClaimedServices(o.servers), ClaimedServices(p.servers);
    LastExactly(types, all, left);
    forall t
      ensures CountOf(types, LastOfEach(types, all, left), t) == CountOf(types, left, t)
    {
      LastCount(types, all, left, t);
      AmongCounts(types, all, left, t);
    }
    forall x | x in AskedServices(p.questions)
      ensures x in all
    {
      LastMembers(types, all, left, x);
    }
  }
}
