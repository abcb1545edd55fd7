/** Transmit packets of mdns_send.c: questions and answers by identity, and the packets the
    probe/announce protocol builds from them. */
module Packets {
  import opened Bytes
  import opened RecordWriter

  const TYPE_ANY := 0x00FF
  const TYPE_SDPTR := 0x0032

  /** One (interface, protocol) combination. */
  datatype Pair = Pair(netif: nat, v6: bool)

  /** mdns_out_answer_t.  Service and host stand for pointers; None is NULL. */
  datatype Answer = Answer(kind: nat, service: Option<nat>, host: Option<nat>, flush: bool, bye: bool)

  /** mdns_out_question_t.  A probe question borrows the strings of a service (owner) or of a
      host name (host). */
  datatype OutQuestion = OutQuestion(kind: nat, unicast: bool, owner: Option<nat>, host: Option<nat>)

  /** mdns_tx_packet_t; id is its address. */
  datatype TxPacket = TxPacket(id: nat, pair: Pair, sendAt: nat, queued: bool, distributed: bool,
                               questions: seq<OutQuestion>, answers: seq<Answer>,
                               servers: seq<Answer>, additional: seq<Answer>)

  function NewPacket(id: nat, pair: Pair): TxPacket {
    TxPacket(id, pair, 0, false, false, [], [], [], [])
  }

  /** A registered service as the packet builders see it: its host name and the host item behind
      it. */
  datatype Service = Service(hostname: nat, hostItem: Option<nat>)

  /** Its type and protocol strings. */
  datatype ServiceType = ServiceType(kind: bytes, proto: bytes)

  /** The responder's names: our host name, our host item, and every service item. */
  datatype Names = Names(hostname: nat, selfHost: nat, lookup: nat -> Service)

  predicate Distinct(list: seq<nat>) {
    forall i, j :: 0 <= i < j < |list| ==> list[i] != list[j]
  }

  // ---------------------------------------------------------------- answer lists

  predicate SameAnswer(a: Answer, b: Answer) {
    a.kind == b.kind && a.service == b.service && a.host == b.host
  }

  /** mdns_priv_create_answer. */
  function AddAnswer(list: seq<Answer>, a: Answer): (r: seq<Answer>)
    ensures list <= r
  {
    if exists d :: d in list && SameAnswer(d, a) then list else list + [a]
  }

  predicate NoRepeats(list: seq<Answer>) {
    forall i, j :: 0 <= i < j < |list| ==> !SameAnswer(list[i], list[j])
  }

  lemma AddAnswerKeepsNoRepeats(list: seq<Answer>, a: Answer)
    requires NoRepeats(list)
    ensures NoRepeats(AddAnswer(list, a))
    ensures exists d :: d in AddAnswer(list, a) && SameAnswer(d, a)
  {
    if !(exists d :: d in list && SameAnswer(d, a)) {
      assert a in AddAnswer(list, a);
      forall i, j | 0 <= i < j < |list + [a]|
        ensures !SameAnswer((list + [a])[i], (list + [a])[j])
      {
        assert i < |list| ==> (list + [a])[i] in list;
      }
    }
  }

  /** Address answers of one host. */
  function AddHost(list: seq<Answer>, host: Option<nat>, flush: bool): seq<Answer> {
    AddAnswer(AddAnswer(list, Answer(TYPE_A, None, host, flush, false)), Answer(TYPE_AAAA, None, host, flush, false))
  }

  /** mdns_priv_append_host_list_in_services; without services it is our own host. */
  function AddHosts(list: seq<Answer>, names: Names, services: seq<nat>, flush: bool): seq<Answer>
    decreases |services|
  {
    if services == [] then list
    else AddHosts(AddHost(list, names.lookup(services[0]).hostItem, flush), names, services[1..], flush)
  }

  function AddHostsOrSelf(list: seq<Answer>, names: Names, services: seq<nat>, flush: bool): seq<Answer> {
    if services == [] then AddHost(list, Some(names.selfHost), flush)
    else AddHosts(list, names, services, flush)
  }

  // ---------------------------------------------------------------- probes

  predicate QuestionExists(list: seq<OutQuestion>, q: OutQuestion) {
    exists d :: d in list && d.kind == q.kind && d.owner == q.owner && d.host == q.host
  }

  /** The questions and SRV answers for the services being claimed. */
  function ProbeServices(p: TxPacket, services: seq<nat>, first: bool): (r: TxPacket)
    ensures r.id == p.id && r.pair == p.pair && r.queued == p.queued
    decreases |services|
  {
    if services == [] then p
    else
      var q := OutQuestion(TYPE_ANY, first, Some(services[0]), None);
      var next := if QuestionExists(p.questions, q) then p
                  else p.(questions := p.questions + [q],
                          servers := AddAnswer(p.servers, Answer(TYPE_SRV, Some(services[0]), None, false, false)));
      ProbeServices(next, services[1..], first)
  }

  function AddHostQuestion(list: seq<OutQuestion>, host: nat, unicast: bool): seq<OutQuestion> {
    var q := OutQuestion(TYPE_ANY, unicast, None, Some(host));
    if QuestionExists(list, q) then list else list + [q]
  }

  function AddHostQuestions(list: seq<OutQuestion>, names: Names, services: seq<nat>, unicast: bool): seq<OutQuestion>
    decreases |services|
  {
    if services == [] then list
    else AddHostQuestions(AddHostQuestion(list, names.lookup(services[0]).hostname, unicast), names, services[1..], unicast)
  }

  /** mdns_priv_create_probe_packet. */
  function ProbePacket(id: nat, pair: Pair, names: Names, services: seq<nat>, first: bool, includeIp: bool): (p: TxPacket)
    ensures p.id == id && p.pair == pair && !p.queued
  {
    var p := ProbeServices(NewPacket(id, pair), services, first);
    if includeIp then
      p.(questions := AddHostQuestions(AddHostQuestion(p.questions, names.hostname, first), names, services, first),
         servers := AddHostsOrSelf(p.servers, names, services, false))
    else p
  }

  predicate AllUnicast(qs: seq<OutQuestion>, unicast: bool) {
    forall q :: q in qs ==> q.unicast == unicast
  }

  /** Every question of a probe asks for a unicast reply, or none does. */
  lemma ProbeUnicast(id: nat, pair: Pair, names: Names, services: seq<nat>, first: bool, includeIp: bool)
    ensures AllUnicast(ProbePacket(id, pair, names, services, first, includeIp).questions, first)
  {
    ProbeServicesUnicast(NewPacket(id, pair), services, first);
    var p := ProbeServices(NewPacket(id, pair), services, first);
    HostQuestionsUnicast(AddHostQuestion(p.questions, names.hostname, first), names, services, first);
  }

  lemma {:induction false} ProbeServicesUnicast(p: TxPacket, services: seq<nat>, first: bool)
    requires AllUnicast(p.questions, first)
    ensures AllUnicast(ProbeServices(p, services, first).questions, first)
    decreases |services|
  {
    if services != [] {
      var q := OutQuestion(TYPE_ANY, first, Some(services[0]), None);
      var next := if QuestionExists(p.questions, q) then p
                  else p.(questions := p.questions + [q],
                          servers := AddAnswer(p.servers, Answer(TYPE_SRV, Some(services[0]), None, false, false)));
      ProbeServicesUnicast(next, services[1..], first);
    }
  }

  lemma {:induction false} HostQuestionsUnicast(list: seq<OutQuestion>, names: Names, services: seq<nat>, unicast: bool)
    requires AllUnicast(list, unicast)
    ensures AllUnicast(AddHostQuestions(list, names, services, unicast), unicast)
    decreases |services|
  {
    if services != [] {
      HostQuestionsUnicast(AddHostQuestion(list, names.lookup(services[0]).hostname, unicast), names, services[1..], unicast);
    }
  }

  /** The first probe asks for unicast replies, its repetitions do not. */
  function WithoutUnicast(qs: seq<OutQuestion>): (r: seq<OutQuestion>)
    ensures |r| == |qs| && AllUnicast(r, false)
  {
    if qs == [] then [] else [qs[0].(unicast := false)] + WithoutUnicast(qs[1..])
  }

  // ---------------------------------------------------------------- announcements

  /** What one service contributes to an announcement. */
  function AnnounceService(list: seq<Answer>, s: nat): seq<Answer> {
    AddAnswer(AddAnswer(AddAnswer(AddAnswer(list,
      Answer(TYPE_SDPTR, Some(s), None, false, false)),
      Answer(TYPE_PTR, Some(s), None, false, false)),
      Answer(TYPE_SRV, Some(s), None, true, false)),
      Answer(TYPE_TXT, Some(s), None, true, false))
  }

  function AnnounceServices(list: seq<Answer>, services: seq<nat>): seq<Answer>
    decreases |services|
  {
    if services == [] then list else AnnounceServices(AnnounceService(list, services[0]), services[1..])
  }

  /** mdns_priv_create_announce_packet: the addresses go into the authority section here. */
  function AnnouncePacket(id: nat, pair: Pair, names: Names, services: seq<nat>, includeIp: bool): (p: TxPacket)
    ensures p.id == id && p.pair == pair && !p.queued
  {
    var p := NewPacket(id, pair).(answers := AnnounceServices([], services));
    if includeIp then p.(servers := AddHostsOrSelf([], names, services, true)) else p
  }

  /** mdns_priv_dealloc_answer with no service: the first match goes. */
  function DropFirst(list: seq<Answer>, kind: nat): seq<Answer> {
    if list == [] then []
    else if list[0].kind == kind && list[0].service == None then list[1..]
    else [list[0]] + DropFirst(list[1..], kind)
  }

  /** The packet that is being announced takes up further services. */
  function Extended(p: TxPacket, names: Names, services: seq<nat>, ip: bool): (r: TxPacket)
    ensures r.id == p.id && r.pair == p.pair && r.sendAt == p.sendAt && r.queued == p.queued && r.questions == p.questions
  {
    var more := p.(answers := AnnounceServices(p.answers, services));
    if ip then
      more.(additional := DropFirst(DropFirst(more.additional, TYPE_A), TYPE_AAAA),
            answers := AddHostsOrSelf(more.answers, names, services, true))
    else more
  }

  /** What one claim of the probe becomes. */
  function AnnounceClaim(list: seq<Answer>, names: Names, s: Answer): seq<Answer> {
    if s.kind == TYPE_SRV && s.service.Some? then
      AddHost(AnnounceService(list, s.service.value), names.lookup(s.service.value).hostItem, true)
    else if s.kind == TYPE_A || s.kind == TYPE_AAAA then
      AddAnswer(list, Answer(s.kind, None, s.host, true, false))
    else list
  }

  function AnnounceClaims(list: seq<Answer>, names: Names, claims: seq<Answer>): seq<Answer>
    decreases |claims|
  {
    if claims == [] then list
    else AnnounceClaims(AnnounceClaim(list, names, claims[0]), names, claims[1..])
  }

  /** mdns_priv_create_announce_from_probe. */
  function AnnounceFromProbe(id: nat, probe: TxPacket, names: Names): (p: TxPacket)
    ensures p.id == id && p.pair == probe.pair && !p.queued && p.questions == []
  {
    NewPacket(id, probe.pair).(answers := AnnounceClaims([], names, probe.servers))
  }

  predicate Announced(list: seq<Answer>, kind: nat, service: Option<nat>, host: Option<nat>) {
    exists d :: d in list && d.kind == kind && d.service == service && d.host == host
  }

  /** The four records of a service. */
  predicate OfService(kind: nat) {
    kind == TYPE_SDPTR || kind == TYPE_PTR || kind == TYPE_SRV || kind == TYPE_TXT
  }

  predicate OfHost(kind: nat) {
    kind == TYPE_A || kind == TYPE_AAAA
  }

  /** Records that others may have, too, do not ask for the cache to be flushed. */
  predicate FlushBits(list: seq<Answer>) {
    forall a :: a in list ==> !a.bye && (a.flush <==> a.kind != TYPE_PTR && a.kind != TYPE_SDPTR)
  }

  /** What a claim stands for in an announcement: the four records of the service and the
      addresses of its host, or the one address. */
  predicate Entails(names: Names, c: Answer, kind: nat, service: Option<nat>, host: Option<nat>) {
    if c.kind == TYPE_SRV && c.service.Some? then
      || (OfService(kind) && service == c.service && host == None)
      || (OfHost(kind) && service == None && host == names.lookup(c.service.value).hostItem)
    else OfHost(c.kind) && kind == c.kind && service == None && host == c.host
  }

  predicate Entailed(names: Names, claims: seq<Answer>, kind: nat, service: Option<nat>, host: Option<nat>) {
    exists c :: c in claims && Entails(names, c, kind, service, host)
  }

  /** The list announces the claims: what they stand for, nothing else, and nothing twice. */
  ghost predicate Announces(list: seq<Answer>, claims: seq<Answer>, names: Names) {
    && NoRepeats(list) && FlushBits(list)
    && forall kind, service, host :: Announced(list, kind, service, host) <==> Entailed(names, claims, kind, service, host)
  }

  /** A claimed service appears with its four records, a claimed host with its address. */
  predicate Covers(list: seq<Answer>, s: Answer) {
    && (s.kind == TYPE_SRV && s.service.Some? ==>
          && Announced(list, TYPE_SDPTR, s.service, None) && Announced(list, TYPE_PTR, s.service, None)
          && Announced(list, TYPE_SRV, s.service, None) && Announced(list, TYPE_TXT, s.service, None))
    && (s.kind == TYPE_A || s.kind == TYPE_AAAA ==> Announced(list, s.kind, None, s.host))
  }

  /** Exactly what was claimed is announced, and nothing is announced twice. */
  lemma AnnouncesWhatWasProbed(id: nat, probe: TxPacket, names: Names)
    ensures var r := AnnounceFromProbe(id, probe, names).answers;
            Announces(r, probe.servers, names) && forall s :: s in probe.servers ==> Covers(r, s)
  {
    hide AnnounceClaims, Announced, NoRepeats, FlushBits;
    var r := AnnounceFromProbe(id, probe, names).answers;
    NothingAnnounced();
    ClaimsKept([], names, probe.servers);
    forall kind, service, host
      ensures Announced(r, kind, service, host) <==> Entailed(names, probe.servers, kind, service, host)
    {
      ClaimsAnnounced([], names, probe.servers, kind, service, host);
    }
    AnnouncedIsCovered(r, probe.servers, names);
  }

  lemma NothingAnnounced()
    ensures NoRepeats([]) && FlushBits([]) && forall kind, service, host :: !Announced([], kind, service, host)
  {}

  lemma AnnouncedIsCovered(list: seq<Answer>, claims: seq<Answer>, names: Names)
    requires forall kind, service, host :: Announced(list, kind, service, host) <==> Entailed(names, claims, kind, service, host)
    ensures forall s :: s in claims ==> Covers(list, s)
  {
    hide Announced, Entailed;
    forall s | s in claims
      ensures Covers(list, s)
    {
      ClaimEntails(names, claims, s);
    }
  }

  lemma ClaimEntails(names: Names, claims: seq<Answer>, s: Answer)
    requires s in claims
    ensures s.kind == TYPE_SRV && s.service.Some? ==> forall kind :: OfService(kind) ==> Entailed(names, claims, kind, s.service, None)
    ensures s.kind == TYPE_A || s.kind == TYPE_AAAA ==> Entailed(names, claims, s.kind, None, s.host)
  {
    forall kind | s.kind == TYPE_SRV && s.service.Some? && OfService(kind)
      ensures Entailed(names, claims, kind, s.service, None)
    {
      assert Entails(names, s, kind, s.service, None);
    }
    assert s.kind == TYPE_A || s.kind == TYPE_AAAA ==> Entails(names, s, s.kind, None, s.host);
  }

  /** One record more. */
  lemma AddedIsAnnounced(list: seq<Answer>, a: Answer, kind: nat, service: Option<nat>, host: Option<nat>)
    ensures Announced(AddAnswer(list, a), kind, service, host) <==>
            Announced(list, kind, service, host) || (kind == a.kind && service == a.service && host == a.host)
  {
    if !(exists d :: d in list && SameAnswer(d, a)) {
      assert forall d :: d in AddAnswer(list, a) <==> d in list || d == a;
    }
  }

  lemma AddedIsKept(list: seq<Answer>, a: Answer)
    requires NoRepeats(list) && FlushBits(list) && !a.bye && (a.flush <==> a.kind != TYPE_PTR && a.kind != TYPE_SDPTR)
    ensures NoRepeats(AddAnswer(list, a)) && FlushBits(AddAnswer(list, a))
  {
    AddAnswerKeepsNoRepeats(list, a);
  }

  lemma HostAnnounced(list: seq<Answer>, added: Option<nat>, flush: bool, kind: nat, service: Option<nat>, host: Option<nat>)
    ensures Announced(AddHost(list, added, flush), kind, service, host) <==>
            Announced(list, kind, service, host) || (OfHost(kind) && service == None && host == added)
    ensures flush && NoRepeats(list) && FlushBits(list) ==>
              NoRepeats(AddHost(list, added, flush)) && FlushBits(AddHost(list, added, flush))
  {
    hide AddAnswer, Announced, NoRepeats, FlushBits;
    var v4 := Answer(TYPE_A, None, added, flush, false);
    AddedIsAnnounced(list, v4, kind, service, host);
    AddedIsAnnounced(AddAnswer(list, v4), Answer(TYPE_AAAA, None, added, flush, false), kind, service, host);
    if flush && NoRepeats(list) && FlushBits(list) {
      AddedIsKept(list, v4);
      AddedIsKept(AddAnswer(list, v4), Answer(TYPE_AAAA, None, added, flush, false));
    }
  }

  lemma ServiceAnnounced(list: seq<Answer>, s: nat, kind: nat, service: Option<nat>, host: Option<nat>)
    ensures Announced(AnnounceService(list, s), kind, service, host) <==>
            Announced(list, kind, service, host) || (OfService(kind) && service == Some(s) && host == None)
    ensures NoRepeats(list) && FlushBits(list) ==>
              NoRepeats(AnnounceService(list, s)) && FlushBits(AnnounceService(list, s))
  {
    hide AddAnswer, Announced, NoRepeats, FlushBits;
    var a1 := Answer(TYPE_SDPTR, Some(s), None, false, false);
    var a2 := Answer(TYPE_PTR, Some(s), None, false, false);
    var a3 := Answer(TYPE_SRV, Some(s), None, true, false);
    var l1 := AddAnswer(list, a1);
    var l2 := AddAnswer(l1, a2);
    var l3 := AddAnswer(l2, a3);
    var a4 := Answer(TYPE_TXT, Some(s), None, true, false);
    AddedIsAnnounced(list, a1, kind, service, host);
    AddedIsAnnounced(l1, a2, kind, service, host);
    AddedIsAnnounced(l2, a3, kind, service, host);
    AddedIsAnnounced(l3, a4, kind, service, host);
    if NoRepeats(list) && FlushBits(list) {
      AddedIsKept(list, a1);
      AddedIsKept(l1, a2);
      AddedIsKept(l2, a3);
      AddedIsKept(l3, a4);
    }
  }

  lemma ClaimAnnounced(list: seq<Answer>, names: Names, c: Answer, kind: nat, service: Option<nat>, host: Option<nat>)
    ensures Announced(AnnounceClaim(list, names, c), kind, service, host) <==>
            Announced(list, kind, service, host) || Entails(names, c, kind, service, host)
    ensures NoRepeats(list) && FlushBits(list) ==>
              NoRepeats(AnnounceClaim(list, names, c)) && FlushBits(AnnounceClaim(list, names, c))
  {
    hide AddAnswer, Announced, NoRepeats, FlushBits, AnnounceService, AddHost;
    if c.kind == TYPE_SRV && c.service.Some? {
      ServiceAnnounced(list, c.service.value, kind, service, host);
      HostAnnounced(AnnounceService(list, c.service.value), names.lookup(c.service.value).hostItem, true, kind, service, host);
    } else if c.kind == TYPE_A || c.kind == TYPE_AAAA {
      AddedIsAnnounced(list, Answer(c.kind, None, c.host, true, false), kind, service, host);
      if NoRepeats(list) && FlushBits(list) {
        AddedIsKept(list, Answer(c.kind, None, c.host, true, false));
      }
    }
  }

  lemma {:induction false} ClaimsAnnounced(list: seq<Answer>, names: Names, claims: seq<Answer>,
                                           kind: nat, service: Option<nat>, host: Option<nat>)
    ensures Announced(AnnounceClaims(list, names, claims), kind, service, host) <==>
            Announced(list, kind, service, host) || Entailed(names, claims, kind, service, host)
    decreases |claims|
  {
    hide AnnounceClaim, Announced, Entails;
    if claims != [] {
      ClaimAnnounced(list, names, claims[0], kind, service, host);
      ClaimsAnnounced(AnnounceClaim(list, names, claims[0]), names, claims[1..], kind, service, host);
      assert forall c :: c in claims <==> c == claims[0] || c in claims[1..];
    }
  }

  lemma {:induction false} ClaimsKept(list: seq<Answer>, names: Names, claims: seq<Answer>)
    requires NoRepeats(list) && FlushBits(list)
    ensures NoRepeats(AnnounceClaims(list, names, claims)) && FlushBits(AnnounceClaims(list, names, claims))
    decreases |claims|
  {
    hide AnnounceClaim, NoRepeats, FlushBits;
    if claims != [] {
      ClaimAnnounced(list, names, claims[0], 0, None, None);
      ClaimsKept(AnnounceClaim(list, names, claims[0]), names, claims[1..]);
    }
  }

  // ---------------------------------------------------------------- what an announcement says

  lemma {:induction false} ServicesAnnounced(list: seq<Answer>, services: seq<nat>, kind: nat, service: Option<nat>, host: Option<nat>)
    ensures Announced(AnnounceServices(list, services), kind, service, host) <==>
            Announced(list, kind, service, host)
            || (OfService(kind) && service.Some? && service.value in services && host == None)
    ensures NoRepeats(list) && FlushBits(list) ==>
              NoRepeats(AnnounceServices(list, services)) && FlushBits(AnnounceServices(list, services))
    decreases |services|
  {
    hide AnnounceService, Announced, NoRepeats, FlushBits;
    if services != [] {
      ServiceAnnounced(list, services[0], kind, service, host);
      ServicesAnnounced(AnnounceService(list, services[0]), services[1..], kind, service, host);
    }
  }

  /** The hosts whose addresses belong to the services; without services it is our own host. */
  predicate HostOf(names: Names, services: seq<nat>, host: Option<nat>) {
    if services == [] then host == Some(names.selfHost)
    else exists x :: x in services && names.lookup(x).hostItem == host
  }

  lemma {:induction false} HostsAnnounced(list: seq<Answer>, names: Names, services: seq<nat>, flush: bool,
                                          kind: nat, service: Option<nat>, host: Option<nat>)
    ensures Announced(AddHosts(list, names, services, flush), kind, service, host) <==>
            Announced(list, kind, service, host)
            || (OfHost(kind) && service == None && exists x :: x in services && names.lookup(x).hostItem == host)
    ensures flush && NoRepeats(list) && FlushBits(list) ==>
              NoRepeats(AddHosts(list, names, services, flush)) && FlushBits(AddHosts(list, names, services, flush))
    decreases |services|
  {
    hide AddHost, Announced, NoRepeats, FlushBits;
    if services != [] {
      var added := names.lookup(services[0]).hostItem;
      HostAnnounced(list, added, flush, kind, service, host);
      HostsAnnounced(AddHost(list, added, flush), names, services[1..], flush, kind, service, host);
      assert forall x :: x in services <==> x == services[0] || x in services[1..];
    }
  }

  lemma HostListAnnounced(list: seq<Answer>, names: Names, services: seq<nat>, flush: bool,
                          kind: nat, service: Option<nat>, host: Option<nat>)
    ensures Announced(AddHostsOrSelf(list, names, services, flush), kind, service, host) <==>
            Announced(list, kind, service, host) || (OfHost(kind) && service == None && HostOf(names, services, host))
    ensures flush && NoRepeats(list) && FlushBits(list) ==>
              NoRepeats(AddHostsOrSelf(list, names, services, flush)) && FlushBits(AddHostsOrSelf(list, names, services, flush))
  {
    hide AddHost, AddHosts, Announced, NoRepeats, FlushBits;
    HostAnnounced(list, Some(names.selfHost), flush, kind, service, host);
    HostsAnnounced(list, names, services, flush, kind, service, host);
  }

  /** An announcement made anew: the four records of each service among the answers, and the
      addresses of the hosts, if wanted, in the authority section; nothing else. */
  lemma NewAnnouncementSays(id: nat, pair: Pair, names: Names, services: seq<nat>, ip: bool,
                            kind: nat, service: Option<nat>, host: Option<nat>)
    ensures var p := AnnouncePacket(id, pair, names, services, ip);
            && (Announced(p.answers, kind, service, host) <==>
                OfService(kind) && service.Some? && service.value in services && host == None)
            && (Announced(p.servers, kind, service, host) <==>
                ip && OfHost(kind) && service == None && HostOf(names, services, host))
            && NoRepeats(p.answers) && NoRepeats(p.servers) && FlushBits(p.answers) && FlushBits(p.servers)
            && p.questions == [] && p.additional == []
  {
    hide AnnounceServices, AddHostsOrSelf, Announced, NoRepeats, FlushBits;
    NothingAnnounced();
    ServicesAnnounced([], services, kind, service, host);
    HostListAnnounced([], names, services, true, kind, service, host);
  }

  predicate AddressOf(a: Answer, kind: nat) {
    a.kind == kind && a.service == None
  }

  predicate FirstAt(list: seq<Answer>, kind: nat, i: nat) {
    i < |list| && AddressOf(list[i], kind) && forall j :: 0 <= j < i ==> !AddressOf(list[j], kind)
  }

  /** r is the list without its first entry of that kind for a host, if it has one. */
  ghost predicate FirstDropped(list: seq<Answer>, r: seq<Answer>, kind: nat) {
    || (r == list && forall a :: a in list ==> !AddressOf(a, kind))
    || exists i: nat :: FirstAt(list, kind, i) && r == list[..i] + list[i + 1..]
  }

  lemma {:induction false} DropsFirst(list: seq<Answer>, kind: nat)
    ensures FirstDropped(list, DropFirst(list, kind), kind)
  {
    if list != [] {
      if list[0].kind == kind && list[0].service == None {
        DropsHead(list, kind);
      } else {
        DropsFirst(list[1..], kind);
        DropsBehind(list, DropFirst(list[1..], kind), kind);
      }
    }
  }

  lemma DropsHead(list: seq<Answer>, kind: nat)
    requires list != [] && AddressOf(list[0], kind)
    ensures FirstDropped(list, list[1..], kind)
  {
    assert FirstAt(list, kind, 0) && list[..0] + list[1..] == list[1..];
  }

  lemma DropsBehind(list: seq<Answer>, r: seq<Answer>, kind: nat)
    requires list != [] && !AddressOf(list[0], kind) && FirstDropped(list[1..], r, kind)
    ensures FirstDropped(list, [list[0]] + r, kind)
  {
    hide AddressOf;
    var rest := list[1..];
    assert [list[0]] + rest == list && forall a :: a in list <==> a == list[0] || a in rest;
    if exists i: nat :: FirstAt(rest, kind, i) && r == rest[..i] + rest[i + 1..] {
      var i: nat :| FirstAt(rest, kind, i) && r == rest[..i] + rest[i + 1..];
      assert forall j :: 1 <= j < |list| ==> list[j] == rest[j - 1];
      assert FirstAt(list, kind, i + 1);
      assert list[..i + 1] + list[i + 2..] == [list[0]] + (rest[..i] + rest[i + 1..]);
    }
  }

  /** An announcement that takes up further services: their records join the answers, and so do
      the addresses, if wanted; everything that was announced still is. */
  lemma ExtensionSays(p: TxPacket, names: Names, services: seq<nat>, ip: bool, kind: nat, service: Option<nat>, host: Option<nat>)
    ensures var r := Extended(p, names, services, ip);
            && (Announced(r.answers, kind, service, host) <==>
                || Announced(p.answers, kind, service, host)
                || (OfService(kind) && service.Some? && service.value in services && host == None)
                || (ip && OfHost(kind) && service == None && HostOf(names, services, host)))
            && (NoRepeats(p.answers) && FlushBits(p.answers) ==> NoRepeats(r.answers) && FlushBits(r.answers))
            && r == p.(answers := r.answers, additional := r.additional) && (!ip ==> r.additional == p.additional)
            && (ip ==> exists mid :: FirstDropped(p.additional, mid, TYPE_A) && FirstDropped(mid, r.additional, TYPE_AAAA))
  {
    hide AnnounceServices, AddHostsOrSelf, Announced, NoRepeats, FlushBits, FirstDropped, DropFirst;
    DropsFirst(p.additional, TYPE_A);
    DropsFirst(DropFirst(p.additional, TYPE_A), TYPE_AAAA);
    ServicesAnnounced(p.answers, services, kind, service, host);
    HostListAnnounced(AnnounceServices(p.answers, services), names, services, true, kind, service, host);
  }
}
