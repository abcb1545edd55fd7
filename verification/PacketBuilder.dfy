/** The loops of mdns_send.c that build probe and announcement packets, tied to the functions of
    module Packets. */
module PacketBuilder {
  import opened Bytes
  import opened RecordWriter
  import opened Packets

  /** mdns_priv_create_answer: looks for the answer, and appends it if it is not there. */
  method CreateAnswer(list: seq<Answer>, a: Answer) returns (r: seq<Answer>)
    ensures r == AddAnswer(list, a)
  {
    for i := 0 to |list|
      invariant forall j :: 0 <= j < i ==> !SameAnswer(list[j], a)
    {
      if SameAnswer(list[i], a) {
        assert list[i] in list;
        return list;
      }
    }
    r := list + [a];
  }

  /** append_host. */
  method AppendHost(list: seq<Answer>, host: Option<nat>, flush: bool) returns (r: seq<Answer>)
    ensures r == AddHost(list, host, flush)
  {
    r := CreateAnswer(list, Answer(TYPE_A, None, host, flush, false));
    r := CreateAnswer(r, Answer(TYPE_AAAA, None, host, flush, false));
  }

  /** mdns_priv_append_host_list_in_services. */
  method AppendHosts(list: seq<Answer>, names: Names, services: seq<nat>, flush: bool) returns (r: seq<Answer>)
    ensures r == AddHostsOrSelf(list, names, services, flush)
  {
    if services == [] {
      r := AppendHost(list, Some(names.selfHost), flush);
      return;
    }
    r := list;
    for i := 0 to |services|
      invariant AddHosts(r, names, services[i..], flush) == AddHosts(list, names, services, flush)
    {
      assert services[i..][1..] == services[i + 1..];
      r := AppendHost(r, names.lookup(services[i]).hostItem, flush);
    }
  }

  /** question_exists. */
  method Asked(list: seq<OutQuestion>, q: OutQuestion) returns (found: bool)
    ensures found == QuestionExists(list, q)
  {
    for i := 0 to |list|
      invariant forall j :: 0 <= j < i ==> !(list[j].kind == q.kind && list[j].owner == q.owner && list[j].host == q.host)
    {
      if list[i].kind == q.kind && list[i].owner == q.owner && list[i].host == q.host {
        assert list[i] in list;
        return true;
      }
    }
    found := false;
  }

  /** append_host_question. */
  method AppendHostQuestion(list: seq<OutQuestion>, host: nat, unicast: bool) returns (r: seq<OutQuestion>)
    ensures r == AddHostQuestion(list, host, unicast)
  {
    var q := OutQuestion(TYPE_ANY, unicast, None, Some(host));
    var found := Asked(list, q);
    r := if found then list else list + [q];
  }

  /** append_host_questions_for_services. */
  method AppendHostQuestions(list: seq<OutQuestion>, names: Names, services: seq<nat>, unicast: bool) returns (r: seq<OutQuestion>)
    ensures r == AddHostQuestions(AddHostQuestion(list, names.hostname, unicast), names, services, unicast)
  {
    r := AppendHostQuestion(list, names.hostname, unicast);
    ghost var first := r;
    for i := 0 to |services|
      invariant AddHostQuestions(r, names, services[i..], unicast) == AddHostQuestions(first, names, services, unicast)
    {
      assert services[i..][1..] == services[i + 1..];
      r := AppendHostQuestion(r, names.lookup(services[i]).hostname, unicast);
    }
  }

  /** mdns_priv_create_probe_packet. */
  method BuildProbe(id: nat, pair: Pair, names: Names, services: seq<nat>, first: bool, includeIp: bool) returns (p: TxPacket)
    ensures p == ProbePacket(id, pair, names, services, first, includeIp)
  {
    p := NewPacket(id, pair);
    for i := 0 to |services|
      invariant ProbeServices(p, services[i..], first) == ProbeServices(NewPacket(id, pair), services, first)
    {
      assert services[i..][1..] == services[i + 1..];
      var q := OutQuestion(TYPE_ANY, first, Some(services[i]), None);
      var found := Asked(p.questions, q);
      if !found {
        var servers := CreateAnswer(p.servers, Answer(TYPE_SRV, Some(services[i]), None, false, false));
        p := p.(questions := p.questions + [q], servers := servers);
      }
    }
    if includeIp {
      var questions := AppendHostQuestions(p.questions, names, services, first);
      var servers := AppendHosts(p.servers, names, services, false);
      p := p.(questions := questions, servers := servers);
    }
  }

  /** The four records of a service. */
  method CreateServiceAnswers(list: seq<Answer>, s: nat) returns (r: seq<Answer>)
    ensures r == AnnounceService(list, s)
  {
    r := CreateAnswer(list, Answer(TYPE_SDPTR, Some(s), None, false, false));
    r := CreateAnswer(r, Answer(TYPE_PTR, Some(s), None, false, false));
    r := CreateAnswer(r, Answer(TYPE_SRV, Some(s), None, true, false));
    r := CreateAnswer(r, Answer(TYPE_TXT, Some(s), None, true, false));
  }

  method CreateAllServiceAnswers(list: seq<Answer>, services: seq<nat>) returns (r: seq<Answer>)
    ensures r == AnnounceServices(list, services)
  {
    r := list;
    for i := 0 to |services|
      invariant AnnounceServices(r, services[i..]) == AnnounceServices(list, services)
    {
      assert services[i..][1..] == services[i + 1..];
      r := CreateServiceAnswers(r, services[i]);
    }
  }

  /** mdns_priv_create_announce_packet. */
  method BuildAnnouncement(id: nat, pair: Pair, names: Names, services: seq<nat>, includeIp: bool) returns (p: TxPacket)
    ensures p == AnnouncePacket(id, pair, names, services, includeIp)
  {
    var answers := CreateAllServiceAnswers([], services);
    p := NewPacket(id, pair).(answers := answers);
    if includeIp {
      var servers := AppendHosts([], names, services, true);
      p := p.(servers := servers);
    }
  }

  /** mdns_priv_create_announce_from_probe. */
  method BuildFromProbe(id: nat, probe: TxPacket, names: Names) returns (p: TxPacket)
    ensures p == AnnounceFromProbe(id, probe, names)
  {
    var answers: seq<Answer> := [];
    for i := 0 to |probe.servers|
      invariant AnnounceClaims(answers, names, probe.servers[i..]) == AnnounceClaims([], names, probe.servers)
    {
      var s := probe.servers[i];
      assert probe.servers[i..][1..] == probe.servers[i + 1..];
      if s.kind == TYPE_SRV && s.service.Some? {
        answers := CreateServiceAnswers(answers, s.service.value);
        answers := AppendHost(answers, names.lookup(s.service.value).hostItem, true);
      } else if s.kind == TYPE_A || s.kind == TYPE_AAAA {
        answers := CreateAnswer(answers, Answer(s.kind, None, s.host, true, false));
      }
    }
    p := NewPacket(id, probe.pair).(answers := answers);
  }

  /** The loop of mdns_priv_pcb_schedule_tx_packet over the questions of the first probe. */
  method ClearUnicast(qs: seq<OutQuestion>) returns (r: seq<OutQuestion>)
    ensures r == WithoutUnicast(qs)
  {
    r := qs;
    for i := 0 to |qs|
      invariant |r| == |qs| && r[i..] == qs[i..]
      invariant r[..i] + WithoutUnicast(r[i..]) == WithoutUnicast(qs)
    {
      ghost var before := r;
      assert r[i..][1..] == r[i + 1..];
      r := r[i := r[i].(unicast := false)];
      assert r[..i + 1] == before[..i] + [r[i]] && r[i + 1..] == before[i + 1..];
    }
  }

  /** dealloc of one answer by type (mdns_priv_dealloc_answer with no service). */
  method DropFirstOf(list: seq<Answer>, kind: nat) returns (r: seq<Answer>)
    ensures r == DropFirst(list, kind)
  {
    var i := 0;
    while i < |list| && !(list[i].kind == kind && list[i].service == None)
      invariant 0 <= i <= |list| && list[..i] + DropFirst(list[i..], kind) == DropFirst(list, kind)
    {
      assert list[i..][1..] == list[i + 1..] && list[..i + 1] == list[..i] + [list[i]];
      i := i + 1;
    }
    if i == |list| {
      assert list[..i] + [] == list;
      return list;
    }
    assert list[i..][1..] == list[i + 1..];
    r := list[..i] + list[i + 1..];
  }

  /** The packet a running announcement takes up (mdns_priv_pcb_announce). */
  method ExtendAnnouncement(p: TxPacket, names: Names, services: seq<nat>, ip: bool) returns (r: TxPacket)
    ensures r == Extended(p, names, services, ip)
  {
    var answers := CreateAllServiceAnswers(p.answers, services);
    r := p.(answers := answers);
    if ip {
      var additional := DropFirstOf(p.additional, TYPE_A);
      additional := DropFirstOf(additional, TYPE_AAAA);
      answers := AppendHosts(answers, names, services, true);
      r := r.(additional := additional, answers := answers);
    }
  }
}
