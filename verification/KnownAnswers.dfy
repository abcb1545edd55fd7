/** The reply to a query, and what keeps an answer out of it (section 7.1 of RFC 6762):
    mdns_priv_create_answer_from_parsed_packet of mdns_send.c and the matchers of mdns_utils.c. */
module KnownAnswers {
  import opened Bytes
  import opened RecordWriter
  import opened Packets
  import opened PacketBuilder

  const ANSWER_PTR_TTL := 4500

  // ---------------------------------------------------------------- services, questions, records

  /** mdns_service_t as the matchers see it; id and hostItem stand for pointers. */
  datatype Registered = Registered(id: nat, instance: Option<bytes>, kind: bytes, proto: bytes,
                                   hostname: Option<bytes>, hostItem: Option<nat>, subtypes: seq<bytes>)

  /** The server: its default names, its own host item, the delegated hosts, and the services. */
  datatype Server = Server(instance: bytes, hostname: bytes, selfHost: nat, hosts: seq<nat>, services: seq<Registered>)

  /** mdns_parsed_question_t; the lookup of a host name is part of the question. */
  datatype Question = Question(kind: nat, host: Option<bytes>, service: Option<bytes>, proto: Option<bytes>,
                               sub: bool, hostItem: Option<nat>)

  /** mdns_parsed_record_t: an answer the querier already knows. */
  datatype Known = Known(host: Option<bytes>, service: Option<bytes>, proto: Option<bytes>, ttl: nat)

  // ---------------------------------------------------------------- matching

  predicate Blank(s: Option<bytes>) {
    s == None || s.value == []
  }

  /** mdns_utils_service_match without a host name to compare. */
  predicate ServiceMatch(s: Registered, service: Option<bytes>, proto: Option<bytes>) {
    service.Some? && proto.Some? && s.hostname.Some? && SameText(s.kind, service.value) && SameText(s.proto, proto.value)
  }

  /** get_default_instance_name, with a host name set. */
  function DefaultInstance(server: Server): bytes {
    if server.instance != [] then server.instance else server.hostname
  }

  /** mdns_utils_service_match_instance without a host name to compare. */
  predicate InstanceMatch(server: Server, s: Registered, instance: Option<bytes>, service: Option<bytes>, proto: Option<bytes>) {
    && service.Some? && proto.Some? && SameText(s.kind, service.value) && SameText(s.proto, proto.value)
    && SameText(if s.instance == None then DefaultInstance(server) else s.instance.value,
                if instance == None then DefaultInstance(server) else instance.value)
  }

  /** mdns_utils_get_service_instance_name. */
  function InstanceName(server: Server, s: Registered): bytes {
    if Blank(s.instance) then DefaultInstance(server) else s.instance.value
  }

  /** service_match_ptr_question. */
  predicate AskedFor(server: Server, s: Registered, q: Question) {
    && ServiceMatch(s, q.service, q.proto)
    && (if q.sub then q.host.Some? && exists t :: t in s.subtypes && SameText(t, q.host.value)
        else q.host == None || SameText(InstanceName(server, s), q.host.value))
  }

  /** The test in the loop over the records. */
  predicate Suppresses(server: Server, s: Registered, r: Known) {
    && r.ttl > ANSWER_PTR_TTL / 2
    && (if s.instance.Some? && r.host.Some? then InstanceMatch(server, s, r.host, r.service, r.proto)
        else s.instance == None && r.host == None && ServiceMatch(s, r.service, r.proto))
  }

  predicate IsKnown(server: Server, s: Registered, known: seq<Known>) {
    exists r :: r in known && Suppresses(server, s, r)
  }

  // ---------------------------------------------------------------- the sections

  /** The lists of the reply and the number of questions that were answered. */
  datatype Reply = Reply(answers: seq<Answer>, additional: seq<Answer>, count: nat) {
    function Put(kind: nat, service: Option<nat>, host: Option<nat>, flush: bool): Reply {
      this.(answers := AddAnswer(answers, Answer(kind, service, host, flush, false)))
    }

    function PutExtra(kind: nat, service: Option<nat>, host: Option<nat>, flush: bool): Reply {
      this.(additional := AddAnswer(additional, Answer(kind, service, host, flush, false)))
    }
  }

  /** The addresses of the host of a service. */
  function PutAddresses(r: Reply, s: Registered, extra: bool, flush: bool): Reply {
    if extra then r.PutExtra(TYPE_A, Some(s.id), s.hostItem, flush).PutExtra(TYPE_AAAA, Some(s.id), s.hostItem, flush)
    else r.Put(TYPE_A, Some(s.id), s.hostItem, flush).Put(TYPE_AAAA, Some(s.id), s.hostItem, flush)
  }

  /** create_answer_from_service. */
  function FromService(server: Server, r: Reply, s: Registered, q: Question, shared: bool, flush: bool): Reply {
    var delegated := s.hostItem != Some(server.selfHost);
    var instance := !Blank(q.host);
    if q.kind == TYPE_ANY && instance then
      PutAddresses(r.Put(TYPE_SRV, Some(s.id), None, flush).Put(TYPE_TXT, Some(s.id), None, flush), s, true, flush)
    else if q.kind == TYPE_PTR || (q.kind == TYPE_ANY && !instance) then
      PutAddresses(r.Put(TYPE_PTR, Some(s.id), None, false)
                    .PutExtra(TYPE_SRV, Some(s.id), None, flush).PutExtra(TYPE_TXT, Some(s.id), None, flush),
                   s, shared || delegated, flush)
    else if q.kind == TYPE_SRV then
      PutAddresses(r.Put(TYPE_SRV, Some(s.id), None, flush), s, true, flush)
    else if q.kind == TYPE_TXT then r.Put(TYPE_TXT, Some(s.id), None, flush)
    else if q.kind == TYPE_SDPTR then r.Put(TYPE_SDPTR, Some(s.id), None, false)
    else r
  }

  /** Every service that is asked for and not known. */
  function FromServices(server: Server, r: Reply, services: seq<Registered>, q: Question, known: seq<Known>,
                        shared: bool, flush: bool): Reply
    decreases |services|
  {
    if services == [] then r
    else
      var s := services[0];
      var next :=
        if AskedFor(server, s, q) && !IsKnown(server, s, known) then
          FromService(server, r, s, q, shared, flush).(count := r.count + 1)
        else r;
      FromServices(server, next, services[1..], q, known, shared, flush)
  }

  /** mdns_utils_get_service_item_instance. */
  function FindService(server: Server, services: seq<Registered>, q: Question): Option<Registered> {
    if services == [] then None
    else if (if q.host.Some? then InstanceMatch(server, services[0], q.host, q.service, q.proto)
             else ServiceMatch(services[0], q.service, q.proto)) then Some(services[0])
    else FindService(server, services[1..], q)
  }

  /** append_host_list: it steps to the next delegated host before it appends. */
  function HostAddresses(list: seq<Answer>, hosts: seq<nat>, flush: bool): seq<Answer>
    decreases |hosts|
  {
    if hosts == [] then list
    else
      HostAddresses(AddHost(list, if |hosts| > 1 then Some(hosts[1]) else None, flush), hosts[1..], flush)
  }

  /** One question. */
  function FromQuestion(server: Server, r: Reply, q: Question, known: seq<Known>, probe: bool, flush: bool): Reply {
    var shared := q.kind == TYPE_PTR || q.kind == TYPE_SDPTR || !probe;
    if q.kind == TYPE_SRV || q.kind == TYPE_TXT then
      match FindService(server, server.services, q)
      case None => r
      case Some(s) => FromService(server, r, s, q, shared, flush).(count := r.count + 1)
    else if q.service.Some? && q.proto.Some? then
      FromServices(server, r, server.services, q, known, shared, flush)
    else if q.kind == TYPE_A || q.kind == TYPE_AAAA then
      r.(answers := AddHost(r.answers, q.hostItem, flush), count := r.count + 1)
    else if q.kind == TYPE_ANY then
      r.(answers := HostAddresses(AddHost(r.answers, Some(server.selfHost), flush), server.hosts, flush), count := r.count + 1)
    else
      r.Put(q.kind, None, None, flush).(count := r.count + 1)
  }

  function FromQuestions(server: Server, r: Reply, qs: seq<Question>, known: seq<Known>, probe: bool, flush: bool): Reply
    decreases |qs|
  {
    if qs == [] then r else FromQuestions(server, FromQuestion(server, r, qs[0], known, probe, flush), qs[1..], known, probe, flush)
  }

  const NO_REPLY := Reply([], [], 0)

  // ---------------------------------------------------------------- no section repeats itself

  predicate Clean(r: Reply) {
    NoRepeats(r.answers) && NoRepeats(r.additional)
  }

  /** Lists only grow at their ends, and repeat nothing. */
  predicate Grows(r: Reply, t: Reply) {
    r.answers <= t.answers && r.additional <= t.additional && (Clean(r) ==> Clean(t))
  }

  lemma PutGrows(r: Reply, kind: nat, service: Option<nat>, host: Option<nat>, flush: bool)
    ensures Grows(r, r.Put(kind, service, host, flush)) && Grows(r, r.PutExtra(kind, service, host, flush))
  {
    var a := Answer(kind, service, host, flush, false);
    if Clean(r) {
      AddAnswerKeepsNoRepeats(r.answers, a);
      AddAnswerKeepsNoRepeats(r.additional, a);
    }
  }

  lemma AddressesGrow(r: Reply, s: Registered, extra: bool, flush: bool)
    ensures Grows(r, PutAddresses(r, s, extra, flush))
  {
    PutGrows(r, TYPE_A, Some(s.id), s.hostItem, flush);
    var a := if extra then r.PutExtra(TYPE_A, Some(s.id), s.hostItem, flush) else r.Put(TYPE_A, Some(s.id), s.hostItem, flush);
    PutGrows(a, TYPE_AAAA, Some(s.id), s.hostItem, flush);
  }

  lemma ServiceGrows(server: Server, r: Reply, s: Registered, q: Question, shared: bool, flush: bool)
    ensures Grows(r, FromService(server, r, s, q, shared, flush))
  {
    hide Clean, AddAnswer, PutAddresses;
    var id := Some(s.id);
    if q.kind == TYPE_ANY && !Blank(q.host) {
      var a := r.Put(TYPE_SRV, id, None, flush);
      PutGrows(r, TYPE_SRV, id, None, flush);
      PutGrows(a, TYPE_TXT, id, None, flush);
      AddressesGrow(a.Put(TYPE_TXT, id, None, flush), s, true, flush);
    } else if q.kind == TYPE_PTR || q.kind == TYPE_ANY {
      var a := r.Put(TYPE_PTR, id, None, false);
      var b := a.PutExtra(TYPE_SRV, id, None, flush);
      PutGrows(r, TYPE_PTR, id, None, false);
      PutGrows(a, TYPE_SRV, id, None, flush);
      PutGrows(b, TYPE_TXT, id, None, flush);
      AddressesGrow(b.PutExtra(TYPE_TXT, id, None, flush), s, shared || s.hostItem != Some(server.selfHost), flush);
    } else if q.kind == TYPE_SRV {
      PutGrows(r, TYPE_SRV, id, None, flush);
      AddressesGrow(r.Put(TYPE_SRV, id, None, flush), s, true, flush);
    } else {
      PutGrows(r, TYPE_TXT, id, None, flush);
      PutGrows(r, TYPE_SDPTR, id, None, false);
    }
  }

  lemma {:induction false} ServicesGrow(server: Server, r: Reply, services: seq<Registered>, q: Question, known: seq<Known>,
                                        shared: bool, flush: bool)
    ensures Grows(r, FromServices(server, r, services, q, known, shared, flush))
    decreases |services|
  {
    hide FromService, AskedFor, IsKnown;
    if services != [] {
      var s := services[0];
      ServiceGrows(server, r, s, q, shared, flush);
      var next :=
        if AskedFor(server, s, q) && !IsKnown(server, s, known) then
          FromService(server, r, s, q, shared, flush).(count := r.count + 1)
        else r;
      ServicesGrow(server, next, services[1..], q, known, shared, flush);
    }
  }

  lemma {:induction false} HostsGrow(list: seq<Answer>, hosts: seq<nat>, flush: bool)
    ensures list <= HostAddresses(list, hosts, flush)
    ensures NoRepeats(list) ==> NoRepeats(HostAddresses(list, hosts, flush))
    decreases |hosts|
  {
    if hosts != [] {
      var host := if |hosts| > 1 then Some(hosts[1]) else None;
      OneHostGrows(list, host, flush);
      HostsGrow(AddHost(list, host, flush), hosts[1..], flush);
    }
  }

  lemma OneHostGrows(list: seq<Answer>, host: Option<nat>, flush: bool)
    ensures list <= AddHost(list, host, flush)
    ensures NoRepeats(list) ==> NoRepeats(AddHost(list, host, flush))
  {
    if NoRepeats(list) {
      var a := Answer(TYPE_A, None, host, flush, false);
      AddAnswerKeepsNoRepeats(list, a);
      AddAnswerKeepsNoRepeats(AddAnswer(list, a), Answer(TYPE_AAAA, None, host, flush, false));
    }
  }

  lemma QuestionGrows(server: Server, r: Reply, q: Question, known: seq<Known>, probe: bool, flush: bool)
    ensures Grows(r, FromQuestion(server, r, q, known, probe, flush))
  {
    hide FromService, FromServices, FindService, AddHost, HostAddresses, AddAnswer;
    var shared := q.kind == TYPE_PTR || q.kind == TYPE_SDPTR || !probe;
    var found := FindService(server, server.services, q);
    if found.Some? {
      ServiceGrows(server, r, found.value, q, shared, flush);
    }
    ServicesGrow(server, r, server.services, q, known, shared, flush);
    OneHostGrows(r.answers, q.hostItem, flush);
    OneHostGrows(r.answers, Some(server.selfHost), flush);
    HostsGrow(AddHost(r.answers, Some(server.selfHost), flush), server.hosts, flush);
    PutGrows(r, q.kind, None, None, flush);
  }

  lemma {:induction false} QuestionsGrow(server: Server, r: Reply, qs: seq<Question>, known: seq<Known>, probe: bool, flush: bool)
    ensures Grows(r, FromQuestions(server, r, qs, known, probe, flush))
    decreases |qs|
  {
    hide FromQuestion;
    if qs != [] {
      QuestionGrows(server, r, qs[0], known, probe, flush);
      QuestionsGrow(server, FromQuestion(server, r, qs[0], known, probe, flush), qs[1..], known, probe, flush);
    }
  }

  /** Whatever is asked, no section of the reply holds the same (type, service, host) twice, and
      what an earlier question put in stays in its place. */
  lemma RepliesRepeatNothing(server: Server, before: seq<Question>, after: seq<Question>, known: seq<Known>, probe: bool, flush: bool)
    ensures Clean(FromQuestions(server, NO_REPLY, before + after, known, probe, flush))
    ensures FromQuestions(server, NO_REPLY, before, known, probe, flush).answers
            <= FromQuestions(server, NO_REPLY, before + after, known, probe, flush).answers
    ensures FromQuestions(server, NO_REPLY, before, known, probe, flush).additional
            <= FromQuestions(server, NO_REPLY, before + after, known, probe, flush).additional
  {
    QuestionsGrow(server, NO_REPLY, before + after, known, probe, flush);
    InTwoParts(server, NO_REPLY, before, after, known, probe, flush);
    QuestionsGrow(server, FromQuestions(server, NO_REPLY, before, known, probe, flush), after, known, probe, flush);
  }

  lemma {:induction false} InTwoParts(server: Server, r: Reply, before: seq<Question>, after: seq<Question>, known: seq<Known>,
                                      probe: bool, flush: bool)
    ensures FromQuestions(server, r, before + after, known, probe, flush)
            == FromQuestions(server, FromQuestions(server, r, before, known, probe, flush), after, known, probe, flush)
    decreases |before|
  {
    hide FromQuestion;
    if before == [] {
      assert before + after == after;
    } else {
      assert (before + after)[1..] == before[1..] + after;
      InTwoParts(server, FromQuestion(server, r, before[0], known, probe, flush), before[1..], after, known, probe, flush);
    }
  }

  // ---------------------------------------------------------------- who gets an answer

  predicate HasPtr(list: seq<Answer>, id: nat) {
    exists a :: a in list && a.kind == TYPE_PTR && a.service == Some(id)
  }

  lemma PutPtr(r: Reply, kind: nat, service: Option<nat>, host: Option<nat>, flush: bool, id: nat)
    ensures HasPtr(r.Put(kind, service, host, flush).answers, id)
            <==> HasPtr(r.answers, id) || (kind == TYPE_PTR && service == Some(id))
    ensures r.PutExtra(kind, service, host, flush).answers == r.answers
  {
    var a := Answer(kind, service, host, flush, false);
    var t := AddAnswer(r.answers, a);
    if exists d :: d in r.answers && SameAnswer(d, a) {
      var d :| d in r.answers && SameAnswer(d, a);
    } else {
      assert a in t && forall x :: x in t <==> x in r.answers || x == a;
    }
  }

  /** A PTR question adds the PTR answer of the service, and of no other. */
  lemma ServicePtr(server: Server, r: Reply, s: Registered, q: Question, shared: bool, flush: bool, id: nat)
    requires q.kind == TYPE_PTR
    ensures HasPtr(FromService(server, r, s, q, shared, flush).answers, id) <==> HasPtr(r.answers, id) || s.id == id
  {
    hide HasPtr, AddAnswer;
    var own := Some(s.id);
    var a := r.Put(TYPE_PTR, own, None, false);
    var b := a.PutExtra(TYPE_SRV, own, None, flush);
    var c := b.PutExtra(TYPE_TXT, own, None, flush);
    PutPtr(r, TYPE_PTR, own, None, false, id);
    PutPtr(a, TYPE_SRV, own, None, flush, id);
    PutPtr(b, TYPE_TXT, own, None, flush, id);
    var extra := shared || s.hostItem != Some(server.selfHost);
    PutPtr(c, TYPE_A, own, s.hostItem, flush, id);
    PutPtr(if extra then c.PutExtra(TYPE_A, own, s.hostItem, flush) else c.Put(TYPE_A, own, s.hostItem, flush),
           TYPE_AAAA, own, s.hostItem, flush, id);
  }

  predicate Answered(server: Server, services: seq<Registered>, q: Question, known: seq<Known>, id: nat) {
    exists s :: s in services && s.id == id && AskedFor(server, s, q) && !IsKnown(server, s, known)
  }

  lemma {:induction false} ServicesPtr(server: Server, r: Reply, services: seq<Registered>, q: Question, known: seq<Known>,
                                       shared: bool, flush: bool, id: nat)
    requires q.kind == TYPE_PTR
    ensures HasPtr(FromServices(server, r, services, q, known, shared, flush).answers, id)
            <==> HasPtr(r.answers, id) || Answered(server, services, q, known, id)
    decreases |services|
  {
    hide FromService, AskedFor, IsKnown, HasPtr;
    if services != [] {
      var s := services[0];
      ServicePtr(server, r, s, q, shared, flush, id);
      var next :=
        if AskedFor(server, s, q) && !IsKnown(server, s, known) then
          FromService(server, r, s, q, shared, flush).(count := r.count + 1)
        else r;
      ServicesPtr(server, next, services[1..], q, known, shared, flush, id);
      OneMoreService(server, services, q, known, id);
    }
  }

  lemma OneMoreService(server: Server, services: seq<Registered>, q: Question, known: seq<Known>, id: nat)
    requires services != []
    ensures Answered(server, services, q, known, id) <==>
            (services[0].id == id && AskedFor(server, services[0], q) && !IsKnown(server, services[0], known))
            || Answered(server, services[1..], q, known, id)
  {
    hide AskedFor, IsKnown;
    assert forall s :: s in services <==> s == services[0] || s in services[1..];
  }

  predicate ServicePtrQuestions(qs: seq<Question>) {
    forall i :: 0 <= i < |qs| ==> qs[i].kind == TYPE_PTR && qs[i].service.Some? && qs[i].proto.Some?
  }

  predicate AnsweredByAny(server: Server, qs: seq<Question>, known: seq<Known>, id: nat) {
    exists q :: q in qs && Answered(server, server.services, q, known, id)
  }

  lemma {:induction false} QuestionsPtr(server: Server, r: Reply, qs: seq<Question>, known: seq<Known>, probe: bool, flush: bool, id: nat)
    requires ServicePtrQuestions(qs)
    ensures HasPtr(FromQuestions(server, r, qs, known, probe, flush).answers, id)
            <==> HasPtr(r.answers, id) || AnsweredByAny(server, qs, known, id)
    decreases |qs|
  {
    hide FromServices, HasPtr, Answered;
    if qs != [] {
      ServicesPtr(server, r, server.services, qs[0], known, true, flush, id);
      QuestionsPtr(server, FromQuestion(server, r, qs[0], known, probe, flush), qs[1..], known, probe, flush, id);
      assert forall q :: q in qs <==> q == qs[0] || q in qs[1..];
    }
  }

  /** Known-answer suppression: with service PTR questions only, a service gets its PTR answer
      exactly when some question asks for it and no known answer suppresses it. */
  lemma PtrAnswersExactly(server: Server, qs: seq<Question>, known: seq<Known>, probe: bool, flush: bool, id: nat)
    requires ServicePtrQuestions(qs)
    ensures HasPtr(FromQuestions(server, NO_REPLY, qs, known, probe, flush).answers, id)
            <==> exists q, s :: q in qs && s in server.services && s.id == id
                                && AskedFor(server, s, q) && !IsKnown(server, s, known)
  {
    QuestionsPtr(server, NO_REPLY, qs, known, probe, flush, id);
    hide AskedFor, IsKnown;
    if AnsweredByAny(server, qs, known, id) {
      var q :| q in qs && Answered(server, server.services, q, known, id);
      var s :| s in server.services && s.id == id && AskedFor(server, s, q) && !IsKnown(server, s, known);
    }
    if exists q, s :: q in qs && s in server.services && s.id == id && AskedFor(server, s, q) && !IsKnown(server, s, known) {
      var q, s :| q in qs && s in server.services && s.id == id && AskedFor(server, s, q) && !IsKnown(server, s, known);
      assert Answered(server, server.services, q, known, id);
    }
  }

  /** What section 7.1 of RFC 6762 wants is this: a record that names the instance of the service,
      with more than half of its lifetime left, keeps the answer back. */
  predicate Names(server: Server, s: Registered, r: Known) {
    && r.ttl > 2250 && r.host.Some? && r.service.Some? && r.proto.Some?
    && SameText(s.kind, r.service.value) && SameText(s.proto, r.proto.value)
    && SameText(if s.instance == None then DefaultInstance(server) else s.instance.value, r.host.value)
  }

  // ---------------------------------------------------------------- what the parser does with a record

  /** mdns_utils_get_service_item_instance, or mdns_utils_get_service_item without a host. */
  function FindNamed(server: Server, services: seq<Registered>, r: Known): Option<Registered> {
    if services == [] then None
    else if (if r.host.Some? then InstanceMatch(server, services[0], r.host, r.service, r.proto)
             else ServiceMatch(services[0], r.service, r.proto)) then Some(services[0])
    else FindNamed(server, services[1..], r)
  }

  predicate Registers(server: Server, r: Known) {
    FindNamed(server, server.services, r).Some?
  }

  /** A record under a name of ours: a PTR record with its target, found in answer to a service
      discovery or not; or an SRV, TXT, A or AAAA record with its owner. */
  datatype Received = Pointer(known: Known, discovery: bool) | Other(kind: nat, service: Option<bytes>, proto: Option<bytes>)

  /** A call of remove_parsed_question. */
  datatype Removal = Removal(kind: nat, service: Option<Registered>)

  /** The call that a record leads to, if any.  In a probe only a discovery is answered less. */
  function RemovalOf(server: Server, r: Received, probe: bool): Option<Removal> {
    match r
    case Pointer(known, discovery) =>
      var s := FindNamed(server, server.services, known);
      if s == None || (probe && !discovery) then None else Some(Removal(if discovery then TYPE_SDPTR else TYPE_PTR, s))
    case Other(kind, service, proto) =>
      if probe then None else Some(Removal(kind, FindNamed(server, server.services, Known(None, service, proto, 0))))
  }

  /** question_matches, for questions of the domain local: the parser keeps no others. */
  predicate QuestionMatches(server: Server, q: Question, m: Removal) {
    && q.kind == m.kind
    && if m.kind == TYPE_A || m.kind == TYPE_AAAA then true
       else
         && m.service.Some? && q.service.Some? && q.proto.Some?
         && SameText(m.service.value.kind, q.service.value) && SameText(m.service.value.proto, q.proto.value)
         && if m.kind == TYPE_PTR || m.kind == TYPE_SDPTR then
              m.service.value.instance == None || (q.host.Some? && SameText(m.service.value.instance.value, q.host.value))
            else
              && (m.kind == TYPE_SRV || m.kind == TYPE_TXT)
              && q.host.Some? && SameText(InstanceName(server, m.service.value), q.host.value)
  }

  /** remove_parsed_question: the first match goes. */
  function RemoveQuestion(server: Server, qs: seq<Question>, m: Removal): seq<Question> {
    if qs == [] then []
    else if QuestionMatches(server, qs[0], m) then qs[1..]
    else [qs[0]] + RemoveQuestion(server, qs[1..], m)
  }

  /** What is left to be asked, and what is known. */
  datatype Parsed = Parsed(questions: seq<Question>, known: seq<Known>)

  function Absorb(server: Server, p: Parsed, r: Received, probe: bool): Parsed {
    var m := RemovalOf(server, r, probe);
    Parsed(if m == None then p.questions else RemoveQuestion(server, p.questions, m.value),
           if r.Pointer? && Registers(server, r.known) then [r.known] + p.known else p.known)
  }

  function AbsorbAll(server: Server, p: Parsed, records: seq<Received>, probe: bool): Parsed
    decreases |records|
  {
    if records == [] then p else AbsorbAll(server, Absorb(server, p, records[0], probe), records[1..], probe)
  }

  /** What a query leads to, the parser and the answers together. */
  function ReplyTo(server: Server, qs: seq<Question>, records: seq<Received>, probe: bool, flush: bool): Reply {
    var p := AbsorbAll(server, Parsed(qs, []), records, probe);
    FromQuestions(server, NO_REPLY, p.questions, p.known, probe, flush)
  }

  /** The questions the parser leaves. */
  function Left(server: Server, qs: seq<Question>, records: seq<Received>, probe: bool): seq<Question> {
    AbsorbAll(server, Parsed(qs, []), records, probe).questions
  }

  /** The record makes the parser remove the question. */
  predicate Withdraws(server: Server, r: Received, q: Question, probe: bool) {
    var m := RemovalOf(server, r, probe);
    m.Some? && QuestionMatches(server, q, m.value)
  }

  // ---------------------------------------------------------------- which questions are left

  /** What is known are the PTR records that name one of our services. */
  lemma {:induction false} AbsorbsKnown(server: Server, p: Parsed, records: seq<Received>, probe: bool)
    ensures var t := AbsorbAll(server, p, records, probe);
            forall k :: k in t.known <==> k in p.known || (exists r :: r in records && r.Pointer? && r.known == k && Registers(server, k))
    decreases |records|
  {
    hide Registers, RemovalOf, RemoveQuestion;
    if records != [] {
      AbsorbsKnown(server, Absorb(server, p, records[0], probe), records[1..], probe);
      assert forall r :: r in records <==> r == records[0] || r in records[1..];
    }
  }

  lemma {:induction false} RemovedIsMatched(server: Server, qs: seq<Question>, m: Removal, q: Question)
    ensures q in RemoveQuestion(server, qs, m) ==> q in qs
    ensures q in qs && !QuestionMatches(server, q, m) ==> q in RemoveQuestion(server, qs, m)
  {
    hide QuestionMatches;
    if qs != [] {
      RemovedIsMatched(server, qs[1..], m, q);
    }
  }

  /** A question is not removed unless a record withdraws it. */
  lemma {:induction false} LeftUnlessWithdrawn(server: Server, p: Parsed, records: seq<Received>, probe: bool, q: Question)
    ensures q in AbsorbAll(server, p, records, probe).questions ==> q in p.questions
    ensures q in p.questions && (forall r :: r in records ==> !Withdraws(server, r, q, probe)) ==>
              q in AbsorbAll(server, p, records, probe).questions
    decreases |records|
  {
    hide QuestionMatches, RemovalOf, RemoveQuestion;
    if records != [] {
      var m := RemovalOf(server, records[0], probe);
      if m.Some? {
        RemovedIsMatched(server, p.questions, m.value, q);
      }
      LeftUnlessWithdrawn(server, Absorb(server, p, records[0], probe), records[1..], probe, q);
      if forall r :: r in records ==> !Withdraws(server, r, q, probe) {
        assert !Withdraws(server, records[0], q, probe);
        assert forall r :: r in records[1..] ==> r in records;
      }
    }
  }

  /** Only the first question that matches goes. */
  lemma {:induction false} OnlyFirstGoes(server: Server, qs: seq<Question>, m: Removal, i: nat)
    requires i <= |qs| && (forall j :: 0 <= j < i ==> !QuestionMatches(server, qs[j], m))
    requires i < |qs| ==> QuestionMatches(server, qs[i], m)
    ensures RemoveQuestion(server, qs, m) == if i < |qs| then qs[..i] + qs[i + 1..] else qs
    decreases i
  {
    hide QuestionMatches;
    if i == 0 {
      assert qs[..0] == [] && (qs != [] ==> [] + qs[1..] == qs[1..]);
    } else {
      var rest := qs[1..];
      assert forall j :: 0 <= j < |rest| ==> rest[j] == qs[j + 1];
      OnlyFirstGoes(server, rest, m, i - 1);
      assert [qs[0]] + rest == qs;
      if i < |qs| {
        assert qs[..i] + qs[i + 1..] == [qs[0]] + (rest[..i - 1] + rest[i..]);
      }
    }
  }

  /** No record withdraws two of the questions. */
  predicate Apart(server: Server, qs: seq<Question>, records: seq<Received>, probe: bool) {
    forall r, i, j :: r in records && 0 <= i < j < |qs| ==>
      !(Withdraws(server, r, qs[i], probe) && Withdraws(server, r, qs[j], probe))
  }

  /** Where the questions left stood before: in order, and none twice. */
  predicate Within(qs: seq<Question>, all: seq<Question>, places: seq<nat>) {
    && |places| == |qs| && (forall i, j :: 0 <= i < j < |places| ==> places[i] < places[j])
    && forall i :: 0 <= i < |places| ==> places[i] < |all| && qs[i] == all[places[i]]
  }

  function Shifted(places: seq<nat>): (r: seq<nat>)
    ensures |r| == |places| && forall i :: 0 <= i < |r| ==> r[i] == places[i] + 1
  {
    seq(|places|, i requires 0 <= i < |places| => places[i] + 1)
  }

  lemma WithinBehind(x: Question, qs: seq<Question>, rest: seq<Question>, places: seq<nat>)
    requires Within(qs, rest, places)
    ensures Within([x] + qs, [x] + rest, [0] + Shifted(places)) && Within(qs, [x] + rest, Shifted(places))
  {}

  lemma WithinItself(qs: seq<Question>) returns (places: seq<nat>)
    ensures Within(qs, qs, places)
  {
    places := seq(|qs|, i => i);
  }

  lemma {:induction false} RemovalIsWithin(server: Server, qs: seq<Question>, m: Removal) returns (places: seq<nat>)
    ensures Within(RemoveQuestion(server, qs, m), qs, places)
  {
    hide QuestionMatches, Within;
    if qs == [] {
      places := WithinItself([]);
    } else {
      assert [qs[0]] + qs[1..] == qs;
      if QuestionMatches(server, qs[0], m) {
        places := WithinItself(qs[1..]);
        WithinBehind(qs[0], qs[1..], qs[1..], places);
        places := Shifted(places);
      } else {
        places := RemovalIsWithin(server, qs[1..], m);
        WithinBehind(qs[0], RemoveQuestion(server, qs[1..], m), qs[1..], places);
        places := [0] + Shifted(places);
      }
    }
  }

  lemma {:induction false} OnlyMatchGoes(server: Server, qs: seq<Question>, m: Removal, q: Question)
    requires forall i, j :: 0 <= i < j < |qs| ==> !(QuestionMatches(server, qs[i], m) && QuestionMatches(server, qs[j], m))
    ensures q in RemoveQuestion(server, qs, m) <==> q in qs && !QuestionMatches(server, q, m)
  {
    hide QuestionMatches;
    if qs != [] {
      var rest := qs[1..];
      assert forall i :: 0 <= i < |rest| ==> rest[i] == qs[i + 1];
      OnlyMatchGoes(server, rest, m, q);
      if QuestionMatches(server, qs[0], m) && q in rest {
        var i :| 0 <= i < |rest| && rest[i] == q;
        assert !QuestionMatches(server, qs[i + 1], m);
      }
    }
  }

  lemma ApartStays(server: Server, qs: seq<Question>, all: seq<Question>, places: seq<nat>, records: seq<Received>, probe: bool)
    requires Within(qs, all, places) && Apart(server, all, records, probe)
    ensures Apart(server, qs, records, probe)
  {
    hide Withdraws;
  }

  lemma ApartFewer(server: Server, qs: seq<Question>, records: seq<Received>, probe: bool)
    requires records != [] && Apart(server, qs, records, probe)
    ensures Apart(server, qs, records[1..], probe)
  {
    hide Withdraws;
    assert forall r :: r in records[1..] ==> r in records;
  }

  /** Exactly the withdrawn questions are gone, if no record withdraws two of them; and a query
      with a single question is always of that kind. */
  lemma {:induction false} LeftExactly(server: Server, p: Parsed, records: seq<Received>, probe: bool, q: Question)
    requires Apart(server, p.questions, records, probe)
    ensures q in AbsorbAll(server, p, records, probe).questions <==>
            q in p.questions && forall r :: r in records ==> !Withdraws(server, r, q, probe)
    decreases |records|
  {
    hide QuestionMatches, RemovalOf, RemoveQuestion;
    if records != [] {
      var r := records[0];
      var m := RemovalOf(server, r, probe);
      var t := Absorb(server, p, r, probe);
      assert r in records;
      if m.Some? {
        forall i, j | 0 <= i < j < |p.questions|
          ensures !(QuestionMatches(server, p.questions[i], m.value) && QuestionMatches(server, p.questions[j], m.value))
        {
          assert !(Withdraws(server, r, p.questions[i], probe) && Withdraws(server, r, p.questions[j], probe));
        }
        OnlyMatchGoes(server, p.questions, m.value, q);
        var places := RemovalIsWithin(server, p.questions, m.value);
        ApartStays(server, t.questions, p.questions, places, records, probe);
      }
      ApartFewer(server, t.questions, records, probe);
      LeftExactly(server, t, records[1..], probe, q);
      assert forall x :: x in records <==> x == r || x in records[1..];
    }
  }

  // ---------------------------------------------------------------- the query as a whole

  /** Some record of the packet names one of our services and keeps the answer back. */
  predicate KeptBack(server: Server, s: Registered, records: seq<Received>) {
    exists r :: r in records && r.Pointer? && Registers(server, r.known) && Suppresses(server, s, r.known)
  }

  lemma {:induction false} LeftAreTyped(server: Server, qs: seq<Question>, records: seq<Received>, probe: bool)
    requires ServicePtrQuestions(qs)
    ensures ServicePtrQuestions(Left(server, qs, records, probe))
  {
    hide AbsorbAll;
    var left := Left(server, qs, records, probe);
    forall i | 0 <= i < |left|
      ensures left[i] in qs
    {
      LeftUnlessWithdrawn(server, Parsed(qs, []), records, probe, left[i]);
    }
  }

  /** Whatever services there are and whatever the packet holds: a service gets its PTR answer
      exactly when one of the questions that are left asks for it and no record keeps it back. */
  lemma QueryAnswersExactly(server: Server, qs: seq<Question>, records: seq<Received>, probe: bool, flush: bool, id: nat)
    requires ServicePtrQuestions(qs)
    ensures HasPtr(ReplyTo(server, qs, records, probe, flush).answers, id)
            <==> exists q, s :: q in Left(server, qs, records, probe) && s in server.services && s.id == id
                                && AskedFor(server, s, q) && !KeptBack(server, s, records)
  {
    hide AskedFor, Suppresses, Registers, FromQuestions, HasPtr, AbsorbAll;
    var p := AbsorbAll(server, Parsed(qs, []), records, probe);
    AbsorbsKnown(server, Parsed(qs, []), records, probe);
    LeftAreTyped(server, qs, records, probe);
    PtrAnswersExactly(server, p.questions, p.known, probe, flush, id);
    forall s
      ensures IsKnown(server, s, p.known) <==> KeptBack(server, s, records)
    {
      if IsKnown(server, s, p.known) {
        var k :| k in p.known && Suppresses(server, s, k);
        var r :| r in records && r.Pointer? && r.known == k && Registers(server, k);
      }
    }
  }

  /** Section 7.1 of RFC 6762: an answer is due when it is asked for and no record names the
      instance with more than half of its lifetime left. */
  predicate Wanted(server: Server, qs: seq<Question>, s: Registered) {
    exists q :: q in qs && AskedFor(server, s, q)
  }

  predicate Due(server: Server, qs: seq<Question>, records: seq<Received>, s: Registered) {
    Wanted(server, qs, s) && !exists r :: r in records && r.Pointer? && Names(server, s, r.known)
  }

  lemma {:induction false} NamedIsRegistered(server: Server, services: seq<Registered>, s: Registered, r: Known)
    requires s in services
    requires if r.host.Some? then InstanceMatch(server, s, r.host, r.service, r.proto) else ServiceMatch(s, r.service, r.proto)
    ensures FindNamed(server, services, r).Some?
  {
    if services[0] != s {
      NamedIsRegistered(server, services[1..], s, r);
    }
  }

  /** The test in the loop is that of section 7.1 for a service with a name of its own, and never
      so for one under the default name. */
  lemma KeptBackByName(server: Server, s: Registered, records: seq<Received>)
    requires s in server.services && s.instance.Some?
    ensures KeptBack(server, s, records) <==> exists r :: r in records && r.Pointer? && Names(server, s, r.known)
  {
    forall r | r in records && r.Pointer?
      ensures Names(server, s, r.known) <==> Registers(server, r.known) && Suppresses(server, s, r.known)
    {
      if Names(server, s, r.known) {
        NamedIsRegistered(server, server.services, s, r.known);
      }
    }
  }

  /** Exactly when the reply meets section 7.1 for a service: with a name of its own, if one of
      the questions that ask for it is left, should the answer be due; under the default name,
      if the parser has left such a question just when it is due. */
  lemma MeetsSection71(server: Server, qs: seq<Question>, records: seq<Received>, probe: bool, flush: bool, s: Registered)
    requires ServicePtrQuestions(qs) && s in server.services
    requires forall t :: t in server.services && t.id == s.id ==> t == s
    ensures var left := Wanted(server, Left(server, qs, records, probe), s);
            (HasPtr(ReplyTo(server, qs, records, probe, flush).answers, s.id) <==> Due(server, qs, records, s))
            <==> if s.instance.Some? then Due(server, qs, records, s) ==> left
                 else Due(server, qs, records, s) <==> (left && !KeptBack(server, s, records))
  {
    hide AskedFor, HasPtr, ReplyTo, AbsorbAll, KeptBack, Names;
    var left := Left(server, qs, records, probe);
    QueryAnswersExactly(server, qs, records, probe, flush, s.id);
    assert (exists q, t :: q in left && t in server.services && t.id == s.id && AskedFor(server, t, q) && !KeptBack(server, t, records))
           <==> (Wanted(server, left, s) && !KeptBack(server, s, records));
    forall q | q in left
      ensures q in qs
    {
      LeftUnlessWithdrawn(server, Parsed(qs, []), records, probe, q);
    }
    if s.instance.Some? {
      KeptBackByName(server, s, records);
    }
  }

  /** For a single question this is a test of the records alone: section 7.1 is not met for a
      service with a name of its own exactly when the answer is due but some record makes the
      parser withdraw the question. */
  lemma SingleQuestion(server: Server, q: Question, records: seq<Received>, probe: bool, flush: bool, s: Registered)
    requires ServicePtrQuestions([q]) && s in server.services && s.instance.Some?
    requires forall t :: t in server.services && t.id == s.id ==> t == s
    ensures (HasPtr(ReplyTo(server, [q], records, probe, flush).answers, s.id) <==> Due(server, [q], records, s))
            <==> !(Due(server, [q], records, s) && exists r :: r in records && Withdraws(server, r, q, probe))
  {
    hide AskedFor, HasPtr, ReplyTo, AbsorbAll, KeptBack, Names, Withdraws;
    MeetsSection71(server, [q], records, probe, flush, s);
    LeftOfOne(server, q, records, probe, s);
  }

  lemma LeftOfOne(server: Server, q: Question, records: seq<Received>, probe: bool, s: Registered)
    ensures Wanted(server, Left(server, [q], records, probe), s)
            <==> AskedFor(server, s, q) && forall r :: r in records ==> !Withdraws(server, r, q, probe)
  {
    hide AskedFor, AbsorbAll, Withdraws;
    var left := Left(server, [q], records, probe);
    LeftExactly(server, Parsed([q], []), records, probe, q);
    forall x | x in left
      ensures x == q
    {
      LeftUnlessWithdrawn(server, Parsed([q], []), records, probe, x);
    }
  }

  /** Under the default name it is met exactly when the records that name the service with
      enough lifetime and those that withdraw the question come together: the lifetime is not
      looked at.  (PTR records that name a type instead of an instance are left aside here.) */
  lemma SingleQuestionByDefault(server: Server, q: Question, records: seq<Received>, probe: bool, flush: bool, s: Registered)
    requires ServicePtrQuestions([q]) && s in server.services && s.instance == None && AskedFor(server, s, q)
    requires forall t :: t in server.services && t.id == s.id ==> t == s
    requires forall r :: r in records && r.Pointer? ==> r.known.host.Some?
    ensures (HasPtr(ReplyTo(server, [q], records, probe, flush).answers, s.id) <==> Due(server, [q], records, s))
            <==> ((exists r :: r in records && r.Pointer? && Names(server, s, r.known))
                  <==> (exists r :: r in records && Withdraws(server, r, q, probe)))
  {
    hide AskedFor, HasPtr, ReplyTo, AbsorbAll, Names, Withdraws, InstanceMatch, ServiceMatch;
    MeetsSection71(server, [q], records, probe, flush, s);
    LeftOfOne(server, q, records, probe, s);
    assert !KeptBack(server, s, records);
    assert q in [q];
  }

  // ---------------------------------------------------------------- two queries that go wrong

  lemma OneWithdrawn(server: Server, q: Question, r: Received, flush: bool)
    requires Withdraws(server, r, q, false)
    ensures ReplyTo(server, [q], [r], false, flush) == NO_REPLY
  {
    var p := Absorb(server, Parsed([q], []), r, false);
    assert [q][1..] == [] && [r][1..] == [];
    assert p.questions == [];
    assert AbsorbAll(server, p, [], false) == p;
  }

  /** With a service under the default name the question itself is removed, at any lifetime, and
      with it the answer of every other service of that type: here one that is asked for and not
      known at all. */
  lemma DefaultNameSilencesAll(server: Server, s: Registered, other: Registered, q: Question, r: Known, flush: bool)
    requires server.services == [s, other] && s.instance == None && other.instance.Some? && other.hostname.Some?
    requires q.kind == TYPE_PTR && q.host == None && !q.sub && q.service == Some(s.kind) && q.proto == Some(s.proto)
    requires other.kind == s.kind && other.proto == s.proto
    requires r.host == Some(DefaultInstance(server)) && r.service == Some(s.kind) && r.proto == Some(s.proto)
    requires !SameText(other.instance.value, DefaultInstance(server))
    ensures Due(server, [q], [Pointer(r, false)], other)
    ensures ReplyTo(server, [q], [Pointer(r, false)], false, flush) == NO_REPLY
  {
    assert server.services[0] == s && FindNamed(server, server.services, r) == Some(s);
    assert q in [q] && AskedFor(server, other, q);
    assert !Names(server, other, r);
    OneWithdrawn(server, q, Pointer(r, false), flush);
  }

  /** A service with a name of its own is silenced, too: when the question is for that instance,
      a record that names it removes the question even if its lifetime has nearly run out. */
  lemma OwnNameSilenced(server: Server, s: Registered, x: bytes, q: Question, r: Known, flush: bool)
    requires server.services == [s] && s.instance == Some(x) && x != [] && s.hostname.Some?
    requires q.kind == TYPE_PTR && q.host == Some(x) && !q.sub && q.service == Some(s.kind) && q.proto == Some(s.proto)
    requires r == Known(Some(x), Some(s.kind), Some(s.proto), 1)
    ensures Due(server, [q], [Pointer(r, false)], s) && !Suppresses(server, s, r)
    ensures ReplyTo(server, [q], [Pointer(r, false)], false, flush) == NO_REPLY
  {
    assert server.services[0] == s && FindNamed(server, server.services, r) == Some(s);
    assert q in [q] && AskedFor(server, s, q);
    assert !Names(server, s, r);
    OneWithdrawn(server, q, Pointer(r, false), flush);
  }

  // ---------------------------------------------------------------- the hosts of a query for everything

  predicate HasHost(list: seq<Answer>, host: Option<nat>) {
    exists a :: a in list && a.host == host
  }

  lemma AddHostHas(list: seq<Answer>, added: Option<nat>, flush: bool, host: Option<nat>)
    ensures HasHost(AddHost(list, added, flush), host) <==> HasHost(list, host) || host == added
  {
    var a := Answer(TYPE_A, None, added, flush, false);
    var more := AddAnswer(list, a);
    AddAnswerHas(list, a, host);
    AddAnswerHas(more, Answer(TYPE_AAAA, None, added, flush, false), host);
  }

  lemma AddAnswerHas(list: seq<Answer>, a: Answer, host: Option<nat>)
    ensures HasHost(AddAnswer(list, a), host) <==> HasHost(list, host) || host == a.host
  {
    if !(exists d :: d in list && SameAnswer(d, a)) {
      assert AddAnswer(list, a) == list + [a] && a in list + [a];
      assert forall x :: x in list + [a] <==> x in list || x == a;
    }
  }

  lemma {:induction false} HostListHas(list: seq<Answer>, hosts: seq<nat>, flush: bool, host: Option<nat>)
    ensures HasHost(HostAddresses(list, hosts, flush), host) <==>
            HasHost(list, host) || (hosts != [] && (host == None || host.value in hosts[1..]))
    decreases |hosts|
  {
    hide AddHost, HasHost;
    if hosts != [] {
      var next := if |hosts| > 1 then Some(hosts[1]) else None;
      AddHostHas(list, next, flush, host);
      HostListHas(AddHost(list, next, flush), hosts[1..], flush, host);
      if |hosts| > 1 {
        assert hosts[1..][0] == hosts[1];
        assert forall h :: h in hosts[1..] <==> h == hosts[1] || h in hosts[1..][1..];
      }
    }
  }

  /** append_host_list steps to the next host before it appends: the first delegated host is
      answered exactly when it is our own or occurs again, all others are, and so is a host that
      does not exist. */
  lemma FirstHostForgotten(own: nat, hosts: seq<nat>, flush: bool, host: nat)
    ensures var list := HostAddresses(AddHost([], Some(own), flush), hosts, flush);
            && (HasHost(list, Some(host)) <==> host == own || (hosts != [] && host in hosts[1..]))
            && (HasHost(list, None) <==> hosts != [])
            && (hosts != [] ==> (HasHost(list, Some(hosts[0])) <==> hosts[0] == own || hosts[0] in hosts[1..]))
  {
    AddHostHas([], Some(own), flush, Some(host));
    AddHostHas([], Some(own), flush, None);
    HostListHas(AddHost([], Some(own), flush), hosts, flush, Some(host));
    HostListHas(AddHost([], Some(own), flush), hosts, flush, None);
    if hosts != [] {
      AddHostHas([], Some(own), flush, Some(hosts[0]));
      HostListHas(AddHost([], Some(own), flush), hosts, flush, Some(hosts[0]));
    }
  }

  // ---------------------------------------------------------------- the loops

  method AppendAddresses(r: Reply, s: Registered, extra: bool, flush: bool) returns (t: Reply)
    ensures t == PutAddresses(r, s, extra, flush)
  {
    var list := if extra then r.additional else r.answers;
    list := CreateAnswer(list, Answer(TYPE_A, Some(s.id), s.hostItem, flush, false));
    list := CreateAnswer(list, Answer(TYPE_AAAA, Some(s.id), s.hostItem, flush, false));
    t := if extra then r.(additional := list) else r.(answers := list);
  }

  /** create_answer_from_service. */
  method AnswerFromService(server: Server, r: Reply, s: Registered, q: Question, shared: bool, flush: bool) returns (t: Reply)
    ensures t == FromService(server, r, s, q, shared, flush)
  {
    var answers, additional := r.answers, r.additional;
    var id := Some(s.id);
    t := r;
    if q.kind == TYPE_ANY && !Blank(q.host) {
      answers := CreateAnswer(answers, Answer(TYPE_SRV, id, None, flush, false));
      answers := CreateAnswer(answers, Answer(TYPE_TXT, id, None, flush, false));
      t := AppendAddresses(r.(answers := answers), s, true, flush);
    } else if q.kind == TYPE_PTR || q.kind == TYPE_ANY {
      answers := CreateAnswer(answers, Answer(TYPE_PTR, id, None, false, false));
      additional := CreateAnswer(additional, Answer(TYPE_SRV, id, None, flush, false));
      additional := CreateAnswer(additional, Answer(TYPE_TXT, id, None, flush, false));
      t := AppendAddresses(r.(answers := answers, additional := additional), s, shared || s.hostItem != Some(server.selfHost), flush);
    } else if q.kind == TYPE_SRV {
      answers := CreateAnswer(answers, Answer(TYPE_SRV, id, None, flush, false));
      t := AppendAddresses(r.(answers := answers), s, true, flush);
    } else if q.kind == TYPE_TXT {
      answers := CreateAnswer(answers, Answer(TYPE_TXT, id, None, flush, false));
      t := r.(answers := answers);
    } else if q.kind == TYPE_SDPTR {
      answers := CreateAnswer(answers, Answer(TYPE_SDPTR, id, None, false, false));
      t := r.(answers := answers);
    }
  }

  /** The loop over the subtypes in service_match_ptr_question. */
  method HasSubtype(subtypes: seq<bytes>, name: bytes) returns (found: bool)
    ensures found == exists t :: t in subtypes && SameText(t, name)
  {
    for i := 0 to |subtypes|
      invariant forall j :: 0 <= j < i ==> !SameText(subtypes[j], name)
    {
      if SameText(subtypes[i], name) {
        assert subtypes[i] in subtypes;
        return true;
      }
    }
    found := false;
  }

  method MatchesQuestion(server: Server, s: Registered, q: Question) returns (r: bool)
    ensures r == AskedFor(server, s, q)
  {
    if !ServiceMatch(s, q.service, q.proto) {
      return false;
    }
    if q.sub {
      if q.host == None {
        return false;
      }
      r := HasSubtype(s.subtypes, q.host.value);
    } else {
      r := q.host == None || SameText(InstanceName(server, s), q.host.value);
    }
  }

  /** The loop over the records. */
  method AlreadyKnown(server: Server, s: Registered, known: seq<Known>) returns (r: bool)
    ensures r == IsKnown(server, s, known)
  {
    for i := 0 to |known|
      invariant forall j :: 0 <= j < i ==> !Suppresses(server, s, known[j])
    {
      if Suppresses(server, s, known[i]) {
        assert known[i] in known;
        return true;
      }
    }
    r := false;
  }

  /** The loop over the services. */
  method AnswerFromServices(server: Server, r: Reply, q: Question, known: seq<Known>, shared: bool, flush: bool) returns (t: Reply)
    ensures t == FromServices(server, r, server.services, q, known, shared, flush)
  {
    hide AskedFor, IsKnown, FromService;
    var services := server.services;
    t := r;
    for i := 0 to |services|
      invariant FromServices(server, t, services[i..], q, known, shared, flush)
                == FromServices(server, r, services, q, known, shared, flush)
    {
      assert services[i..][1..] == services[i + 1..];
      var asked := MatchesQuestion(server, services[i], q);
      if asked {
        var skip := AlreadyKnown(server, services[i], known);
        if !skip {
          var more := AnswerFromService(server, t, services[i], q, shared, flush);
          t := more.(count := t.count + 1);
        }
      }
    }
  }

  method SearchService(server: Server, q: Question) returns (found: Option<Registered>)
    ensures found == FindService(server, server.services, q)
  {
    var services := server.services;
    for i := 0 to |services|
      invariant FindService(server, services[i..], q) == FindService(server, services, q)
    {
      assert services[i..][1..] == services[i + 1..];
      var s := services[i];
      if if q.host.Some? then InstanceMatch(server, s, q.host, q.service, q.proto) else ServiceMatch(s, q.service, q.proto) {
        return Some(s);
      }
    }
    found := None;
  }

  /** append_host_list. */
  method AppendHostList(list: seq<Answer>, server: Server, flush: bool) returns (r: seq<Answer>)
    ensures r == HostAddresses(AddHost(list, Some(server.selfHost), flush), server.hosts, flush)
  {
    r := AppendHost(list, Some(server.selfHost), flush);
    ghost var first := r;
    var hosts := server.hosts;
    while hosts != []
      invariant HostAddresses(r, hosts, flush) == HostAddresses(first, server.hosts, flush)
    {
      var next := if |hosts| > 1 then Some(hosts[1]) else None;
      r := AppendHost(r, next, flush);
      hosts := hosts[1..];
    }
  }

  /** One turn of the outer loop. */
  method AnswerQuestion(server: Server, r: Reply, q: Question, known: seq<Known>, probe: bool, flush: bool) returns (t: Reply)
    ensures t == FromQuestion(server, r, q, known, probe, flush)
  {
    hide FromService, FromServices, FindService, AddHost, HostAddresses;
    var shared := q.kind == TYPE_PTR || q.kind == TYPE_SDPTR || !probe;
    if q.kind == TYPE_SRV || q.kind == TYPE_TXT {
      var s := SearchService(server, q);
      if s == None {
        return r;
      }
      t := AnswerFromService(server, r, s.value, q, shared, flush);
      t := t.(count := r.count + 1);
    } else if q.service.Some? && q.proto.Some? {
      t := AnswerFromServices(server, r, q, known, shared, flush);
    } else if q.kind == TYPE_A || q.kind == TYPE_AAAA {
      var answers := AppendHost(r.answers, q.hostItem, flush);
      t := r.(answers := answers, count := r.count + 1);
    } else if q.kind == TYPE_ANY {
      var answers := AppendHostList(r.answers, server, flush);
      t := r.(answers := answers, count := r.count + 1);
    } else {
      var answers := CreateAnswer(r.answers, Answer(q.kind, None, None, flush, false));
      t := r.(answers := answers, count := r.count + 1);
    }
  }

  lemma PassedOver(server: Server, qs: seq<Question>, m: Removal, i: nat)
    requires i < |qs| && !QuestionMatches(server, qs[i], m)
    ensures qs[..i] + RemoveQuestion(server, qs[i..], m) == qs[..i + 1] + RemoveQuestion(server, qs[i + 1..], m)
  {
    hide QuestionMatches;
    assert qs[i..][1..] == qs[i + 1..] && qs[i..][0] == qs[i];
    assert qs[..i + 1] == qs[..i] + [qs[i]];
  }

  /** The loops of remove_parsed_question. */
  method RemoveParsedQuestion(server: Server, qs: seq<Question>, m: Removal) returns (r: seq<Question>)
    ensures r == RemoveQuestion(server, qs, m)
  {
    hide QuestionMatches;
    var i := 0;
    assert qs[..0] == [] && qs[0..] == qs;
    while i < |qs| && !QuestionMatches(server, qs[i], m)
      invariant 0 <= i <= |qs| && qs[..i] + RemoveQuestion(server, qs[i..], m) == RemoveQuestion(server, qs, m)
    {
      PassedOver(server, qs, m, i);
      i := i + 1;
    }
    if i == |qs| {
      assert qs[..i] + [] == qs;
      return qs;
    }
    assert qs[i..][1..] == qs[i + 1..];
    r := qs[..i] + qs[i + 1..];
  }

  /** What the loop over the records of a packet does with those under a name of ours. */
  method AbsorbRecords(server: Server, qs: seq<Question>, records: seq<Received>, probe: bool) returns (p: Parsed)
    ensures p == AbsorbAll(server, Parsed(qs, []), records, probe)
  {
    hide RemoveQuestion, RemovalOf, Registers;
    p := Parsed(qs, []);
    for i := 0 to |records|
      invariant AbsorbAll(server, p, records[i..], probe) == AbsorbAll(server, Parsed(qs, []), records, probe)
    {
      assert records[i..][1..] == records[i + 1..];
      var r := records[i];
      ghost var next := Absorb(server, p, r, probe);
      var m := RemovalOf(server, r, probe);
      if m.Some? {
        var left := RemoveParsedQuestion(server, p.questions, m.value);
        p := p.(questions := left);
      }
      if r.Pointer? && Registers(server, r.known) {
        p := p.(known := [r.known] + p.known);
      }
      assert p == next;
    }
  }

  /** mdns_priv_create_answer_from_parsed_packet, up to the decision how to send the reply; None
      means that there is no reply. */
  method CreateReply(server: Server, qs: seq<Question>, known: seq<Known>, probe: bool, flush: bool) returns (r: Option<Reply>)
    ensures var all := FromQuestions(server, NO_REPLY, qs, known, probe, flush);
            r == if all.count == 0 then None else Some(all)
  {
    hide FromQuestion;
    var t := NO_REPLY;
    for i := 0 to |qs|
      invariant FromQuestions(server, t, qs[i..], known, probe, flush) == FromQuestions(server, NO_REPLY, qs, known, probe, flush)
    {
      assert qs[i..][1..] == qs[i + 1..];
      t := AnswerQuestion(server, t, qs[i], known, probe, flush);
    }
    r := if t.count == 0 then None else Some(t);
  }
}
