/** What a reply holds: for every kind of question and for both sections exactly which answers
    mdns_priv_create_answer_from_parsed_packet of mdns_send.c puts in, and with which flush bit. */
module ReplyContents {
  import opened Bytes
  import opened RecordWriter
  import opened Packets
  import opened KnownAnswers
  import FqdnReader

  type Question = KnownAnswers.Question

  // ---------------------------------------------------------------- who is asked

  /** The labels of the name a question is about, but for the domain. */
  function NameOf(q: Question): seq<bytes>
    requires q.service.Some? && q.proto.Some? && (q.sub ==> q.host.Some?)
  {
    var typed := [q.service.value, q.proto.value];
    if q.sub then [q.host.value, FqdnReader.SUB] + typed else if q.host.Some? then [q.host.value] + typed else typed
  }

  predicate SameName(a: seq<bytes>, b: seq<bytes>) {
    |a| == |b| && forall i :: 0 <= i < |a| ==> SameText(a[i], b[i])
  }

  /** The names of a service: its type, its instance, and its subtypes. */
  predicate HasName(server: Server, s: Registered, name: seq<bytes>) {
    || SameName([s.kind, s.proto], name)
    || SameName([InstanceName(server, s), s.kind, s.proto], name)
    || exists t :: t in s.subtypes && SameName([t, FqdnReader.SUB, s.kind, s.proto], name)
  }

  /** The name of an instance is its own, or that of the server, or that of the host. */
  lemma DefaultName(server: Server, s: Registered)
    ensures InstanceName(server, s)
            == if s.instance.Some? && s.instance.value != [] then s.instance.value
               else if server.instance != [] then server.instance else server.hostname
    ensures DefaultInstance(server) in [server.instance, server.hostname] && (server.instance != [] ==> DefaultInstance(server) == server.instance)
  {}

  /** A service with a host name is asked for exactly by its own names. */
  lemma AskedByName(server: Server, s: Registered, q: Question)
    requires q.service.Some? && q.proto.Some? && (q.sub ==> q.host.Some?)
    ensures AskedFor(server, s, q) <==> s.hostname.Some? && HasName(server, s, NameOf(q))
  {
    var name := NameOf(q);
    assert SameText(FqdnReader.SUB, FqdnReader.SUB);
    if AskedFor(server, s, q) {
      if q.sub {
        var t :| t in s.subtypes && SameText(t, q.host.value);
        assert SameName([t, FqdnReader.SUB, s.kind, s.proto], name);
      } else if q.host.Some? {
        assert SameName([InstanceName(server, s), s.kind, s.proto], name);
      } else {
        assert SameName([s.kind, s.proto], name);
      }
    }
    if HasName(server, s, name) {
      NamesApart(server, s, name);
      if q.sub {
        var t :| t in s.subtypes && SameName([t, FqdnReader.SUB, s.kind, s.proto], name);
        LabelsAgree([t, FqdnReader.SUB, s.kind, s.proto], name);
      } else if q.host.Some? {
        LabelsAgree([InstanceName(server, s), s.kind, s.proto], name);
      } else {
        LabelsAgree([s.kind, s.proto], name);
      }
    }
  }

  lemma LabelsAgree(a: seq<bytes>, b: seq<bytes>)
    requires SameName(a, b) && |a| > 1
    ensures SameText(a[0], b[0]) && SameText(a[|a| - 1], b[|a| - 1]) && SameText(a[|a| - 2], b[|a| - 2])
  {}

  lemma NamesApart(server: Server, s: Registered, name: seq<bytes>)
    requires HasName(server, s, name)
    ensures |name| == 2 ==> SameName([s.kind, s.proto], name)
    ensures |name| == 3 ==> SameName([InstanceName(server, s), s.kind, s.proto], name)
    ensures |name| == 4 ==> exists t :: t in s.subtypes && SameName([t, FqdnReader.SUB, s.kind, s.proto], name)
    ensures 2 <= |name| <= 4
  {}

  /** A question for SRV or TXT data names the service: its type, and its instance if it gives one. */
  predicate Carries(server: Server, s: Registered, q: Question) {
    && q.service.Some? && q.proto.Some? && SameText(s.kind, q.service.value) && SameText(s.proto, q.proto.value)
    && (if q.host == None then s.hostname.Some?
        else SameText(if s.instance == None then DefaultInstance(server) else s.instance.value, q.host.value))
  }

  predicate FirstCarrier(server: Server, services: seq<Registered>, q: Question, s: Registered) {
    exists i :: 0 <= i < |services| && services[i] == s && Carries(server, s, q)
                && forall j :: 0 <= j < i ==> !Carries(server, services[j], q)
  }

  lemma {:induction false} FoundIsFirst(server: Server, services: seq<Registered>, q: Question)
    ensures var found := FindService(server, services, q);
            && (found.Some? ==> FirstCarrier(server, services, q, found.value))
            && (found == None ==> forall j :: 0 <= j < |services| ==> !Carries(server, services[j], q))
            && (forall s :: FirstCarrier(server, services, q, s) ==> found == Some(s))
  {
    hide SameText;
    if services != [] {
      assert forall j :: 1 <= j < |services| ==> services[j] == services[1..][j - 1];
      FoundIsFirst(server, services[1..], q);
      if !Carries(server, services[0], q) {
        FirstBehind(server, services, q);
      }
    }
  }

  lemma FirstBehind(server: Server, services: seq<Registered>, q: Question)
    requires services != [] && !Carries(server, services[0], q)
    ensures forall s :: FirstCarrier(server, services, q, s) <==> FirstCarrier(server, services[1..], q, s)
  {
    hide Carries;
    var rest := services[1..];
    assert forall j :: 1 <= j < |services| ==> services[j] == rest[j - 1];
    forall s
      ensures FirstCarrier(server, services, q, s) <==> FirstCarrier(server, rest, q, s)
    {
      if FirstCarrier(server, services, q, s) {
        var i :| 0 <= i < |services| && services[i] == s && Carries(server, s, q)
                 && forall j :: 0 <= j < i ==> !Carries(server, services[j], q);
        assert rest[i - 1] == s && forall j :: 0 <= j < i - 1 ==> rest[j] == services[j + 1];
      }
      if FirstCarrier(server, rest, q, s) {
        var i :| 0 <= i < |rest| && rest[i] == s && Carries(server, s, q)
                 && forall j :: 0 <= j < i ==> !Carries(server, rest[j], q);
        assert services[i + 1] == s;
      }
    }
  }

  /** The question is for SRV or TXT data, or else for a type of services. */
  predicate ForData(q: Question) {
    q.kind == TYPE_SRV || q.kind == TYPE_TXT
  }

  /** The service has something to say to the question. */
  predicate Replies(server: Server, s: Registered, q: Question, known: seq<Known>) {
    if ForData(q) then FirstCarrier(server, server.services, q, s)
    else q.service.Some? && q.proto.Some? && s in server.services && AskedFor(server, s, q) && !IsKnown(server, s, known)
  }

  // ---------------------------------------------------------------- what a service says

  /** Among the answers: SRV and TXT to questions for them, and both to a question for everything
      about an instance; the PTR record to a question for the type; the addresses only to a probe
      for everything of that type, of a service on our own host. */
  predicate Answers(server: Server, s: Registered, q: Question, probe: bool, kind: nat, host: Option<nat>) {
    var named := q.host.Some? && q.host.value != [];
    || (host == None && kind == TYPE_SRV && (q.kind == TYPE_SRV || (q.kind == TYPE_ANY && named)))
    || (host == None && kind == TYPE_TXT && (q.kind == TYPE_TXT || (q.kind == TYPE_ANY && named)))
    || (host == None && kind == TYPE_PTR && (q.kind == TYPE_PTR || (q.kind == TYPE_ANY && !named)))
    || (host == None && kind == TYPE_SDPTR && q.kind == TYPE_SDPTR)
    || (host == s.hostItem && OfHost(kind) && q.kind == TYPE_ANY && !named && probe && s.hostItem == Some(server.selfHost))
  }

  /** Among the additional records: SRV and TXT beside the PTR record, and the addresses beside SRV
      or PTR, unless they are among the answers. */
  predicate Adds(server: Server, s: Registered, q: Question, probe: bool, kind: nat, host: Option<nat>) {
    var named := q.host.Some? && q.host.value != [];
    || (host == None && (kind == TYPE_SRV || kind == TYPE_TXT) && (q.kind == TYPE_PTR || (q.kind == TYPE_ANY && !named)))
    || (host == s.hostItem && OfHost(kind)
        && (|| q.kind == TYPE_SRV || q.kind == TYPE_PTR
            || (q.kind == TYPE_ANY && (named || !probe || s.hostItem != Some(server.selfHost)))))
  }

  predicate Gives(server: Server, s: Registered, q: Question, probe: bool, extra: bool, kind: nat, host: Option<nat>) {
    if extra then Adds(server, s, q, probe, kind, host) else Answers(server, s, q, probe, kind, host)
  }

  /** What is said to a question that names no service: the addresses of the host that is asked
      for, those of all hosts to a question for everything (but for the first delegated one, and
      with a host that does not exist), and a record of the same kind without data otherwise. */
  predicate Says(server: Server, q: Question, kind: nat, host: Option<nat>) {
    && !ForData(q) && !(q.service.Some? && q.proto.Some?)
    && if OfHost(q.kind) then OfHost(kind) && host == q.hostItem
       else if q.kind == TYPE_ANY then
         && OfHost(kind)
         && (host == Some(server.selfHost) || (server.hosts != [] && (host == None || host.value in server.hosts[1..])))
       else kind == q.kind && host == None
  }

  /** The question puts the record into that section. */
  predicate PutsIn(server: Server, q: Question, known: seq<Known>, probe: bool, extra: bool,
                   kind: nat, service: Option<nat>, host: Option<nat>) {
    if service == None then !extra && Says(server, q, kind, host)
    else exists s :: s in server.services && Some(s.id) == service && Replies(server, s, q, known)
                     && Gives(server, s, q, probe, extra, kind, host)
  }

  function Section(r: Reply, extra: bool): seq<Answer> {
    if extra then r.additional else r.answers
  }

  /** The flush bit is that of the reply, but never set for the PTR records of a service. */
  predicate Marked(list: seq<Answer>, flush: bool) {
    forall a :: a in list ==>
      !a.bye && (a.flush <==> flush && !(a.service.Some? && (a.kind == TYPE_PTR || a.kind == TYPE_SDPTR)))
  }

  // ---------------------------------------------------------------- one record at a time

  predicate Shows(r: Reply, extra: bool, kind: nat, service: Option<nat>, host: Option<nat>) {
    Announced(Section(r, extra), kind, service, host)
  }

  lemma PutShows(r: Reply, at: nat, owner: Option<nat>, on: Option<nat>, flush: bool, into: bool,
                 extra: bool, kind: nat, service: Option<nat>, host: Option<nat>)
    ensures var t := if into then r.PutExtra(at, owner, on, flush) else r.Put(at, owner, on, flush);
            Shows(t, extra, kind, service, host) <==>
            Shows(r, extra, kind, service, host) || (extra == into && kind == at && service == owner && host == on)
  {
    AddedIsAnnounced(Section(r, into), Answer(at, owner, on, flush, false), kind, service, host);
  }

  lemma AddressesShow(r: Reply, s: Registered, into: bool, flush: bool,
                      extra: bool, kind: nat, service: Option<nat>, host: Option<nat>)
    ensures Shows(PutAddresses(r, s, into, flush), extra, kind, service, host) <==>
            Shows(r, extra, kind, service, host)
            || (extra == into && OfHost(kind) && service == Some(s.id) && host == s.hostItem)
  {
    hide Shows, AddAnswer;
    PutShows(r, TYPE_A, Some(s.id), s.hostItem, flush, into, extra, kind, service, host);
    var a := if into then r.PutExtra(TYPE_A, Some(s.id), s.hostItem, flush) else r.Put(TYPE_A, Some(s.id), s.hostItem, flush);
    PutShows(a, TYPE_AAAA, Some(s.id), s.hostItem, flush, into, extra, kind, service, host);
  }

  /** One service, asked by any kind of question. */
  lemma ServiceShows(server: Server, r: Reply, s: Registered, q: Question, probe: bool, flush: bool,
                     extra: bool, kind: nat, service: Option<nat>, host: Option<nat>)
    ensures var shared := q.kind == TYPE_PTR || q.kind == TYPE_SDPTR || !probe;
            Shows(FromService(server, r, s, q, shared, flush), extra, kind, service, host) <==>
            Shows(r, extra, kind, service, host)
            || (service == Some(s.id) && Gives(server, s, q, probe, extra, kind, host))
  {
    hide Shows, AddAnswer, PutAddresses;
    var id := Some(s.id);
    var shared := q.kind == TYPE_PTR || q.kind == TYPE_SDPTR || !probe;
    if q.kind == TYPE_ANY && !Blank(q.host) {
      var a := r.Put(TYPE_SRV, id, None, flush);
      PutShows(r, TYPE_SRV, id, None, flush, false, extra, kind, service, host);
      PutShows(a, TYPE_TXT, id, None, flush, false, extra, kind, service, host);
      AddressesShow(a.Put(TYPE_TXT, id, None, flush), s, true, flush, extra, kind, service, host);
    } else if q.kind == TYPE_PTR || q.kind == TYPE_ANY {
      var a := r.Put(TYPE_PTR, id, None, false);
      var b := a.PutExtra(TYPE_SRV, id, None, flush);
      PutShows(r, TYPE_PTR, id, None, false, false, extra, kind, service, host);
      PutShows(a, TYPE_SRV, id, None, flush, true, extra, kind, service, host);
      PutShows(b, TYPE_TXT, id, None, flush, true, extra, kind, service, host);
      AddressesShow(b.PutExtra(TYPE_TXT, id, None, flush), s, shared || s.hostItem != Some(server.selfHost), flush,
                    extra, kind, service, host);
    } else if q.kind == TYPE_SRV {
      PutShows(r, TYPE_SRV, id, None, flush, false, extra, kind, service, host);
      AddressesShow(r.Put(TYPE_SRV, id, None, flush), s, true, flush, extra, kind, service, host);
    } else {
      PutShows(r, TYPE_TXT, id, None, flush, false, extra, kind, service, host);
      PutShows(r, TYPE_SDPTR, id, None, false, false, extra, kind, service, host);
    }
  }

  predicate SomeGives(server: Server, services: seq<Registered>, q: Question, known: seq<Known>, probe: bool, extra: bool,
                      kind: nat, service: Option<nat>, host: Option<nat>) {
    exists s :: s in services && Some(s.id) == service && AskedFor(server, s, q) && !IsKnown(server, s, known)
                && Gives(server, s, q, probe, extra, kind, host)
  }

  lemma {:induction false} ServicesShow(server: Server, r: Reply, services: seq<Registered>, q: Question, known: seq<Known>,
                                        probe: bool, flush: bool, extra: bool, kind: nat, service: Option<nat>, host: Option<nat>)
    ensures var shared := q.kind == TYPE_PTR || q.kind == TYPE_SDPTR || !probe;
            Shows(FromServices(server, r, services, q, known, shared, flush), extra, kind, service, host) <==>
            Shows(r, extra, kind, service, host)
            || SomeGives(server, services, q, known, probe, extra, kind, service, host)
    decreases |services|
  {
    hide FromService, AskedFor, IsKnown, Announced, Gives;
    if services != [] {
      var s := services[0];
      var shared := q.kind == TYPE_PTR || q.kind == TYPE_SDPTR || !probe;
      ServiceShows(server, r, s, q, probe, flush, extra, kind, service, host);
      var next :=
        if AskedFor(server, s, q) && !IsKnown(server, s, known) then
          FromService(server, r, s, q, shared, flush).(count := r.count + 1)
        else r;
      ServicesShow(server, next, services[1..], q, known, probe, flush, extra, kind, service, host);
      assert forall x :: x in services <==> x == s || x in services[1..];
    }
  }

  lemma {:induction false} AllHostsAnnounced(list: seq<Answer>, hosts: seq<nat>, flush: bool, kind: nat, service: Option<nat>, host: Option<nat>)
    ensures Announced(HostAddresses(list, hosts, flush), kind, service, host) <==>
            Announced(list, kind, service, host)
            || (OfHost(kind) && service == None && hosts != [] && (host == None || host.value in hosts[1..]))
    decreases |hosts|
  {
    hide AddHost, Announced;
    if hosts != [] {
      var next := if |hosts| > 1 then Some(hosts[1]) else None;
      HostAnnounced(list, next, flush, kind, service, host);
      AllHostsAnnounced(AddHost(list, next, flush), hosts[1..], flush, kind, service, host);
      if |hosts| > 1 {
        assert hosts[1..][0] == hosts[1];
        assert forall h :: h in hosts[1..] <==> h == hosts[1] || h in hosts[1..][1..];
      }
    }
  }

  lemma QuestionShows(server: Server, r: Reply, q: Question, known: seq<Known>, probe: bool, flush: bool,
                      extra: bool, kind: nat, service: Option<nat>, host: Option<nat>)
    ensures Shows(FromQuestion(server, r, q, known, probe, flush), extra, kind, service, host) <==>
            Shows(r, extra, kind, service, host) || PutsIn(server, q, known, probe, extra, kind, service, host)
  {
    hide FromService, FromServices, FindService, AddHost, HostAddresses, AddAnswer, Announced, Gives, AskedFor, IsKnown, FirstCarrier;
    var found := FindService(server, server.services, q);
    if ForData(q) {
      FoundIsFirst(server, server.services, q);
      if found.Some? {
        CarrierIsRegistered(server, q, found.value);
        ServiceShows(server, r, found.value, q, probe, flush, extra, kind, service, host);
      }
    } else if q.service.Some? && q.proto.Some? {
      ServicesShow(server, r, server.services, q, known, probe, flush, extra, kind, service, host);
    } else if OfHost(q.kind) {
      HostAnnounced(r.answers, q.hostItem, flush, kind, service, host);
    } else if q.kind == TYPE_ANY {
      HostAnnounced(r.answers, Some(server.selfHost), flush, kind, service, host);
      AllHostsAnnounced(AddHost(r.answers, Some(server.selfHost), flush), server.hosts, flush, kind, service, host);
    } else {
      PutShows(r, q.kind, None, None, flush, false, extra, kind, service, host);
    }
  }

  lemma CarrierIsRegistered(server: Server, q: Question, s: Registered)
    requires FirstCarrier(server, server.services, q, s)
    ensures s in server.services
  {}

  lemma {:induction false} QuestionsShow(server: Server, r: Reply, qs: seq<Question>, known: seq<Known>, probe: bool, flush: bool,
                                         extra: bool, kind: nat, service: Option<nat>, host: Option<nat>)
    ensures Shows(FromQuestions(server, r, qs, known, probe, flush), extra, kind, service, host) <==>
            Shows(r, extra, kind, service, host)
            || exists q :: q in qs && PutsIn(server, q, known, probe, extra, kind, service, host)
    decreases |qs|
  {
    hide FromQuestion, Announced, PutsIn;
    if qs != [] {
      QuestionShows(server, r, qs[0], known, probe, flush, extra, kind, service, host);
      QuestionsShow(server, FromQuestion(server, r, qs[0], known, probe, flush), qs[1..], known, probe, flush, extra, kind, service, host);
      assert forall q :: q in qs <==> q == qs[0] || q in qs[1..];
    }
  }

  // ---------------------------------------------------------------- the flush bit

  predicate BothMarked(r: Reply, flush: bool) {
    Marked(r.answers, flush) && Marked(r.additional, flush)
  }

  predicate MarkedPut(kind: nat, service: Option<nat>, bit: bool, flush: bool) {
    bit <==> flush && !(service.Some? && (kind == TYPE_PTR || kind == TYPE_SDPTR))
  }

  lemma PutMarked(r: Reply, kind: nat, service: Option<nat>, host: Option<nat>, bit: bool, flush: bool)
    requires BothMarked(r, flush) && MarkedPut(kind, service, bit, flush)
    ensures BothMarked(r.Put(kind, service, host, bit), flush) && BothMarked(r.PutExtra(kind, service, host, bit), flush)
  {}

  lemma AddressesMarked(r: Reply, s: Registered, extra: bool, flush: bool)
    requires BothMarked(r, flush)
    ensures BothMarked(PutAddresses(r, s, extra, flush), flush)
  {
    hide BothMarked, AddAnswer;
    var a := if extra then r.PutExtra(TYPE_A, Some(s.id), s.hostItem, flush) else r.Put(TYPE_A, Some(s.id), s.hostItem, flush);
    PutMarked(r, TYPE_A, Some(s.id), s.hostItem, flush, flush);
    PutMarked(a, TYPE_AAAA, Some(s.id), s.hostItem, flush, flush);
  }

  lemma ServiceMarked(server: Server, r: Reply, s: Registered, q: Question, shared: bool, flush: bool)
    requires BothMarked(r, flush)
    ensures BothMarked(FromService(server, r, s, q, shared, flush), flush)
  {
    hide BothMarked, AddAnswer, PutAddresses;
    var id := Some(s.id);
    if q.kind == TYPE_ANY && !Blank(q.host) {
      var a := r.Put(TYPE_SRV, id, None, flush);
      PutMarked(r, TYPE_SRV, id, None, flush, flush);
      PutMarked(a, TYPE_TXT, id, None, flush, flush);
      AddressesMarked(a.Put(TYPE_TXT, id, None, flush), s, true, flush);
    } else if q.kind == TYPE_PTR || q.kind == TYPE_ANY {
      var a := r.Put(TYPE_PTR, id, None, false);
      var b := a.PutExtra(TYPE_SRV, id, None, flush);
      PutMarked(r, TYPE_PTR, id, None, false, flush);
      PutMarked(a, TYPE_SRV, id, None, flush, flush);
      PutMarked(b, TYPE_TXT, id, None, flush, flush);
      AddressesMarked(b.PutExtra(TYPE_TXT, id, None, flush), s, shared || s.hostItem != Some(server.selfHost), flush);
    } else if q.kind == TYPE_SRV {
      PutMarked(r, TYPE_SRV, id, None, flush, flush);
      AddressesMarked(r.Put(TYPE_SRV, id, None, flush), s, true, flush);
    } else {
      PutMarked(r, TYPE_TXT, id, None, flush, flush);
      PutMarked(r, TYPE_SDPTR, id, None, false, flush);
    }
  }

  lemma {:induction false} ServicesMarked(server: Server, r: Reply, services: seq<Registered>, q: Question, known: seq<Known>,
                                          shared: bool, flush: bool)
    requires BothMarked(r, flush)
    ensures BothMarked(FromServices(server, r, services, q, known, shared, flush), flush)
    decreases |services|
  {
    hide FromService, AskedFor, IsKnown, Marked;
    if services != [] {
      ServiceMarked(server, r, services[0], q, shared, flush);
      var s := services[0];
      var next :=
        if AskedFor(server, s, q) && !IsKnown(server, s, known) then
          FromService(server, r, s, q, shared, flush).(count := r.count + 1)
        else r;
      ServicesMarked(server, next, services[1..], q, known, shared, flush);
    }
  }

  lemma HostMarked(list: seq<Answer>, host: Option<nat>, flush: bool)
    requires Marked(list, flush)
    ensures Marked(AddHost(list, host, flush), flush)
  {}

  lemma {:induction false} HostsMarked(list: seq<Answer>, hosts: seq<nat>, flush: bool)
    requires Marked(list, flush)
    ensures Marked(HostAddresses(list, hosts, flush), flush)
    decreases |hosts|
  {
    hide Marked, AddHost;
    if hosts != [] {
      var next := if |hosts| > 1 then Some(hosts[1]) else None;
      HostMarked(list, next, flush);
      HostsMarked(AddHost(list, next, flush), hosts[1..], flush);
    }
  }

  lemma {:induction false} QuestionsMarked(server: Server, r: Reply, qs: seq<Question>, known: seq<Known>, probe: bool, flush: bool)
    requires BothMarked(r, flush)
    ensures BothMarked(FromQuestions(server, r, qs, known, probe, flush), flush)
    decreases |qs|
  {
    hide FromService, FromServices, FindService, AddHost, HostAddresses, AddAnswer, Marked;
    if qs != [] {
      var q := qs[0];
      var shared := q.kind == TYPE_PTR || q.kind == TYPE_SDPTR || !probe;
      var found := FindService(server, server.services, q);
      if found.Some? {
        ServiceMarked(server, r, found.value, q, shared, flush);
      }
      ServicesMarked(server, r, server.services, q, known, shared, flush);
      HostMarked(r.answers, q.hostItem, flush);
      HostMarked(r.answers, Some(server.selfHost), flush);
      HostsMarked(AddHost(r.answers, Some(server.selfHost), flush), server.hosts, flush);
      PutMarked(r, q.kind, None, None, flush, flush);
      QuestionsMarked(server, FromQuestion(server, r, q, known, probe, flush), qs[1..], known, probe, flush);
    }
  }

  // ---------------------------------------------------------------- the reply

  /** Whatever is asked: a record is in a section of the reply exactly when some question puts it
      there, and its flush bit is the one for its kind. */
  lemma ReplyHoldsExactly(server: Server, qs: seq<Question>, known: seq<Known>, probe: bool, flush: bool, extra: bool, a: Answer)
    ensures a in Section(FromQuestions(server, NO_REPLY, qs, known, probe, flush), extra) <==>
            && !a.bye && (a.flush <==> flush && !(a.service.Some? && (a.kind == TYPE_PTR || a.kind == TYPE_SDPTR)))
            && exists q :: q in qs && PutsIn(server, q, known, probe, extra, a.kind, a.service, a.host)
  {
    hide FromQuestions, PutsIn;
    var r := FromQuestions(server, NO_REPLY, qs, known, probe, flush);
    QuestionsShow(server, NO_REPLY, qs, known, probe, flush, extra, a.kind, a.service, a.host);
    QuestionsMarked(server, NO_REPLY, qs, known, probe, flush);
  }

  /** The question is answered: some service replies to it, or it names none and is no question
      for SRV or TXT data. */
  predicate Served(server: Server, q: Question, known: seq<Known>) {
    || (exists s :: s in server.services && Replies(server, s, q, known))
    || (!ForData(q) && !(q.service.Some? && q.proto.Some?))
  }

  lemma {:induction false} ServicesCount(server: Server, r: Reply, services: seq<Registered>, q: Question, known: seq<Known>, shared: bool, flush: bool)
    ensures var t := FromServices(server, r, services, q, known, shared, flush);
            && t.count >= r.count
            && (t.count > r.count <==> exists s :: s in services && AskedFor(server, s, q) && !IsKnown(server, s, known))
    decreases |services|
  {
    hide FromService, AskedFor, IsKnown;
    if services != [] {
      var s := services[0];
      var next :=
        if AskedFor(server, s, q) && !IsKnown(server, s, known) then
          FromService(server, r, s, q, shared, flush).(count := r.count + 1)
        else r;
      ServicesCount(server, next, services[1..], q, known, shared, flush);
      assert forall x :: x in services <==> x == s || x in services[1..];
    }
  }

  lemma QuestionCounts(server: Server, r: Reply, q: Question, known: seq<Known>, probe: bool, flush: bool)
    ensures var t := FromQuestion(server, r, q, known, probe, flush);
            t.count >= r.count && (t.count > r.count <==> Served(server, q, known))
  {
    hide FromService, FromServices, FindService, AddHost, HostAddresses, AddAnswer, AskedFor, IsKnown, FirstCarrier;
    if ForData(q) {
      FoundIsFirst(server, server.services, q);
      var found := FindService(server, server.services, q);
      if found.Some? {
        CarrierIsRegistered(server, q, found.value);
      }
    } else {
      ServicesCount(server, r, server.services, q, known, q.kind == TYPE_PTR || q.kind == TYPE_SDPTR || !probe, flush);
    }
  }

  /** There is a reply exactly when some question is answered. */
  lemma {:induction false} ReplyExactly(server: Server, r: Reply, qs: seq<Question>, known: seq<Known>, probe: bool, flush: bool)
    ensures var t := FromQuestions(server, r, qs, known, probe, flush);
            t.count >= r.count && (t.count > r.count <==> exists q :: q in qs && Served(server, q, known))
    decreases |qs|
  {
    hide FromQuestion, Served;
    if qs != [] {
      QuestionCounts(server, r, qs[0], known, probe, flush);
      ReplyExactly(server, FromQuestion(server, r, qs[0], known, probe, flush), qs[1..], known, probe, flush);
      assert forall q :: q in qs <==> q == qs[0] || q in qs[1..];
    }
  }

  /** A question for the SRV record of a registered instance is answered with that record, and
      the addresses of the host come with it. */
  lemma InstanceIsResolved(server: Server, s: Registered, q: Question, known: seq<Known>, probe: bool, flush: bool)
    requires FirstCarrier(server, server.services, q, s) && (q.kind == TYPE_SRV || q.kind == TYPE_TXT)
    ensures var r := FromQuestions(server, NO_REPLY, [q], known, probe, flush);
            && Answer(q.kind, Some(s.id), None, flush, false) in r.answers
            && (q.kind == TYPE_SRV ==> Answer(TYPE_A, Some(s.id), s.hostItem, flush, false) in r.additional
                                       && Answer(TYPE_AAAA, Some(s.id), s.hostItem, flush, false) in r.additional)
  {
    CarrierIsRegistered(server, q, s);
    hide FirstCarrier, FromQuestions;
    assert q in [q] && Replies(server, s, q, known);
    ReplyHoldsExactly(server, [q], known, probe, flush, false, Answer(q.kind, Some(s.id), None, flush, false));
    ReplyHoldsExactly(server, [q], known, probe, flush, true, Answer(TYPE_A, Some(s.id), s.hostItem, flush, false));
    ReplyHoldsExactly(server, [q], known, probe, flush, true, Answer(TYPE_AAAA, Some(s.id), s.hostItem, flush, false));
  }

  // ---------------------------------------------------------------- which questions a record removes

  /** The question that names what a record names. */
  function NamedBy(r: Known): Question {
    Question.Question(TYPE_PTR, r.host, r.service, r.proto, false, None)
  }

  lemma {:induction false} SameSearch(server: Server, services: seq<Registered>, r: Known)
    ensures FindNamed(server, services, r) == FindService(server, services, NamedBy(r))
  {
    hide SameText;
    if services != [] {
      SameSearch(server, services[1..], r);
    }
  }

  /** The question is about the type of the service. */
  predicate OfType(s: Registered, q: Question) {
    q.service.Some? && q.proto.Some? && SameText(s.kind, q.service.value) && SameText(s.proto, q.proto.value)
  }

  predicate NamesFirst(server: Server, r: Known, s: Registered) {
    FirstCarrier(server, server.services, NamedBy(r), s)
  }

  /** A PTR record removes a question when it names a service of ours, the first one it fits: a
      question of the same kind for that type and, if the service has a name of its own, for that
      instance; in a probe only service discovery is removed. */
  lemma PointerWithdraws(server: Server, known: Known, discovery: bool, q: Question, probe: bool)
    ensures Withdraws(server, Pointer(known, discovery), q, probe) <==>
            && (discovery || !probe) && q.kind == (if discovery then TYPE_SDPTR else TYPE_PTR)
            && exists s :: NamesFirst(server, known, s) && OfType(s, q)
                           && (s.instance == None || (q.host.Some? && SameText(s.instance.value, q.host.value)))
  {
    hide SameText, FirstCarrier;
    SameSearch(server, server.services, known);
    FoundIsFirst(server, server.services, NamedBy(known));
    var found := FindNamed(server, server.services, known);
    NobodyFirst(server, NamedBy(known));
    if found.Some? {
      assert NamesFirst(server, known, found.value);
      assert forall s :: NamesFirst(server, known, s) ==> s == found.value;
    } else {
      assert forall s :: !NamesFirst(server, known, s);
    }
  }

  lemma NobodyFirst(server: Server, q: Question)
    ensures FindService(server, server.services, q) == None ==> forall s :: !FirstCarrier(server, server.services, q, s)
  {
    FoundIsFirst(server, server.services, q);
  }

  /** Any other record removes a question of its kind, but not in a probe: for addresses whatever
      the host, for SRV and TXT data the one for the instance name of the first service of the
      type of the record. */
  lemma OtherWithdraws(server: Server, kind: nat, service: Option<bytes>, proto: Option<bytes>, q: Question, probe: bool)
    requires OfHost(kind) || kind == TYPE_SRV || kind == TYPE_TXT
    ensures Withdraws(server, Other(kind, service, proto), q, probe) <==>
            && !probe && q.kind == kind
            && (OfHost(kind)
                || exists s :: NamesFirst(server, Known(None, service, proto, 0), s) && OfType(s, q)
                               && q.host.Some? && SameText(InstanceName(server, s), q.host.value))
  {
    hide SameText, FirstCarrier, InstanceName;
    var r := Known(None, service, proto, 0);
    SameSearch(server, server.services, r);
    FoundIsFirst(server, server.services, NamedBy(r));
    NobodyFirst(server, NamedBy(r));
    var found := FindNamed(server, server.services, r);
    if found.Some? {
      assert NamesFirst(server, r, found.value);
      assert forall s :: NamesFirst(server, r, s) ==> s == found.value;
    } else {
      assert forall s :: !NamesFirst(server, r, s);
    }
  }
}
