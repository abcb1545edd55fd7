/** What a pair does when it is switched on, asked to announce or made a duplicate, and what
    removing a service does to the questions of a probe. */
module Starts {
  import opened Bytes
  import opened RecordWriter
  import opened Packets
  import opened TxQueue
  import opened QueueByPair
  import opened Pcb
  import opened ProbePackets
  import opened ProbeDiscipline
  import opened ProbeSteps
  import opened ProbeRuns
  import opened ServiceRemoval
  import opened Outcomes

  // ---------------------------------------------------------------- switching on

  /** A pair that is off probes for exactly the registered services and for the host once its
      socket is set up; without it the pair stays off. */
  lemma SwitchedOnProbes(s: Sys, k: Pair, up: bool, d: Draw)
    requires Inv(s) && k in s.pcbs && Fresh(s, d) && s.pcbs[k].state == OFF
    ensures var t := Enable(s, k, up, d);
            if up then k in t.ready && ProbesFor(s, t, k, s.services, true, d)
            else t == s.(pcbs := s.pcbs[k := s.pcbs[k].(failed := 0)])
  {
    hide ProbesFor, StepAt, InitProbe, Of;
    assert PairOk(s, k);
    InvGives(s);
    if up {
      var on := s.(ready := s.ready + {k});
      ReadyAt(s, k);
      MayProbeOff(s, on, k, d);
      InitProbeOk(on, k, s.services, true, d);
      ProbesForSame(on, s, InitProbe(on, k, s.services, true, d), k, s.services, d);
      StepReady(on, InitProbe(on, k, s.services, true, d), k);
    }
  }

  lemma StepReady(s: Sys, t: Sys, k: Pair)
    requires StepAt(s, t, k)
    ensures t.ready == s.ready
  {}

  lemma MayProbeOff(s: Sys, on: Sys, k: Pair, d: Draw)
    requires Inv(s) && k in s.pcbs && Fresh(s, d) && s.pcbs[k].state == OFF && on == s.(ready := s.ready + {k})
    ensures MayProbe(on, k, s.services, d) && !on.pcbs[k].Probing()
  {
    assert PairOk(s, k);
  }

  lemma ProbesForSame(on: Sys, s: Sys, t: Sys, k: Pair, services: seq<nat>, d: Draw)
    requires k in on.pcbs && on == s.(ready := on.ready) && ProbesFor(on, t, k, services, true, d)
    ensures ProbesFor(s, t, k, services, true, d)
  {
    hide IsProbe, Of;
  }

  // ---------------------------------------------------------------- announcing

  /** The new announcement. */
  ghost predicate SaysNew(p: TxPacket, names: Names, services: seq<nat>, ip: bool) {
    && p.questions == [] && p.additional == []
    && NoRepeats(p.answers) && NoRepeats(p.servers) && FlushBits(p.answers) && FlushBits(p.servers)
    && forall kind, service, host ::
         && (Announced(p.answers, kind, service, host) <==>
             OfService(kind) && service.Some? && service.value in services && host == None)
         && (Announced(p.servers, kind, service, host) <==>
             ip && OfHost(kind) && service == None && HostOf(names, services, host))
  }

  /** The announcement that was waiting, with more services, and the addresses if wanted. */
  ghost predicate SaysMore(o: TxPacket, p: TxPacket, names: Names, services: seq<nat>, ip: bool) {
    && p == o.(answers := p.answers, additional := p.additional) && (!ip ==> p.additional == o.additional)
    && (ip ==> exists mid :: FirstDropped(o.additional, mid, TYPE_A) && FirstDropped(mid, p.additional, TYPE_AAAA))
    && (NoRepeats(o.answers) && FlushBits(o.answers) ==> NoRepeats(p.answers) && FlushBits(p.answers))
    && forall kind, service, host ::
         Announced(p.answers, kind, service, host) <==>
         || Announced(o.answers, kind, service, host)
         || (OfService(kind) && service.Some? && service.value in services && host == None)
         || (ip && OfHost(kind) && service == None && HostOf(names, services, host))
  }

  /** What an announcement does at its pair: while it probes, it probes anew with the services
      added; while it announces, the next announcement takes them up and counting begins again;
      when it is running, a new announcement is sent at once. */
  ghost predicate AnnouncesAt(s: Sys, t: Sys, k: Pair, services: seq<nat>, ip: bool, d: Draw)
    requires k in s.pcbs && k in s.log
  {
    k in t.pcbs && k in t.log &&
    var b, c, before, after := s.pcbs[k], t.pcbs[k], Of(s.queue, k), Of(t.queue, k);
    && (b.InProbe() ==>
          && ProbesFor(s, t, k, c.services, ip, d)
          && forall x :: x in c.services <==> x in services || x in b.services)
    && (b.Announcing() && before == [] ==> c == b && after == [] && t.log[k] == s.log[k])
    && (b.Announcing() && before != [] ==>
          && c == b.(state := ANNOUNCE_1) && t.log[k] == s.log[k]
          && after != [] && after[1..] == before[1..] && SaysMore(before[0], after[0], s.names, services, ip))
    && (b.state == RUNNING ==>
          && c == b.(state := ANNOUNCE_1) && t.log[k] == s.log[k]
          && exists p :: after == Insert(before, p) && SaysNew(p, s.names, services, ip)
                         && p.id == d.id && p.pair == k && p.sendAt == s.now && !p.queued)
  }

  lemma NewSays(id: nat, k: Pair, names: Names, services: seq<nat>, ip: bool)
    ensures SaysNew(AnnouncePacket(id, k, names, services, ip), names, services, ip)
  {
    hide AnnouncePacket, Announced, NoRepeats, FlushBits, HostOf;
    var p := AnnouncePacket(id, k, names, services, ip);
    NewAnnouncementSays(id, k, names, services, ip, 0, None, None);
    forall kind, service, host
      ensures (Announced(p.answers, kind, service, host) <==>
               OfService(kind) && service.Some? && service.value in services && host == None)
      ensures (Announced(p.servers, kind, service, host) <==>
               ip && OfHost(kind) && service == None && HostOf(names, services, host))
    {
      NewAnnouncementSays(id, k, names, services, ip, kind, service, host);
    }
  }

  lemma MoreSays(o: TxPacket, names: Names, services: seq<nat>, ip: bool)
    ensures SaysMore(o, Extended(o, names, services, ip), names, services, ip)
  {
    hide Extended, Announced, NoRepeats, FlushBits, HostOf, FirstDropped;
    var p := Extended(o, names, services, ip);
    ExtensionSays(o, names, services, ip, 0, None, None);
    forall kind, service, host
      ensures Announced(p.answers, kind, service, host) <==>
              || Announced(o.answers, kind, service, host)
              || (OfService(kind) && service.Some? && service.value in services && host == None)
              || (ip && OfHost(kind) && service == None && HostOf(names, services, host))
    {
      ExtensionSays(o, names, services, ip, kind, service, host);
    }
  }

  /** Every announcement on a ready pair. */
  lemma AnnouncesAsItShould(s: Sys, k: Pair, services: seq<nat>, ip: bool, d: Draw)
    requires Inv(s) && k in s.ready && k in s.pcbs && k in s.log && Fresh(s, d) && Distinct(services) && (services != [] || ip)
    ensures AnnouncesAt(s, Announce(s, k, services, ip, d), k, services, ip, d)
  {
    hide Inv, InitProbe, SaysNew, SaysMore, ProbesFor, Of, Insert, Extended, AnnouncePacket, IdUnused, Sorted;
    BlockOf(s, k);
    QueueOf(s);
    var b := s.pcbs[k];
    if b.InProbe() {
      ProbingMayProbe(s, k, services, d);
      InitProbeOk(s, k, services, ip, d);
    } else if b.Announcing() {
      NextIsFirst(s.queue, k);
      var at := NextOf(s.queue, k);
      if at.Some? {
        MoreSays(s.queue[at.value], s.names, services, ip);
        OfChanged(s.queue, at.value, Extended(s.queue[at.value], s.names, services, ip), k);
      }
    } else {
      RunningAnnounces(s, k, services, ip, d);
    }
  }

  lemma RunningAnnounces(s: Sys, k: Pair, services: seq<nat>, ip: bool, d: Draw)
    requires k in s.ready && k in s.pcbs && k in s.log && s.pcbs[k].state == RUNNING && Sorted(s.queue)
    ensures AnnouncesAt(s, Announce(s, k, services, ip, d), k, services, ip, d)
  {
    hide InitProbe, SaysNew, SaysMore, ProbesFor, Of, Insert, Extended, AnnouncePacket, Sorted;
    var p := AnnouncePacket(d.id, k, s.names, services, ip).(sendAt := s.now);
    NewSays(d.id, k, s.names, services, ip);
    SaysAtAnyTime(AnnouncePacket(d.id, k, s.names, services, ip), p, s.names, services, ip);
    InsertAt(s.queue, p);
    assert s.now + 0 == s.now;
  }

  lemma SaysAtAnyTime(o: TxPacket, p: TxPacket, names: Names, services: seq<nat>, ip: bool)
    requires SaysNew(o, names, services, ip) && p == o.(sendAt := p.sendAt)
    ensures SaysNew(p, names, services, ip)
  {}

  lemma QueueOf(s: Sys)
    requires Inv(s)
    ensures Sorted(s.queue)
  {}

  lemma ProbingMayProbe(s: Sys, k: Pair, services: seq<nat>, d: Draw)
    requires Inv(s) && k in s.ready && k in s.pcbs && Fresh(s, d) && Distinct(services) && s.pcbs[k].InProbe()
    ensures MayProbe(s, k, services, d)
  {
    assert PairOk(s, k);
  }

  // ---------------------------------------------------------------- duplicates

  /** A pair that gives way is a silent duplicate, and the other interface announces its own
      host. */
  lemma DuplicateGivesWay(s: Sys, k: Pair, o: Pair, d: Draw)
    requires Inv(s) && k in s.pcbs && Fresh(s, d) && Other(s, k) == Some(o) && o in s.ready
    ensures o in s.pcbs && o in s.log && o != k
    ensures var t := SetDuplicate(s, k, d);
            && k in t.pcbs && t.pcbs[k].state == DUP && t.pcbs[k].services == [] && k !in t.ready && Of(t.queue, k) == []
            && AnnouncesAt(s, t, o, [], true, d)
  {
    hide Inv, Silence, Announce, AnnouncesAt, Of, IdUnused;
    OtherIsKnown(s, k, o);
    GiveWayOk(s, k, d.id);
    var g := GiveWay(s, k);
    GivesWay(s, k, o);
    InvGives(g);
    AnnouncesAsItShould(g, o, [], true, d);
    AnnounceElsewhere(g, o, k, d);
    AnnouncesAtSame(s, g, Announce(g, o, [], true, d), o, d);
  }

  lemma OtherIsKnown(s: Sys, k: Pair, o: Pair)
    requires Inv(s) && k in s.pcbs && Other(s, k) == Some(o)
    ensures s.Valid() && o in s.pcbs && o in s.log && o != k
  {}

  lemma GivesWay(s: Sys, k: Pair, o: Pair)
    requires Inv(s) && s.Valid() && k in s.pcbs && o in s.pcbs && o in s.log && o != k && o in s.ready
    ensures var g := GiveWay(s, k);
            && k in g.pcbs && g.pcbs[k].state == DUP && g.pcbs[k].services == [] && k !in g.ready && Of(g.queue, k) == []
            && o in g.pcbs && o in g.log && o in g.ready && g.pcbs[o] == s.pcbs[o] && g.log[o] == s.log[o]
            && Of(g.queue, o) == Of(s.queue, o) && g.names == s.names && g.now == s.now
  {
    assert PairOk(s, k);
    OfClear(s.queue, k, k);
    OfClear(s.queue, k, o);
  }

  lemma AnnouncesAtSame(s: Sys, g: Sys, t: Sys, o: Pair, d: Draw)
    requires o in s.pcbs && o in s.log && o in g.pcbs && o in g.log && g.pcbs[o] == s.pcbs[o] && g.log[o] == s.log[o]
    requires Of(g.queue, o) == Of(s.queue, o) && g.names == s.names && g.now == s.now
    requires AnnouncesAt(g, t, o, [], true, d)
    ensures AnnouncesAt(s, t, o, [], true, d)
  {
    hide SaysNew, SaysMore, IsProbe, Of, Insert;
  }

  lemma AnnounceElsewhere(g: Sys, o: Pair, k: Pair, d: Draw)
    requires Inv(g) && o in g.pcbs && o in g.log && o != k && k in g.pcbs && Of(g.queue, k) == [] && k !in g.ready
    requires o in g.ready && Fresh(g, d)
    ensures var t := Announce(g, o, [], true, d);
            k in t.pcbs && t.pcbs[k] == g.pcbs[k] && k !in t.ready && Of(t.queue, k) == []
  {
    hide Inv, InitProbe, Insert, Extended, AnnouncePacket, Of, IdUnused, StepAt, ProbesFor;
    BlockOf(g, o);
    QueueOf(g);
    var b := g.pcbs[o];
    if b.InProbe() {
      ProbingMayProbe(g, o, [], d);
      InitProbeOk(g, o, [], true, d);
      StepElsewhere(g, InitProbe(g, o, [], true, d), o, k);
    } else if b.Announcing() {
      NextIsFirst(g.queue, o);
      var at := NextOf(g.queue, o);
      if at.Some? {
        OfReplaced(g.queue, at.value, Extended(g.queue[at.value], g.names, [], true), k);
      }
    } else {
      InsertAt(g.queue, AnnouncePacket(d.id, o, g.names, [], true).(sendAt := g.now + 0));
    }
  }

  lemma StepElsewhere(g: Sys, t: Sys, o: Pair, k: Pair)
    requires StepAt(g, t, o) && k in g.pcbs && k != o && Of(g.queue, k) == [] && k !in g.ready
    ensures k in t.pcbs && t.pcbs[k] == g.pcbs[k] && k !in t.ready && Of(t.queue, k) == []
  {
    assert Untouched(g, t, k);
  }

  // ---------------------------------------------------------------- restarting

  /** After a restart every ready pair probes for exactly the registered services and the host. */
  lemma RestartProbesAll(s: Sys, ks: seq<Pair>, ds: seq<Draw>, k: Pair)
    requires Inv(s) && Turns(s, ks, ds) && k in s.ready
    ensures forall j :: j in ks ==> j in s.pcbs && j in s.log
    ensures var t := Restart(s, ks, ds);
            && k in t.pcbs && t.pcbs[k].state == PROBE_1 && t.pcbs[k].services == s.services && t.pcbs[k].probeIp && t.pcbs[k].running
  {
    hide Inv, ReprobeAll;
    RestartKeepsInv(s, ks, ds);
    var c := s.(queue := []);
    var i :| 0 <= i < |ks| && ks[i] == k;
    ReprobeAllProbes(c, ks, ds, i);
  }

  lemma {:induction false} ReprobeAllProbes(s: Sys, ks: seq<Pair>, ds: seq<Draw>, i: nat)
    requires |ks| == |ds| && i < |ks| && (forall j :: j in ks ==> j in s.pcbs && j in s.log && j in s.ready)
    requires forall i, j :: 0 <= i < j < |ks| ==> ks[i] != ks[j]
    ensures var t := ReprobeAll(s, ks, ds); var k := ks[i];
            && k in t.pcbs && t.pcbs[k].state == PROBE_1 && t.pcbs[k].services == s.services && t.pcbs[k].probeIp && t.pcbs[k].running
    decreases |ks|
  {
    hide Reprobe;
    var k := ks[0];
    var t := Reprobe(s, k, s.services, true, true, ds[0]);
    ReprobeIs(s, k, ds[0]);
    assert forall j :: j in ks[1..] ==> j in ks;
    if i > 0 {
      assert ks[1..][i - 1] == ks[i];
      ReprobeAllProbes(t, ks[1..], ds[1..], i - 1);
    } else {
      ReprobeAllKeeps(t, ks[1..], ds[1..], k);
    }
  }

  lemma ReprobeIs(s: Sys, k: Pair, d: Draw)
    requires k in s.pcbs && k in s.log && k in s.ready
    ensures var t := Reprobe(s, k, s.services, true, true, d); var b := s.pcbs[k];
            && t.pcbs == s.pcbs[k := Block(PROBE_1, s.services, true, true, b.failed)]
            && t.ready == s.ready && t.services == s.services && t.log.Keys == s.log.Keys
  {
    hide ProbePacket, Insert, ClearPair;
    MissingAll(s.services);
    assert s.services + [] == s.services;
    assert s.pcbs[k := s.pcbs[k].(services := [], running := false)]
        [k := Block(PROBE_1, s.services, true, true, s.pcbs[k].failed)] == s.pcbs[k := Block(PROBE_1, s.services, true, true, s.pcbs[k].failed)];
  }

  lemma {:induction false} MissingAll(services: seq<nat>)
    ensures Missing(services, []) == services
  {
    if services != [] {
      MissingAll(services[1..]);
    }
  }

  lemma {:induction false} ReprobeAllKeeps(s: Sys, ks: seq<Pair>, ds: seq<Draw>, k: Pair)
    requires |ks| == |ds| && (forall j :: j in ks ==> j in s.pcbs && j in s.log && j in s.ready) && k !in ks && k in s.pcbs
    ensures var t := ReprobeAll(s, ks, ds); k in t.pcbs && t.pcbs[k] == s.pcbs[k]
    decreases |ks|
  {
    hide Reprobe;
    if ks != [] {
      ReprobeIs(s, ks[0], ds[0]);
      assert forall j :: j in ks[1..] ==> j in ks;
      ReprobeAllKeeps(Reprobe(s, ks[0], s.services, true, true, ds[0]), ks[1..], ds[1..], k);
    }
  }

  /** Probing on a ready pair, with the services it has been probing for or, if those are to be
      cleared, without them. */
  lemma ReprobeProbes(s: Sys, k: Pair, services: seq<nat>, ip: bool, clearOld: bool, d: Draw)
    requires Inv(s) && k in s.ready && k in s.pcbs && k in s.log && Fresh(s, d) && Distinct(services) && (services != [] || ip)
    ensures var t := Reprobe(s, k, services, ip, clearOld, d);
            && ProbesFor(s, t, k, t.pcbs[k].services, ip, d)
            && forall x :: x in t.pcbs[k].services <==> x in services || (!clearOld && x in s.pcbs[k].services)
  {
    hide Inv, InitProbe, Of, IsProbe, IdUnused, StepAt, Sorted;
    var c := if clearOld then Set(s, k, s.pcbs[k].(services := [], running := false)) else s;
    ClearedMayProbe(s, k, services, clearOld, d);
    InitProbeOk(c, k, services, ip, d);
  }

  lemma ClearedMayProbe(s: Sys, k: Pair, services: seq<nat>, clearOld: bool, d: Draw)
    requires Inv(s) && k in s.ready && k in s.pcbs && Fresh(s, d) && Distinct(services)
    ensures MayProbe(if clearOld then Set(s, k, s.pcbs[k].(services := [], running := false)) else s, k, services, d)
  {
    hide Phase, Of, Disciplined, Distinct;
    InvGives(s);
    assert PairOk(s, k);
    NothingDistinct();
    var c := if clearOld then Set(s, k, s.pcbs[k].(services := [], running := false)) else s;
    NothingElsewhere(s, k);
    SetAt(s, s, k, s.pcbs[k].(services := [], running := false));
    assert c.Valid() && c.queue == s.queue && c.now == s.now && c.log == s.log && c.ready == s.ready;
  }

  lemma NothingDistinct()
    ensures Distinct([])
  {}

  /** The counter of failed probes is a 16-bit one. */
  lemma FailedIsCounted(s: Sys, k: Pair)
    requires k in s.pcbs && s.pcbs[k].failed < 0x1_0000
    ensures var t := ProbeFailed(s, k);
            t == s.(pcbs := s.pcbs[k := s.pcbs[k].(failed := (s.pcbs[k].failed + 1) % 0x1_0000)])
  {}

  // ---------------------------------------------------------------- removing a service while probing

  /** A service of the same type stands in front of this one. */
  predicate SameTypeInFront(types: Types, services: seq<nat>, svc: nat) {
    exists i, j :: 0 <= i < j < |services| && services[j] == svc && types(services[i]) == types(svc)
  }

  lemma {:induction false} DropsItself(types: Types, services: seq<nat>, svc: nat)
    requires Distinct(services) && svc in services
    ensures DropType(types, services, types(svc)) == Others(services, svc) <==> !SameTypeInFront(types, services, svc)
    decreases |services|
  {
    var x, rest := services[0], services[1..];
    if x == svc {
      NoneToDrop(rest, svc);
      assert forall j :: 0 < j < |services| ==> services[j] != svc;
    } else if types(x) == types(svc) {
      var j :| 0 <= j < |services| && services[j] == svc;
      assert SameTypeInFront(types, services, svc);
      OthersMembers(services, svc, x);
      assert x !in rest by {
        assert forall j :: 0 < j < |services| ==> services[j] != x;
      }
    } else {
      DropsItself(types, rest, svc);
      InFrontBehind(types, services, svc);
      assert DropType(types, services, types(svc)) == [x] + DropType(types, rest, types(svc));
      assert Others(services, svc) == [x] + Others(rest, svc);
      assert ([x] + DropType(types, rest, types(svc)))[1..] == DropType(types, rest, types(svc));
      assert ([x] + Others(rest, svc))[1..] == Others(rest, svc);
    }
  }

  lemma InFrontBehind(types: Types, services: seq<nat>, svc: nat)
    requires services != [] && types(services[0]) != types(svc)
    ensures SameTypeInFront(types, services, svc) <==> SameTypeInFront(types, services[1..], svc)
  {
    var rest := services[1..];
    if SameTypeInFront(types, services, svc) {
      var i, j :| 0 <= i < j < |services| && services[j] == svc && types(services[i]) == types(svc);
      assert rest[i - 1] == services[i] && rest[j - 1] == services[j];
    }
    if SameTypeInFront(types, rest, svc) {
      var i, j :| 0 <= i < j < |rest| && rest[j] == svc && types(rest[i]) == types(svc);
      assert services[i + 1] == rest[i] && services[j + 1] == rest[j];
    }
  }

  /** The one packet of a probing pair after a removal. */
  lemma RemovedFromProbe(s: Sys, svc: nat, k: Pair)
    requires Inv(s) && k in s.pcbs && s.pcbs[k].InProbe() && svc in s.pcbs[k].services
    requires RemoveService(s, svc).pcbs.Keys == s.pcbs.Keys && RemoveService(s, svc).pcbs[k].InProbe()
    ensures var t := RemoveService(s, svc);
            && |Of(s.queue, k)| == 1 && |Of(t.queue, k)| == 1
            && Proper(Of(s.queue, k)[0])
            && Of(t.queue, k)[0].questions == DropQuestion(Of(s.queue, k)[0].questions, s.types, svc)
            && ClaimedServices(Of(t.queue, k)[0].servers) == t.pcbs[k].services
            && Of(t.queue, k)[0].servers == Without(Of(s.queue, k)[0].servers, svc)
  {
    hide Inv, RemoveFrom, CleanedQueue, Of, ProbeOfBlock, Without, DropQuestion, Phase, Proper;
    InvGives(s);
    var t := RemoveService(s, svc);
    RemoveKeepsInv(s, svc, 0);
    var p := ProbeIn(s, k);
    var q := ProbeIn(t, k);
    RemovalFiltersQueue(s, svc);
    CleanedMembers(s, s.queue, svc, q);
    var o :| o in s.queue && Cleaned(s, o, svc) == q;
    assert o.pair == k;
    assert o == p;
  }

  lemma ProbeIn(t: Sys, k: Pair) returns (p: TxPacket)
    requires Inv(t) && k in t.pcbs && t.pcbs[k].InProbe()
    ensures k in t.ready && Of(t.queue, k) == [p] && Proper(p) && ClaimedServices(p.servers) == t.pcbs[k].services
    ensures forall o :: o in t.queue && o.pair == k <==> o == p
  {
    assert PairOk(t, k);
    var r := PairWaits(t, k);
    p := r.value;
  }

  lemma RemovalKeepsKeys(s: Sys, svc: nat, k: Pair)
    requires Inv(s) && k in s.pcbs
    ensures RemoveService(s, svc).pcbs.Keys == s.pcbs.Keys
    ensures RemoveService(s, svc).types == s.types
  {
    RemovalOfTypes(s, svc, 0);
  }

  lemma RemoveAtOfTypes(s: Sys, svc: nat, i: nat)
    requires i < |s.queue| && s.queue[i].pair in s.pcbs && s.queue[i].pair in s.log
    ensures RemoveAt(s, svc, i).pcbs.Keys == s.pcbs.Keys && RemoveAt(s, svc, i).types == s.types
  {
    hide CheckProbing, DropQuestion, Without;
  }

  lemma {:induction false} RemovalOfTypes(s: Sys, svc: nat, i: nat)
    requires s.Valid() && i <= |s.queue|
    ensures RemoveFrom(s, svc, i).pcbs.Keys == s.pcbs.Keys && RemoveFrom(s, svc, i).types == s.types
    decreases |s.queue| - i
  {
    hide RemoveAt, Empty, Sys.Valid;
    if i < |s.queue| {
      PairIsKnown(s, i);
      var one := RemoveAt(s, svc, i);
      RemoveAtOfTypes(s, svc, i);
      RemoveValid(s, svc, i);
      if Empty(one.queue[i]) {
        RemovalOfTypes(one.(queue := one.queue[..i] + one.queue[i + 1..]), svc, i);
      } else {
        RemovalOfTypes(one, svc, i + 1);
      }
    }
  }

  /** Removing a service from a probe that asks about exactly what it claims leaves it so if and
      only if no probed service of the same type stands in front of the removed one. */
  lemma RemovalKeepsAsking(s: Sys, svc: nat, k: Pair)
    requires Inv(s) && k in s.pcbs && s.pcbs[k].InProbe() && svc in s.pcbs[k].services
    requires |Of(s.queue, k)| == 1 && AskedServices(Of(s.queue, k)[0].questions) == s.pcbs[k].services
    ensures k in RemoveService(s, svc).pcbs
    ensures var t := RemoveService(s, svc);
            t.pcbs[k].InProbe() ==>
              && |Of(t.queue, k)| == 1
              && (AskedServices(Of(t.queue, k)[0].questions) == t.pcbs[k].services <==>
                  !SameTypeInFront(s.types, s.pcbs[k].services, svc))
  {
    hide Inv, RemoveFrom, Of, DropQuestion, Without, Proper, ProperQuestion, SameTypeInFront;
    RemovalKeepsKeys(s, svc, k);
    BlockOf(s, k);
    var t := RemoveService(s, svc);
    if t.pcbs[k].InProbe() {
      RemovedFromProbe(s, svc, k);
      var p, q := Of(s.queue, k)[0], Of(t.queue, k)[0];
      ProperQuestionsOf(p);
      DroppedQuestion(p.questions, s.types, svc);
      ClaimGoes(p.servers, svc);
      var was := ProbeIn(s, k);
      DropsItself(s.types, s.pcbs[k].services, svc);
    }
  }

  /** A run after which the probe asks about a service that is gone, and claims one without asking:
      a pair is switched on while two services of one type are registered, and the second one is
      removed before the probe is sent. */
  lemma RemovalAsksForTheOther(s: Sys, k: Pair, d: Draw, a: nat, b: nat) returns (t: Sys)
    requires Initial(s) && k in s.pcbs && s.services == [a, b] && a != b && s.types(a) == s.types(b)
    ensures Reaches(s, [DoEnable(k, true, d), DoRemove(b)], t)
    ensures k in t.pcbs && t.pcbs[k].InProbe() && t.pcbs[k].services == [a]
    ensures |Of(t.queue, k)| == 1
            && ClaimedServices(Of(t.queue, k)[0].servers) == [a] && AskedServices(Of(t.queue, k)[0].questions) == [b]
  {
    hide Inv, RemoveFrom, Enable, Of, DropQuestion, Without, Proper, ProperQuestion, Reaches, IsProbe;
    InitialOk(s);
    InvGives(s);
    assert Fresh(s, d) && s.pcbs[k].state == OFF;
    SwitchedOnProbes(s, k, true, d);
    var u := Enable(s, k, true, d);
    InterfaceStepOk(s, DoEnable(k, true, d));
    InvGives(u);
    t := RemoveService(u, b);
    TwoSteps(s, k, d, b, u, t);
    var p := ProbeIn(u, k);
    AsksFor(p, s.names, [a, b]);
    assert [a, b][1..] == [b] && [b][1..] == [];
    RemovalForgetsService(u, b, k);
    RemovalKeepsKeys(u, b, k);
    EnableKeepsTypes(s, k, d);
    StillProbing(u, b, k);
    RemovedFromProbe(u, b, k);
    DroppedQuestion(p.questions, u.types, b);
    ClaimGoes(p.servers, b);
    FirstOfTwo(u.types, a, b);
  }

  lemma FirstOfTwo(types: Types, a: nat, b: nat)
    requires a != b && types(a) == types(b)
    ensures Others([a, b], b) == [a] && DropType(types, [a, b], types(b)) == [b]
  {
    assert [a, b][1..] == [b] && [b][1..] == [];
    assert [a] + [] == [a] && Others([b], b) == [];
  }

  lemma AsksFor(p: TxPacket, names: Names, services: seq<nat>)
    requires IsProbe(p, names, services, true, true)
    ensures AskedServices(p.questions) == services && forall q :: q in p.questions ==> ProperQuestion(q)
  {}

  lemma EnableKeepsTypes(s: Sys, k: Pair, d: Draw)
    requires k in s.pcbs && k in s.log
    ensures Enable(s, k, true, d).types == s.types
  {}

  lemma TwoSteps(s: Sys, k: Pair, d: Draw, svc: nat, u: Sys, t: Sys)
    requires s.Valid() && u.Valid() && Enabled(s, DoEnable(k, true, d)) && u == Apply(s, DoEnable(k, true, d))
    requires t == RemoveService(u, svc)
    ensures Reaches(s, [DoEnable(k, true, d), DoRemove(svc)], t)
  {
    hide Apply, Enabled, Sys.Valid;
    var ops := [DoEnable(k, true, d), DoRemove(svc)];
    assert ops[1..] == [DoRemove(svc)] && ops[1..][1..] == [];
    assert Reaches(t, [], t);
    RemovalIsStep(u, svc);
    assert Reaches(u, ops[1..], t);
  }

  lemma RemovalIsStep(u: Sys, svc: nat)
    requires u.Valid()
    ensures Enabled(u, DoRemove(svc)) && Apply(u, DoRemove(svc)) == RemoveService(u, svc)
  {}

  /** A pair that claims its host goes on probing. */
  lemma StillProbing(s: Sys, svc: nat, k: Pair)
    requires Inv(s) && k in s.pcbs && s.pcbs[k].InProbe() && s.pcbs[k].probeIp
    ensures k in RemoveService(s, svc).pcbs && RemoveService(s, svc).pcbs[k].InProbe()
  {
    BlockOf(s, k);
    RemovalGoesOn(s, svc, 0, k);
  }

  lemma RemoveAtGoesOn(s: Sys, svc: nat, i: nat, k: Pair)
    requires i < |s.queue| && s.queue[i].pair in s.pcbs && s.queue[i].pair in s.log
    requires k in s.pcbs && s.pcbs[k].InProbe() && s.pcbs[k].probeIp
    ensures var t := RemoveAt(s, svc, i); k in t.pcbs && t.pcbs[k].InProbe() && t.pcbs[k].probeIp
  {
    hide DropQuestion, Without, Position;
  }

  lemma {:induction false} RemovalGoesOn(s: Sys, svc: nat, i: nat, k: Pair)
    requires s.Valid() && i <= |s.queue| && k in s.pcbs && s.pcbs[k].InProbe() && s.pcbs[k].probeIp
    ensures var t := RemoveFrom(s, svc, i); k in t.pcbs && t.pcbs[k].InProbe() && t.pcbs[k].probeIp
    decreases |s.queue| - i
  {
    hide RemoveAt, Empty, Sys.Valid;
    if i < |s.queue| {
      PairIsKnown(s, i);
      var one := RemoveAt(s, svc, i);
      RemoveAtGoesOn(s, svc, i, k);
      RemoveValid(s, svc, i);
      if Empty(one.queue[i]) {
        RemovalGoesOn(one.(queue := one.queue[..i] + one.queue[i + 1..]), svc, i, k);
      } else {
        RemovalGoesOn(one, svc, i + 1, k);
      }
    }
  }

  lemma ProperQuestionsOf(p: TxPacket)
    requires Proper(p)
    ensures forall q :: q in p.questions ==> ProperQuestion(q)
  {}
}
