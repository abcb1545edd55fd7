/** Every step of the probe/announce protocol keeps the invariant. */
module ProbeSteps {
  import opened Bytes
  import opened RecordWriter
  import opened Packets
  import opened TxQueue
  import opened QueueByPair
  import opened Pcb
  import opened ProbePackets
  import opened ProbeDiscipline

  // ---------------------------------------------------------------- the queue under a step

  lemma InsertKeepsPairs(s: Sys, p: TxPacket)
    requires s.Valid() && p.pair in s.pcbs
    ensures s.(queue := Insert(s.queue, p)).Valid()
  {
    forall x | x in Insert(s.queue, p)
      ensures x.pair in s.pcbs
    {
      InsertMembers(s.queue, p, x);
    }
  }

  lemma ClearOk(s: Sys, k: Pair)
    requires s.Valid() && QueueOk(s.queue, s.now) && k in s.pcbs
    ensures var t := Clear(s, k);
            SameWorld(s, t) && QueueOk(t.queue, t.now) && Of(t.queue, k) == []
    ensures forall id :: IdUnused(s.queue, id) ==> IdUnused(Clear(s, k).queue, id)
    ensures Elsewhere(s, Clear(s, k), k)
  {
    ClearIsSublist(s.queue, k);
    SublistOk(Clear(s, k).queue, s.queue, s.now);
    OfClear(s.queue, k, k);
    forall j | j in s.pcbs && j != k
      ensures Untouched(s, Clear(s, k), j)
    {
      KeptByClear(s.queue, k, j);
    }
  }

  /** A new packet for a pair that has none. */
  lemma SendAfterOk(s: Sys, p: TxPacket, ms: nat)
    requires s.Valid() && QueueOk(s.queue, s.now) && p.pair in s.pcbs && IdUnused(s.queue, p.id) && !p.queued
    ensures var t := SendAfter(s, p, ms);
            SameWorld(s, t) && QueueOk(t.queue, t.now)
            && (Of(s.queue, p.pair) == [] ==> Of(t.queue, p.pair) == [p.(sendAt := s.now + ms)])
    ensures Elsewhere(s, SendAfter(s, p, ms), p.pair)
  {
    hide QueueOk, IdUnused, Insert, Sys.Valid, Similar;
    var x := p.(sendAt := s.now + ms);
    InsertKeepsPairs(s, x);
    InsertOk(s.queue, x, s.now);
    OfInsert(s.queue, x, p.pair);
    forall j | j in s.pcbs && j != p.pair
      ensures Untouched(s, SendAfter(s, p, ms), j)
    {
      KeptByInsert(s.queue, x, j);
    }
  }

  /** The block of pair k, its log and whether it is ready may change besides. */
  lemma ChangeAt(s: Sys, sent: Sys, k: Pair, b: Block, more: seq<Event>, ready: set<Pair>)
    requires s.Valid() && SameWorld(s, sent) && k in s.pcbs && Elsewhere(s, sent, k)
    requires ready <= s.pcbs.Keys && ready - {k} == sent.ready - {k}
    ensures var t := sent.(pcbs := sent.pcbs[k := b], log := sent.log[k := sent.log[k] + more], ready := ready);
            SameWorld(s, t) && Elsewhere(s, t, k)
  {
    var t := sent.(pcbs := sent.pcbs[k := b], log := sent.log[k := sent.log[k] + more], ready := ready);
    assert t.pcbs.Keys == sent.pcbs.Keys;
    forall j | j in s.pcbs && j != k
      ensures Untouched(s, t, j)
    {
      assert Untouched(s, sent, j);
      assert j in ready <==> j in ready - {k};
      assert j in sent.ready <==> j in sent.ready - {k};
    }
  }

  /** The state after a packet has been put back and its block and log have been brought up to
      date. */
  function Rescheduled(s: Sys, p: TxPacket, ms: nat, b: Block, more: seq<Event>): Sys
    requires p.pair in s.log
  {
    SendAfter(s, p, ms).(pcbs := s.pcbs[p.pair := b], log := s.log[p.pair := s.log[p.pair] + more])
  }

  /** The step concerns pair k, and leaves it in order. */
  ghost predicate StepAt(s: Sys, t: Sys, k: Pair) {
    && SameWorld(s, t) && t.ready == s.ready && Elsewhere(s, t, k)
    && QueueOk(t.queue, t.now) && k in t.pcbs && k in t.log && PairOk(t, k)
  }

  /** Nothing waits for the pair of p, and p is not in the queue. */
  ghost predicate Taken(s: Sys, p: TxPacket) {
    && s.Valid() && QueueOk(s.queue, s.now) && p.pair in s.ready && IdUnused(s.queue, p.id) && !p.queued
    && Of(s.queue, p.pair) == [] && Disciplined(s.types, s.log[p.pair])
  }

  lemma RescheduledElsewhere(s: Sys, p: TxPacket, ms: nat, b: Block, more: seq<Event>)
    requires s.Valid() && QueueOk(s.queue, s.now) && p.pair in s.ready && IdUnused(s.queue, p.id) && !p.queued
    ensures var t := Rescheduled(s, p, ms, b, more);
            && SameWorld(s, t) && t.ready == s.ready && Elsewhere(s, t, p.pair) && QueueOk(t.queue, t.now)
            && p.pair in t.pcbs && t.pcbs[p.pair] == b && p.pair in t.log && t.log[p.pair] == s.log[p.pair] + more
            && (Of(s.queue, p.pair) == [] ==> Of(t.queue, p.pair) == [p.(sendAt := s.now + ms)])
  {
    SendAfterOk(s, p, ms);
    ChangeAt(s, SendAfter(s, p, ms), p.pair, b, more, s.ready);
  }

  // ---------------------------------------------------------------- starting to probe

  lemma {:induction false} MissingMembers(services: seq<nat>, known: seq<nat>, x: nat)
    ensures x in Missing(services, known) <==> x in services && x !in known
  {
    if services != [] {
      MissingMembers(services[1..], known, x);
    }
  }

  lemma {:induction false} MissingDistinct(services: seq<nat>, known: seq<nat>)
    requires Distinct(services)
    ensures Distinct(Missing(services, known))
  {
    if services != [] {
      MissingDistinct(services[1..], known);
      MissingMembers(services[1..], known, services[0]);
      DistinctCons(services[0], Missing(services[1..], known));
    }
  }

  lemma DistinctCons(x: nat, list: seq<nat>)
    requires Distinct(list) && x !in list
    ensures Distinct([x] + list)
  {}

  /** Extending a probe: the old services and the new, each once, the old ones still in their
      order behind the added ones. */
  lemma UnionOfServices(services: seq<nat>, known: seq<nat>)
    requires Distinct(services) && Distinct(known)
    ensures var all := Missing(services, known) + known;
            Distinct(all) && forall x :: x in all <==> x in services || x in known
  {
    var added, all := Missing(services, known), Missing(services, known) + known;
    MissingDistinct(services, known);
    forall x
      ensures x in all <==> x in services || x in known
    {
      MissingMembers(services, known, x);
    }
    forall i, j | 0 <= i < j < |all|
      ensures all[i] != all[j]
    {
      if i < |added| <= j {
        MissingMembers(services, known, all[i]);
        assert all[j] in known;
      }
    }
  }

  /** Whatever was going on before, this is what a pair looks like that starts to probe. */
  lemma StartedOk(t: Sys, k: Pair, log: seq<Event>, e: Event)
    requires k in t.pcbs && k in t.log && k in t.ready
    requires t.pcbs[k].state == PROBE_1 && t.pcbs[k].running && Distinct(t.pcbs[k].services)
    requires Disciplined(t.types, log) && t.log[k] == log + [e] && Begun(e)
    requires Of(t.queue, k) == [e.packet] && e.packet.sendAt >= e.at + 120 && Claims(e.packet, t.pcbs[k])
    ensures PairOk(t, k)
  {
    hide Claims, LeftOf, IsProbe;
    ClaimedBefore(t.types, log, e);
    BegunLeft(t.types, e);
  }

  lemma BegunLeft(types: Types, e: Event)
    requires Begun(e)
    ensures LeftOf(types, e.packet, e.packet) && AllUnicast(e.packet.questions, true)
  {
    NothingRemoved(types, e.packet);
  }

  /** Only what the packet claims and which host names it asks for counts. */
  lemma SameClaims(p: TxPacket, q: TxPacket, b: Block, c: Block)
    requires Claims(p, b) && q.servers == p.servers && AskedHosts(q.questions) == AskedHosts(p.questions)
    requires c.services == b.services && c.probeIp == b.probeIp
    ensures Claims(q, c)
  {}

  /** A probe enters the queue of a pair that has nothing waiting. */
  lemma ProbeEnters(s: Sys, p: TxPacket, ms: nat, b: Block, e: Event)
    requires Taken(s, p) && ms >= 120 && Begun(e) && e.packet == p.(sendAt := s.now + ms) && e.at == s.now && Claims(e.packet, b)
    requires b.state == PROBE_1 && b.running && Distinct(b.services)
    ensures StepAt(s, Rescheduled(s, p, ms, b, [e]), p.pair)
    ensures Rescheduled(s, p, ms, b, [e]).pcbs == s.pcbs[p.pair := b]
  {
    hide Begun, Claims;
    RescheduledElsewhere(s, p, ms, b, [e]);
    StartedOk(Rescheduled(s, p, ms, b, [e]), p.pair, s.log[p.pair], e);
  }

  lemma NothingWaits(s: Sys, p: TxPacket)
    requires s.Valid() && QueueOk(s.queue, s.now) && IdUnused(s.queue, p.id) && p.pair in s.ready && !p.queued
    requires Of(s.queue, p.pair) == [] && Disciplined(s.types, s.log[p.pair])
    ensures p.pair in s.pcbs && p.pair in s.log && Taken(s, p)
  {}

  /** The pair probes for exactly the services it is told and those it has been probing for: its
      packet is a new probe for them, to be sent after 120 ms (or one second after many
      conflicts) and a random delay. */
  ghost predicate ProbesFor(s: Sys, t: Sys, k: Pair, services: seq<nat>, ip: bool, d: Draw)
    requires k in s.pcbs
  {
    && k in t.pcbs && k in t.log && |Of(t.queue, k)| == 1
    && t.pcbs[k] == Block(PROBE_1, services, s.pcbs[k].probeIp || ip, true, s.pcbs[k].failed)
    && var p := Of(t.queue, k)[0];
       && p.id == d.id && p.pair == k && !p.queued && IsProbe(p, s.names, services, true, s.pcbs[k].probeIp || ip)
       && p.sendAt == s.now + (if s.pcbs[k].failed > 5 then 1000 else 120) + d.delay
  }

  lemma StartProbeOk(s: Sys, k: Pair, services: seq<nat>, ip: bool, d: Draw)
    requires s.Valid() && QueueOk(s.queue, s.now) && IdUnused(s.queue, d.id) && k in s.ready && k in s.pcbs && k in s.log
    requires Of(s.queue, k) == [] && Distinct(services + s.pcbs[k].services) && Disciplined(s.types, s.log[k])
    requires services + s.pcbs[k].services != [] || ip
    ensures var t := StartProbe(s, k, services, ip, d);
            StepAt(s, t, k) && ProbesFor(s, t, k, services + s.pcbs[k].services, ip, d)
  {
    hide StartProbe, QueueOk, Sys.Valid, Disciplined, StepAt, Of, IdUnused, ProbesFor, Distinct;
    StartSteps(s, k, services, ip, d);
    StartProbesFor(s, k, services, ip, d);
  }

  lemma StartSteps(s: Sys, k: Pair, services: seq<nat>, ip: bool, d: Draw)
    requires s.Valid() && QueueOk(s.queue, s.now) && IdUnused(s.queue, d.id) && k in s.ready && k in s.pcbs && k in s.log
    requires Of(s.queue, k) == [] && Distinct(services + s.pcbs[k].services) && Disciplined(s.types, s.log[k])
    requires services + s.pcbs[k].services != [] || ip
    ensures StepAt(s, StartProbe(s, k, services, ip, d), k)
  {
    hide StartProbe, ProbePacket, QueueOk, Sys.Valid, Disciplined, StepAt, Taken, Of, IdUnused, Rescheduled, Claims, Begun, Distinct;
    var b := s.pcbs[k];
    var probeIp := b.probeIp || ip;
    var ms := (if b.failed > 5 then 1000 else 120) + d.delay;
    var started := b.(services := services + b.services, probeIp := probeIp, running := true, state := PROBE_1);
    var p := ProbePacket(d.id, k, s.names, started.services, true, probeIp);
    StartIs(s, k, services, ip, d);
    NothingWaits(s, p);
    ProbeEntersAnew(s, p, d.id, ms, started);
  }

  lemma ProbeEntersAnew(s: Sys, p: TxPacket, id: nat, ms: nat, b: Block)
    requires Taken(s, p) && ms >= 120 && p == ProbePacket(id, p.pair, s.names, b.services, true, b.probeIp)
    requires b.state == PROBE_1 && b.running && Distinct(b.services) && (b.services != [] || b.probeIp)
    ensures StepAt(s, Rescheduled(s, p, ms, b, [Started(s.now, p.(sendAt := s.now + ms), s.names, b.probeIp)]), p.pair)
  {
    hide ProbePacket, StepAt, Taken, Rescheduled, Claims, Begun, Distinct;
    var e := Started(s.now, p.(sendAt := s.now + ms), s.names, b.probeIp);
    ProbeBegins(e, id, p.pair, b);
    ProbeEnters(s, p, ms, b, e);
  }

  lemma ProbeBegins(e: Event, id: nat, k: Pair, b: Block)
    requires e.Started? && e.packet == ProbePacket(id, k, e.names, b.services, true, b.probeIp).(sendAt := e.packet.sendAt)
    requires e.ip == b.probeIp && Distinct(b.services) && (b.services != [] || b.probeIp)
    ensures Begun(e) && Claims(e.packet, b)
  {
    hide ProbePacket, IsProbe, Claims, Distinct, ClaimedServices;
    var p := ProbePacket(id, k, e.names, b.services, true, b.probeIp);
    NewProbe(id, k, e.names, b.services, true, b.probeIp);
    StillProbe(p, e.packet, e.names, b.services, b.probeIp);
    ProbeClaims(e.packet, e.names, b);
  }

  lemma StartProbesFor(s: Sys, k: Pair, services: seq<nat>, ip: bool, d: Draw)
    requires k in s.pcbs && k in s.log && Of(s.queue, k) == [] && Distinct(services + s.pcbs[k].services)
    ensures ProbesFor(s, StartProbe(s, k, services, ip, d), k, services + s.pcbs[k].services, ip, d)
  {
    hide StartProbe, ProbePacket, Of, IsProbe, SendAfter;
    var b := s.pcbs[k];
    var all := services + b.services;
    var p := ProbePacket(d.id, k, s.names, all, true, b.probeIp || ip);
    NewProbe(d.id, k, s.names, all, true, b.probeIp || ip);
    StillProbe(p, p.(sendAt := s.now + ((if b.failed > 5 then 1000 else 120) + d.delay)), s.names, all, b.probeIp || ip);
    StartWaits(s, k, services, ip, d, p);
    StartIs(s, k, services, ip, d);
    SameBlocks(s, p, (if b.failed > 5 then 1000 else 120) + d.delay);
  }

  /** The time of a packet is no matter. */
  lemma StillProbe(p: TxPacket, q: TxPacket, names: Names, services: seq<nat>, ip: bool)
    requires IsProbe(p, names, services, true, ip) && q == p.(sendAt := q.sendAt)
    ensures IsProbe(q, names, services, true, ip) && ClaimedServices(q.servers) == services
  {}

  /** A probe claims what its block says. */
  lemma ProbeClaims(p: TxPacket, names: Names, b: Block)
    requires IsProbe(p, names, b.services, true, b.probeIp) && (b.services != [] || b.probeIp)
    ensures Claims(p, b)
  {
    if b.probeIp {
      var host := if b.services == [] then Some(names.selfHost) else names.lookup(b.services[0]).hostItem;
      assert HostOf(names, b.services, host);
      assert Announced(p.servers, TYPE_A, None, host);
      var d :| d in p.servers && d.kind == TYPE_A && d.service == None && d.host == host;
      AddressMembers(p.servers, d);
      assert names.hostname in AskedHosts(p.questions);
    } else if ClaimedAddresses(p.servers) != [] {
      var a := ClaimedAddresses(p.servers)[0];
      AddressMembers(p.servers, a);
      assert Announced(p.servers, a.kind, None, a.host);
    }
  }

  lemma StartIs(s: Sys, k: Pair, services: seq<nat>, ip: bool, d: Draw)
    requires k in s.pcbs && k in s.log
    ensures var b := s.pcbs[k];
            var ms := (if b.failed > 5 then 1000 else 120) + d.delay;
            var p := ProbePacket(d.id, k, s.names, services + b.services, true, b.probeIp || ip);
            StartProbe(s, k, services, ip, d)
            == Rescheduled(s, p, ms,
                           b.(services := services + b.services, probeIp := b.probeIp || ip, running := true, state := PROBE_1),
                           [Started(s.now, p.(sendAt := s.now + ms), s.names, b.probeIp || ip)])
  {}

  lemma StartWaits(s: Sys, k: Pair, services: seq<nat>, ip: bool, d: Draw, p: TxPacket)
    requires k in s.pcbs && k in s.log && Of(s.queue, k) == [] && p.pair == k
    requires p == ProbePacket(d.id, k, s.names, services + s.pcbs[k].services, true, s.pcbs[k].probeIp || ip)
    ensures Of(StartProbe(s, k, services, ip, d).queue, k)
            == [p.(sendAt := s.now + ((if s.pcbs[k].failed > 5 then 1000 else 120) + d.delay))]
  {
    hide ProbePacket, Insert, Of;
    OfInsert(s.queue, p.(sendAt := s.now + ((if s.pcbs[k].failed > 5 then 1000 else 120) + d.delay)), k);
  }

  lemma ClaimedBefore(types: Types, log: seq<Event>, e: Event)
    requires Disciplined(types, log) && !e.Claimed?
    ensures Disciplined(types, log + [e])
  {
    hide ClaimedWell;
    var more := log + [e];
    forall i | 0 <= i < |more| && more[i].Claimed?
      ensures ClaimedWell(types, more, i)
    {
      assert log[i].Claimed?;
      SameUpTo(types, log, more, i);
    }
  }

  lemma SameUpTo(types: Types, log: seq<Event>, more: seq<Event>, i: nat)
    requires i < |log| && log[i].Claimed? && ClaimedWell(types, log, i) && log <= more
    ensures ClaimedWell(types, more, i)
  {
    assert more[..i] == log[..i];
  }

  /** The hypotheses under which a ready pair may start to probe. */
  ghost predicate MayProbe(s: Sys, k: Pair, services: seq<nat>, d: Draw) {
    && s.Valid() && QueueOk(s.queue, s.now) && IdUnused(s.queue, d.id) && k in s.ready
    && Distinct(services) && Distinct(s.pcbs[k].services) && Disciplined(s.types, s.log[k])
    && (s.pcbs[k].Probing() || s.pcbs[k].services == [])
  }

  /** There is something to probe for. */
  predicate Asks(services: seq<nat>, ip: bool) {
    services != [] || ip
  }

  lemma InitProbeOk(s: Sys, k: Pair, services: seq<nat>, ip: bool, d: Draw)
    requires MayProbe(s, k, services, d) && Asks(services, ip)
    ensures var t := InitProbe(s, k, services, ip, d);
            StepAt(s, t, k) && t.pcbs[k].state == PROBE_1
            && ProbesFor(s, t, k, t.pcbs[k].services, ip, d)
    ensures var now, known := InitProbe(s, k, services, ip, d).pcbs[k].services, s.pcbs[k].services;
            Distinct(now) && |now| >= |known| && now[|now| - |known|..] == known && (!s.pcbs[k].Probing() ==> now == services)
    ensures forall x :: x in InitProbe(s, k, services, ip, d).pcbs[k].services
                        <==> x in services || x in s.pcbs[k].services
  {
    var c := Clear(s, k);
    ClearOk(s, k);
    var known := c.pcbs[k].services;
    var added := if c.pcbs[k].Probing() then Missing(services, known) else services;
    if c.pcbs[k].Probing() {
      UnionOfServices(services, known);
    } else {
      assert services + known == services;
    }
    assert services != [] ==> services[0] in services && services[0] in added + known;
    StartProbeOk(c, k, added, ip, d);
    var t := InitProbe(s, k, services, ip, d);
    ElsewhereTwice(s, c, t, k);
  }

  lemma InitProbeKeepsInv(s: Sys, k: Pair, services: seq<nat>, ip: bool, d: Draw)
    requires Inv(s) && k in s.ready && Fresh(s, d) && Distinct(services) && Asks(services, ip)
    ensures Inv(InitProbe(s, k, services, ip, d))
  {
    assert PairOk(s, k);
    InitProbeOk(s, k, services, ip, d);
    OnePair(s, InitProbe(s, k, services, ip, d), k);
  }

  lemma NothingElsewhere(s: Sys, k: Pair)
    requires s.Valid()
    ensures SameWorld(s, s) && Elsewhere(s, s, k)
  {}

  lemma SetAt(s: Sys, sent: Sys, k: Pair, b: Block)
    requires s.Valid() && SameWorld(s, sent) && k in s.pcbs && Elsewhere(s, sent, k)
    ensures SameWorld(s, Set(sent, k, b)) && Elsewhere(s, Set(sent, k, b), k)
  {}

  lemma ReprobeKeepsInv(s: Sys, k: Pair, services: seq<nat>, ip: bool, clearOld: bool, d: Draw)
    requires Inv(s) && k in s.pcbs && Fresh(s, d) && Distinct(services) && Asks(services, ip)
    ensures Inv(Reprobe(s, k, services, ip, clearOld, d))
  {
    if k in s.ready {
      assert PairOk(s, k);
      NothingElsewhere(s, k);
      var b := s.pcbs[k].(services := [], running := false);
      var c := if clearOld then Set(s, k, b) else s;
      SetAt(s, s, k, b);
      ReprobeCleared(s, c, k, services, ip, d);
    }
  }

  lemma ReprobeCleared(s: Sys, c: Sys, k: Pair, services: seq<nat>, ip: bool, d: Draw)
    requires Inv(s) && MayProbe(c, k, services, d) && Asks(services, ip)
    requires SameWorld(s, c) && Elsewhere(s, c, k)
    ensures Inv(InitProbe(c, k, services, ip, d))
  {
    InitProbeOk(c, k, services, ip, d);
    var t := InitProbe(c, k, services, ip, d);
    ElsewhereTwice(s, c, t, k);
    assert k in t.ready;
    OnePair(s, t, k);
  }

  // ---------------------------------------------------------------- steps at no pair

  lemma NoPair(s: Sys, t: Sys)
    requires Inv(s) && SameWorld(s, t) && QueueOk(t.queue, t.now) && t.ready == s.ready
    requires forall j :: j in s.pcbs ==> Untouched(s, t, j)
    ensures Inv(t)
  {
    forall j | j in t.pcbs
      ensures PairOk(t, j) && DuplicateOk(t, j)
    {
      assert Untouched(s, t, j);
      UntouchedOk(s, t, j);
      assert DuplicateOk(s, j);
    }
  }

  lemma TimerKeepsInv(s: Sys, oks: seq<bool>)
    requires Inv(s)
    ensures Inv(Timer(s, oks))
  {
    var t := Timer(s, oks);
    MarkKeepsOk(s.queue, s.now, oks);
    MarkOk(s.queue, s.now, oks);
    forall p | p in t.queue
      ensures p.pair in t.pcbs
    {
      var i :| 0 <= i < |t.queue| && t.queue[i] == p;
      assert p.(queued := false) == s.queue[i].(queued := false) && s.queue[i] in s.queue;
    }
    forall j | j in s.pcbs
      ensures Untouched(s, t, j)
    {
      KeptByMark(s.queue, s.now, oks, j);
    }
    NoPair(s, t);
  }

  /** One packet of the queue is replaced by a poorer one. */
  lemma PoorerPacket(s: Sys, i: nat, p: TxPacket)
    requires Inv(s) && i < |s.queue| && Keeps(p, s.queue[i]) && p.queued == s.queue[i].queued
    ensures Inv(s.(queue := s.queue[i := p]))
  {
    hide Inv, QueueOk;
    InvGives(s);
    var t := s.(queue := s.queue[i := p]);
    PoorerQueue(s.queue, i, p, s.now);
    forall x | x in t.queue
      ensures x.pair in t.pcbs
    {
      assert x in s.queue || (x == p && s.queue[i] in s.queue);
    }
    forall j | j in s.pcbs
      ensures Untouched(s, t, j)
    {
      KeptByChange(s.queue, i, p, j);
    }
    NoPair(s, t);
  }

  lemma PoorerQueue(q: seq<TxPacket>, i: nat, p: TxPacket, now: nat)
    requires QueueOk(q, now) && i < |q| && Keeps(p, q[i]) && p.queued == q[i].queued
    ensures QueueOk(q[i := p], now)
  {
    forall x | x in q[i := p] && x.queued
      ensures x.sendAt < now
    {
      assert x in q || (x == p && q[i] in q);
    }
  }

  /** A packet of a pair that is not probing goes. */
  lemma PacketGone(s: Sys, i: nat)
    requires Inv(s) && i < |s.queue| && s.queue[i].pair in s.pcbs && !s.pcbs[s.queue[i].pair].InProbe()
    ensures Inv(s.(queue := s.queue[..i] + s.queue[i + 1..]))
  {
    var k := s.queue[i].pair;
    var t := s.(queue := s.queue[..i] + s.queue[i + 1..]);
    GoneElsewhere(s, i);
    assert PairOk(s, k) && DuplicateOk(s, k);
    OfRemove(s.queue, i, k);
    PresentIsReady(s, i);
    OnePair(s, t, k);
  }

  lemma PresentIsReady(s: Sys, i: nat)
    requires Inv(s) && i < |s.queue|
    ensures s.queue[i].pair in s.pcbs && s.queue[i].pair in s.ready
  {
    var k := s.queue[i].pair;
    assert s.queue[i] in s.queue && PairOk(s, k);
    OfMembers(s.queue, k, s.queue[i]);
  }

  lemma GoneElsewhere(s: Sys, i: nat)
    requires s.Valid() && QueueOk(s.queue, s.now) && i < |s.queue|
    ensures var t := s.(queue := s.queue[..i] + s.queue[i + 1..]);
            SameWorld(s, t) && QueueOk(t.queue, t.now) && Elsewhere(s, t, s.queue[i].pair)
  {
    var t := s.(queue := s.queue[..i] + s.queue[i + 1..]);
    RemovedOrder(s.queue, i, s.now);
    forall j | j in s.pcbs && j != s.queue[i].pair
      ensures Untouched(s, t, j)
    {
      KeptByRemoval(s.queue, i, j);
    }
  }

  lemma RemovedOrder(q: seq<TxPacket>, i: nat, now: nat)
    requires i < |q| && QueueOk(q, now)
    ensures QueueOk(q[..i] + q[i + 1..], now)
  {}

  lemma TickKeepsInv(s: Sys, ms: nat)
    requires Inv(s)
    ensures Inv(s.(now := s.now + ms))
  {}

  lemma ListsKeepInv(s: Sys, t: Sys)
    requires Inv(s) && Distinct(t.services)
    requires t == s.(services := t.services, names := t.names)
    ensures Inv(t)
  {
    forall j | j in s.pcbs
      ensures PairOk(t, j) && DuplicateOk(t, j)
    {
      assert PairOk(s, j) && DuplicateOk(s, j);
    }
  }

  // ---------------------------------------------------------------- replies and announcements

  lemma ReplyKeepsInv(s: Sys, p: TxPacket, ms: nat)
    requires Inv(s) && p.pair in s.ready && s.pcbs[p.pair].state > PROBE_3 && IdUnused(s.queue, p.id) && !p.queued
    ensures Inv(SendAfter(s, p, ms))
  {
    assert PairOk(s, p.pair) && DuplicateOk(s, p.pair);
    SendAfterOk(s, p, ms);
    OnePair(s, SendAfter(s, p, ms), p.pair);
  }

  lemma BlockOf(s: Sys, k: Pair)
    requires Inv(s) && k in s.pcbs
    ensures s.Valid() && BlockOk(s.pcbs[k]) && (k in s.ready <==> s.pcbs[k].state > DUP)
  {}

  lemma BlockKeepsInv(s: Sys, k: Pair, b: Block)
    requires Inv(s) && k in s.pcbs && BlockOk(b)
    requires b.state == s.pcbs[k].state || (s.pcbs[k].state > PROBE_3 && b.state > PROBE_3)
    requires b.InProbe() ==> b.services == s.pcbs[k].services && b.probeIp == s.pcbs[k].probeIp
    ensures Inv(Set(s, k, b))
  {
    assert PairOk(s, k) && DuplicateOk(s, k);
    NothingElsewhere(s, k);
    SetAt(s, s, k, b);
    PairOfBlock(s, k, b);
    hide Inv, PairOk, QueueOk, Elsewhere;
    InvGives(s);
    OnePair(s, Set(s, k, b), k);
  }

  lemma PairOfBlock(s: Sys, k: Pair, b: Block)
    requires k in s.pcbs && k in s.log && PairOk(s, k) && BlockOk(b)
    requires b.state == s.pcbs[k].state || (s.pcbs[k].state > PROBE_3 && b.state > PROBE_3)
    requires b.InProbe() ==> b.services == s.pcbs[k].services && b.probeIp == s.pcbs[k].probeIp
    ensures PairOk(Set(s, k, b), k)
  {
    hide EndsInProbes, Disciplined;
  }

  lemma AnnounceKeepsInv(s: Sys, k: Pair, services: seq<nat>, ip: bool, d: Draw)
    requires Inv(s) && k in s.pcbs && Fresh(s, d) && Distinct(services) && Asks(services, ip)
    ensures Inv(Announce(s, k, services, ip, d))
  {
    hide Inv, InitProbe, SendAfter, AnnouncePacket;
    BlockOf(s, k);
    var b := s.pcbs[k];
    if k in s.ready {
      if b.Probing() {
        InitProbeKeepsInv(s, k, services, ip, d);
      } else if b.Announcing() {
        var at := NextOf(s.queue, k);
        if at.Some? {
          var p := Extended(s.queue[at.value], s.names, services, ip);
          PoorerPacket(s, at.value, p);
          BlockKeepsInv(s.(queue := s.queue[at.value := p]), k, b.(state := ANNOUNCE_1));
        }
      } else if b.state == RUNNING {
        AnnounceAnew(s, k, b.(state := ANNOUNCE_1), AnnouncePacket(d.id, k, s.names, services, ip));
      }
    }
  }

  lemma AnnounceAnew(s: Sys, k: Pair, b: Block, p: TxPacket)
    requires Inv(s) && k in s.ready && s.pcbs[k].state == RUNNING && b == s.pcbs[k].(state := ANNOUNCE_1)
    requires p.pair == k && !p.queued && IdUnused(s.queue, p.id)
    ensures Inv(SendAfter(Set(s, k, b), p, 0))
  {
    assert PairOk(s, k);
    BlockKeepsInv(s, k, b);
    ReplyKeepsInv(Set(s, k, b), p, 0);
  }

  // ---------------------------------------------------------------- interfaces

  lemma ReadyAt(s: Sys, k: Pair)
    requires s.Valid() && k in s.pcbs
    ensures var t := s.(ready := s.ready + {k}); SameWorld(s, t) && Elsewhere(s, t, k)
  {}

  /** Enabling a pair concerns this pair only and, if its socket can be set up, starts to probe. */
  lemma EnableOk(s: Sys, k: Pair, up: bool, d: Draw)
    requires s.Valid() && QueueOk(s.queue, s.now) && Fresh(s, d) && k in s.pcbs && PairOk(s, k) && Distinct(s.services)
    ensures var t := Enable(s, k, up, d);
            && SameWorld(s, t) && QueueOk(t.queue, t.now) && PairOk(t, k)
            && (if k !in s.ready && !up then t.ready == s.ready && t.pcbs[k].state == s.pcbs[k].state
                else t.ready == s.ready + {k} && t.pcbs[k].state == PROBE_1)
    ensures Elsewhere(s, Enable(s, k, up, d), k)
  {
    var b := s.pcbs[k].(failed := 0);
    if k !in s.ready && !up {
      NothingElsewhere(s, k);
      SetAt(s, s, k, b);
    } else {
      var on := s.(ready := s.ready + {k});
      ReadyAt(s, k);
      InitProbeOk(on, k, s.services, true, d);
      ElsewhereTwice(s, on, InitProbe(on, k, s.services, true, d), k);
    }
  }

  lemma EnableKeepsInv(s: Sys, k: Pair, up: bool, d: Draw)
    requires Inv(s) && k in s.pcbs && Fresh(s, d)
    ensures Inv(Enable(s, k, up, d))
  {
    assert PairOk(s, k) && DuplicateOk(s, k);
    EnableOk(s, k, up, d);
    var t := Enable(s, k, up, d);
    if Other(t, k).Some? {
      assert DuplicateOk(s, Other(t, k).value);
    }
    OnePair(s, t, k);
  }

  /** A pair falls silent. */
  lemma DeinitOk(s: Sys, k: Pair)
    requires Inv(s) && k in s.pcbs
    ensures var t := Silence(s, k);
            && SameWorld(s, t) && QueueOk(t.queue, t.now) && PairOk(t, k)
            && t.ready == s.ready - {k} && t.pcbs == s.pcbs[k := IDLE] && Of(t.queue, k) == []
    ensures forall id :: IdUnused(s.queue, id) ==> IdUnused(Silence(s, k).queue, id)
    ensures Elsewhere(s, Silence(s, k), k)
  {
    assert PairOk(s, k);
    ClearOk(s, k);
    ChangeAt(s, Clear(s, k), k, IDLE, [Stopped], s.ready - {k});
    ClaimedBefore(s.types, s.log[k], Stopped);
    assert Silence(s, k).log[k] == s.log[k] + [Stopped];
  }

  /** Two pairs that are each other's partners change; the others need no attention. */
  lemma TwoPairs(s: Sys, t: Sys, k: Pair, o: Pair)
    requires Inv(s) && SameWorld(s, t) && QueueOk(t.queue, t.now) && k in s.pcbs && Other(s, k) == Some(o)
    requires forall j :: j in s.pcbs && j != k && j != o ==> Untouched(s, t, j)
    requires PairOk(t, k) && PairOk(t, o) && DuplicateOk(t, k) && DuplicateOk(t, o)
    ensures Inv(t)
  {
    forall j | j in t.pcbs
      ensures PairOk(t, j) && DuplicateOk(t, j)
    {
      if j != k && j != o {
        assert Untouched(s, t, j) && PairOk(s, j) && DuplicateOk(s, j);
        UntouchedOk(s, t, j);
        if t.pcbs[j].state == DUP {
          StillCovered(s, t, j, k, o);
        }
      }
    }
  }

  lemma StillCovered(s: Sys, t: Sys, j: Pair, k: Pair, o: Pair)
    requires s.Valid() && SameWorld(s, t) && j in s.pcbs && j != k && j != o && Other(s, k) == Some(o)
    requires DuplicateOk(s, j) && Untouched(s, t, j) && s.pcbs[j].state == DUP
    requires forall i :: i in s.pcbs && i != k && i != o ==> Untouched(s, t, i)
    ensures DuplicateOk(t, j)
  {}

  /** off is the state in which k has fallen silent, t the one after its duplicate took over. */
  lemma TakenOver(s: Sys, off: Sys, t: Sys, k: Pair, o: Pair)
    requires Inv(s) && k in s.pcbs && Other(s, k) == Some(o) && s.pcbs[o].state == DUP
    requires SameWorld(s, off) && Elsewhere(s, off, k) && PairOk(off, k) && off.pcbs[k] == IDLE
    requires SameWorld(off, t) && Elsewhere(off, t, o) && PairOk(t, o) && t.pcbs[o].state != DUP && QueueOk(t.queue, t.now)
    ensures Inv(t) && t.pcbs[k] == IDLE
  {
    assert o != k;
    assert Untouched(off, t, k);
    UntouchedOk(off, t, k);
    forall j | j in s.pcbs && j != k && j != o
      ensures Untouched(s, t, j)
    {
      UntouchedTwice(s, off, t, j);
    }
    TwoPairs(s, t, k, o);
  }

  /** Pair k is off already when mdns_priv_pcb_disable says so once more. */
  ghost predicate Settled(t: Sys, k: Pair) {
    Inv(t) && k in t.pcbs && Set(t, k, t.pcbs[k].(state := OFF)) == t
  }

  /** The duplicate itself is as it was. */
  lemma DuplicateAsBefore(s: Sys, off: Sys, k: Pair, o: Pair)
    requires Inv(s) && k in s.pcbs && Other(s, k) == Some(o) && s.pcbs[o].state == DUP && SameWorld(s, off)
    requires Elsewhere(s, off, k)
    ensures o != k && o in off.pcbs && o in off.log && off.pcbs[o] == s.pcbs[o] && PairOk(off, o) && o !in off.ready
    ensures Of(off.queue, o) == [] && BlockOk(off.pcbs[o]) && off.Valid() && Distinct(off.services) && Disciplined(off.types, off.log[o])
  {
    hide QueueOk, Phase, Disciplined, Of;
    assert o != k;
    assert PairOk(s, o) && Untouched(s, off, o);
    UntouchedOk(s, off, o);
  }

  /** The duplicate that waited for k probes now; if its socket cannot be set up it is off. */
  lemma DuplicateEnabled(s: Sys, off: Sys, k: Pair, o: Pair, up: bool, d: Draw)
    requires Inv(s) && k in s.pcbs && Other(s, k) == Some(o) && s.pcbs[o].state == DUP
    requires SameWorld(s, off) && Elsewhere(s, off, k) && PairOk(off, k) && off.pcbs == s.pcbs[k := IDLE]
    requires QueueOk(off.queue, off.now) && Fresh(off, d) && off.ready == s.ready - {k}
    ensures var t := Relieve(off, o, up, d);
            && Settled(t, k)
            && o in t.pcbs && t.pcbs[o].state == (if up then PROBE_1 else OFF)
  {
    hide Inv, PairOk, QueueOk, Elsewhere, Enable, Of, IdUnused;
    DuplicateAsBefore(s, off, k, o);
    var b := off.pcbs[o].(state := OFF);
    NothingElsewhere(off, o);
    SetAt(off, off, o, b);
    var idle := Set(off, o, b);
    IdleOk(off, o);
    EnableOk(idle, o, up, d);
    var t := Enable(idle, o, up, d);
    ElsewhereTwice(off, idle, t, o);
    TakenOver(s, off, t, k, o);
    StaysIdle(t, k);
  }

  lemma IdleOk(off: Sys, o: Pair)
    requires o in off.pcbs && o in off.log && PairOk(off, o) && o !in off.ready && off.Valid()
    ensures var t := Set(off, o, off.pcbs[o].(state := OFF)); PairOk(t, o) && t.Valid()
  {}

  lemma HandOverOk(s: Sys, off: Sys, k: Pair, up: bool, d: Draw)
    requires Inv(s) && s.Valid() && k in s.pcbs && SameWorld(s, off) && Elsewhere(s, off, k) && PairOk(off, k) && off.pcbs == s.pcbs[k := IDLE]
    requires QueueOk(off.queue, off.now) && Fresh(off, d) && off.ready == s.ready - {k}
    ensures var t := HandOver(off, k, up, d);
            Settled(t, k)
  {
    hide Relieve, Settled, Inv, PairOk, QueueOk, Elsewhere, IdUnused;
    var o := Other(s, k);
    if o.Some? && off.pcbs[o.value].state == DUP {
      DuplicateEnabled(s, off, k, o.value, up, d);
    } else {
      FallsSilent(s, off, k);
    }
  }

  lemma DisableKeepsInv(s: Sys, k: Pair, up: bool, d: Draw)
    requires Inv(s) && k in s.pcbs && Fresh(s, d)
    ensures Inv(Disable(s, k, up, d))
  {
    if k in s.ready {
      DeinitOk(s, k);
      HandOverOk(s, Silence(s, k), k, up, d);
    } else {
      NotReadyOff(s, k);
    }
  }

  lemma StaysIdle(t: Sys, k: Pair)
    requires k in t.pcbs && t.pcbs[k] == IDLE
    ensures Set(t, k, t.pcbs[k].(state := OFF)) == t
  {}

  lemma FallsSilent(s: Sys, off: Sys, k: Pair)
    requires Inv(s) && SameWorld(s, off) && Elsewhere(s, off, k) && QueueOk(off.queue, off.now) && k in s.pcbs
    requires PairOk(off, k) && off.pcbs == s.pcbs[k := IDLE]
    requires Other(s, k).Some? ==> off.pcbs[Other(s, k).value].state != DUP
    ensures Settled(off, k)
  {
    OnePair(s, off, k);
    StaysIdle(off, k);
  }

  lemma NotReadyOff(s: Sys, k: Pair)
    requires Inv(s) && k in s.pcbs && k !in s.ready
    ensures Inv(Set(s, k, s.pcbs[k].(state := OFF)))
  {
    assert PairOk(s, k);
    var t := Set(s, k, s.pcbs[k].(state := OFF));
    NothingElsewhere(s, k);
    SetAt(s, s, k, s.pcbs[k].(state := OFF));
    if Other(t, k).Some? {
      assert DuplicateOk(s, Other(t, k).value);
    }
    OnePair(s, t, k);
  }

  lemma GiveWayOk(s: Sys, k: Pair, id: nat)
    requires Inv(s) && k in s.pcbs && IdUnused(s.queue, id) && Other(s, k).Some? && Other(s, k).value in s.ready
    ensures Inv(GiveWay(s, k)) && IdUnused(GiveWay(s, k).queue, id) && GiveWay(s, k).pcbs.Keys == s.pcbs.Keys
  {
    DeinitOk(s, k);
    NothingElsewhere(s, k);
    assert PairOk(s, k);
    BecomesDuplicate(s, if k in s.ready then Silence(s, k) else s, k);
  }

  lemma DuplicateKeepsInv(s: Sys, k: Pair, d: Draw)
    requires Inv(s) && k in s.pcbs && Fresh(s, d)
    ensures Inv(SetDuplicate(s, k, d))
  {
    var o := Other(s, k);
    if o.Some? && o.value in s.ready {
      GiveWayOk(s, k, d.id);
      AnnounceKeepsInv(GiveWay(s, k), o.value, [], true, d);
    }
  }

  lemma BecomesDuplicate(s: Sys, off: Sys, k: Pair)
    requires Inv(s) && SameWorld(s, off) && Elsewhere(s, off, k) && QueueOk(off.queue, off.now) && k in s.pcbs
    requires PairOk(off, k) && k !in off.ready && Other(s, k).Some? && Other(s, k).value in s.ready
    ensures Inv(Set(off, k, off.pcbs[k].(state := DUP)))
  {
    hide Inv, PairOk, QueueOk, Elsewhere, DuplicateOk;
    SilentDuplicate(s, off, k);
    SetAt(s, off, k, off.pcbs[k].(state := DUP));
    OnePair(s, Set(off, k, off.pcbs[k].(state := DUP)), k);
  }

  lemma SilentDuplicate(s: Sys, off: Sys, k: Pair)
    requires Inv(s) && SameWorld(s, off) && Elsewhere(s, off, k) && k in s.pcbs
    requires PairOk(off, k) && k !in off.ready && Other(s, k).Some? && Other(s, k).value in s.ready
    ensures s.Valid()
    ensures var t := Set(off, k, off.pcbs[k].(state := DUP));
            && k in t.pcbs && k in t.log && PairOk(t, k) && DuplicateOk(t, k)
            && Other(t, k).Some? && Other(t, k).value in t.pcbs && t.pcbs[Other(t, k).value].state != DUP
  {
    hide QueueOk, Phase, Disciplined, Of;
    var o := Other(s, k).value;
    assert PairOk(s, o) && Untouched(s, off, o);
    PairMayBeDuplicate(off, k);
  }

  lemma PairMayBeDuplicate(off: Sys, k: Pair)
    requires k in off.pcbs && k in off.log && PairOk(off, k) && k !in off.ready
    ensures PairOk(Set(off, k, off.pcbs[k].(state := DUP)), k)
  {}

  // ---------------------------------------------------------------- sending

  lemma ActionsKeepInv(s: Sys, actions: seq<nat>)
    requires Inv(s)
    ensures Inv(s.(actions := actions))
  {
    var t := s.(actions := actions);
    forall j | j in s.pcbs
      ensures Untouched(s, t, j)
    {
      SimilarToSelf(Of(s.queue, j));
    }
    NoPair(s, t);
  }

  /** Taking the head out disturbs nobody. */
  lemma TakeKeepsInv(s: Sys, actions: seq<nat>)
    requires Inv(s) && s.queue != [] && s.queue[0].pair in s.pcbs && !s.pcbs[s.queue[0].pair].InProbe()
    ensures Inv(s.(actions := actions, queue := s.queue[1..]))
  {
    hide Inv;
    var t := s.(actions := actions);
    ActionsKeepInv(s, actions);
    PacketGone(t, 0);
    assert t.queue[..0] + t.queue[1..] == t.queue[1..];
  }

  /** e is the next transmission behind a log that ends in n. */
  ghost predicate Next(types: Types, log: seq<Event>, e: Event, n: nat) {
    |log| > n && Transmits(types, log[|log| - n - 1], log[|log| - 1], e, n)
  }

  /** What the log says once the probe of a pair has been sent: one transmission more. */
  lemma OneSent(types: Types, log: seq<Event>, n: nat, e: Event)
    requires Disciplined(types, log) && n < 3 && EndsInProbes(types, log, n) && Next(types, log, e, n)
    ensures Disciplined(types, log + [e]) && EndsInProbes(types, log + [e], n + 1)
  {
    hide Transmits, Begun, Disciplined;
    ClaimedBefore(types, log, e) by {
      NextIsSent(types, log, e, n);
    }
    var more := log + [e];
    assert more[|more| - 1] == e && forall i :: 0 <= i < |log| ==> more[i] == log[i];
  }

  lemma NextIsSent(types: Types, log: seq<Event>, e: Event, n: nat)
    requires Next(types, log, e, n)
    ensures e.Sent?
  {}

  /** The probe goes back into the queue for its next transmission. */
  lemma ProbeAgain(s: Sys, p: TxPacket, n: nat, sent: Event, b: Block)
    requires Taken(s, p) && BlockOk(b) && b.state == PROBE_2 + n && n < 2
    requires EndsInProbes(s.types, s.log[p.pair], n) && Next(s.types, s.log[p.pair], sent, n)
    requires sent.at == s.now && sent.packet.id == p.id && AllUnicast(p.questions, false) && Claims(p, b)
    requires FromStart(s.types, s.log[p.pair], p, n)
    ensures StepAt(s, Rescheduled(s, p, 250, b, [sent]), p.pair)
    ensures Of(Rescheduled(s, p, 250, b, [sent]).queue, p.pair) == [p.(sendAt := s.now + 250)]
  {
    hide QueueOk, Of, Disciplined, Elsewhere, SameWorld, PairOk, Rescheduled, Claims, LeftOf, Begun, Transmits;
    var log := s.log[p.pair];
    var q := p.(sendAt := s.now + 250);
    SameClaims(p, q, b, b);
    RescheduledElsewhere(s, p, 250, b, [sent]);
    OneSent(s.types, log, n, sent);
    SameLeft(s.types, log[|log| - n - 1].packet, p, q);
    NextIsSent(s.types, log, sent, n);
    assert (log + [sent])[|log| - n - 1] == log[|log| - n - 1];
    ProbingOk(Rescheduled(s, p, 250, b, [sent]), p.pair, log + [sent], n + 1, q);
  }

  lemma SameLeft(types: Types, o: TxPacket, p: TxPacket, q: TxPacket)
    requires LeftOf(types, o, p) && q.id == p.id && q.servers == p.servers
    requires q.questions == p.questions || q.questions == WithoutUnicast(p.questions)
    ensures LeftOf(types, o, q)
  {
    StillAsked(p.questions);
  }

  lemma ProbingOk(t: Sys, k: Pair, log: seq<Event>, n: nat, p: TxPacket)
    requires k in t.pcbs && k in t.log && k in t.ready && BlockOk(t.pcbs[k]) && 1 <= n <= 2 && t.pcbs[k].state == PROBE_1 + n
    requires t.log[k] == log && Disciplined(t.types, log) && EndsInProbes(t.types, log, n)
    requires Of(t.queue, k) == [p] && AllUnicast(p.questions, false)
    requires log[|log| - 1].Sent? && p.id == log[|log| - 1].packet.id && p.sendAt >= log[|log| - 1].at + 250
    requires FromStart(t.types, log, p, n)
    requires Claims(p, t.pcbs[k])
    ensures PairOk(t, k)
  {
    hide Claims, LeftOf, Disciplined, Begun, Transmits, Of;
    var last := log[|log| - 1];
    assert n + 1 <= |log| && Waiting(t.types, log, [p], n);
    assert Phase(t.types, log, t.pcbs[k], [p]);
  }

  /** After the third transmission the names are claimed; announcement p follows. */
  lemma ClaimOk(s: Sys, p: TxPacket, sent: Event)
    requires Taken(s, p) && EndsInProbes(s.types, s.log[p.pair], 2) && Next(s.types, s.log[p.pair], sent, 2)
    requires FollowsUp(sent, p.(sendAt := s.now + 250), s.names)
    ensures var t := Rescheduled(s, p, 250, Block(ANNOUNCE_1, [], false, false, 0), [sent, Claimed(p.(sendAt := s.now + 250), s.names)]);
            StepAt(s, t, p.pair) && Of(t.queue, p.pair) == [p.(sendAt := s.now + 250)]
  {
    hide QueueOk, Of, Disciplined, Elsewhere, SameWorld, PairOk, Rescheduled, FollowsUp, EndsInProbes;
    var claimed := Claimed(p.(sendAt := s.now + 250), s.names);
    RescheduledElsewhere(s, p, 250, Block(ANNOUNCE_1, [], false, false, 0), [sent, claimed]);
    ClaimedLog(s.types, s.log[p.pair], sent, claimed);
    AnnouncingOk(Rescheduled(s, p, 250, Block(ANNOUNCE_1, [], false, false, 0), [sent, claimed]), p.pair, s.log[p.pair] + [sent], claimed);
  }

  lemma ClaimedLog(types: Types, log: seq<Event>, sent: Event, claimed: Event)
    requires Disciplined(types, log) && EndsInProbes(types, log, 2) && Next(types, log, sent, 2)
    requires claimed.Claimed? && FollowsUp(sent, claimed.announcement, claimed.names)
    ensures Disciplined(types, log + [sent, claimed]) && log + [sent] + [claimed] == log + [sent, claimed]
  {
    hide EndsInProbes, FollowsUp, Next;
    OneSent(types, log, 2, sent);
    var before, more := log + [sent], log + [sent, claimed];
    forall i | 0 <= i < |more| && more[i].Claimed?
      ensures ClaimedWell(types, more, i)
    {
      if i == |before| {
        assert more[..i] == before && more[i - 1] == sent;
        ProbesComeFirst(types, before);
      } else {
        assert before[i] == more[i];
        SameUpTo(types, before, more, i);
      }
    }
  }

  lemma ProbesComeFirst(types: Types, log: seq<Event>)
    requires EndsInProbes(types, log, 3)
    ensures |log| > 3
  {}

  lemma AnnouncingOk(t: Sys, k: Pair, log: seq<Event>, claimed: Event)
    requires k in t.pcbs && k in t.log && k in t.ready && t.pcbs[k] == Block(ANNOUNCE_1, [], false, false, 0)
    requires claimed.Claimed? && t.log[k] == log + [claimed] && Disciplined(t.types, t.log[k])
    ensures PairOk(t, k)
  {}

  /** s is o but for what waits at pair k, and t a step on at that pair. */
  lemma StepKeepsInv(o: Sys, s: Sys, t: Sys, k: Pair)
    requires Inv(o) && Aside(o, s, k) && StepAt(s, t, k) && k in t.ready
    ensures Inv(t)
  {
    assert DuplicateOk(t, k) by {
      assert PairOk(t, k);
    }
    ElsewhereTwice(o, s, t, k);
    OnePair(o, t, k);
  }

  ghost predicate Aside(o: Sys, s: Sys, k: Pair) {
    SameWorld(o, s) && s.ready == o.ready && Elsewhere(o, s, k)
  }

  lemma DuePhase(types: Types, log: seq<Event>, b: Block, p: TxPacket, q: TxPacket, now: nat)
    requires Phase(types, log, b, [p]) && b.InProbe() && p.sendAt < now && q == p.(queued := false)
    ensures var n := b.state - PROBE_1;
            && EndsInProbes(types, log, n) && Next(types, log, Sent(now, q), n) && Claims(p, b)
            && FromStart(types, log, q, n)
  {
    hide Claims, EndsInProbes, LeftOf;
    var start := log[|log| - (b.state - PROBE_1) - 1];
    SameLeft(types, start.packet, p, q);
  }

  /** What the invariant says about a probe that has become due. */
  lemma DueProbe(s: Sys, k: Pair)
    requires Inv(s) && s.queue != [] && s.queue[0].queued && k == s.queue[0].pair && s.pcbs[k].InProbe()
    ensures k in s.ready && Of(s.queue, k) == [s.queue[0]] && Of(s.queue[1..], k) == []
    ensures Phase(s.types, s.log[k], s.pcbs[k], [s.queue[0]]) && s.queue[0].sendAt < s.now
    ensures BlockOk(s.pcbs[k]) && Disciplined(s.types, s.log[k])
  {
    assert s.queue[0] in s.queue && PairOk(s, k);
    assert Of(s.queue, k) == [s.queue[0]] + Of(s.queue[1..], k);
  }

  /** Its pair, with the packet taken out. */
  lemma DueProbeTaken(s: Sys, k: Pair, actions: seq<nat>)
    requires Inv(s) && s.queue != [] && s.queue[0].queued && k == s.queue[0].pair && k in s.pcbs && s.pcbs[k].InProbe()
    ensures var taken := s.(actions := actions, queue := s.queue[1..]);
            Taken(taken, s.queue[0].(queued := false)) && Aside(s, taken, k)
  {
    hide Inv, Phase, Disciplined, BlockOk, Claims, Aside, QueueOk, Of, Distinct;
    InvGives(s);
    DueProbe(s, k);
    HeadAside(s, k, actions);
    SentIsDueAndFirst(s.queue, s.now, s.queue[0].id);
  }

  lemma HeadAside(s: Sys, k: Pair, actions: seq<nat>)
    requires s.Valid() && QueueOk(s.queue, s.now) && s.queue != [] && k == s.queue[0].pair
    ensures var taken := s.(actions := actions, queue := s.queue[1..]);
            Aside(s, taken, k) && QueueOk(taken.queue, taken.now) && taken.Valid()
  {
    hide QueueOk, Elsewhere;
    var t := s.(actions := actions);
    GoneElsewhere(t, 0);
    assert t.queue[..0] + t.queue[1..] == t.queue[1..];
    ActionsElsewhere(s, actions, k);
    ElsewhereTwice(s, t, t.(queue := t.queue[1..]), k);
  }

  lemma ActionsElsewhere(s: Sys, actions: seq<nat>, k: Pair)
    requires s.Valid()
    ensures Elsewhere(s, s.(actions := actions), k)
  {
    forall j | j in s.pcbs && j != k
      ensures Untouched(s, s.(actions := actions), j)
    {
      SimilarToSelf(Of(s.queue, j));
    }
  }

  /** What is known about a due probe that has been taken out of the queue of o, and the record
      of its transmission. */
  ghost predicate DueNow(o: Sys, s: Sys, p: TxPacket, sent: Event) {
    && Inv(o) && Taken(s, p) && Aside(o, s, p.pair)
    && p.pair in s.pcbs && p.pair in s.log && s.pcbs[p.pair].InProbe() && BlockOk(s.pcbs[p.pair]) && Claims(p, s.pcbs[p.pair])
    && sent == Sent(s.now, p)
    && var log, n := s.log[p.pair], s.pcbs[p.pair].state - PROBE_1;
       && EndsInProbes(s.types, log, n) && Next(s.types, log, sent, n)
       && FromStart(s.types, log, p, n)
  }

  /** Sending the probe of a pair: the next transmission is scheduled, or the names claimed. */
  lemma ProbeSentKeepsInv(s: Sys, d: Draw, actions: seq<nat>)
    requires Inv(s) && Fresh(s, d) && s.queue != [] && s.queue[0].queued && s.queue[0].pair in s.pcbs
    requires s.pcbs[s.queue[0].pair].InProbe()
    ensures var p := s.queue[0].(queued := false);
            var taken := s.(actions := actions, queue := s.queue[1..]);
            p.pair in s.log && Inv(Schedule(Note(taken, p.pair, Sent(s.now, p)), p, d))
  {
    hide Inv, QueueOk, Taken, EndsInProbes, Phase, Disciplined, BlockOk, Aside, Claims;
    InvGives(s);
    var p := s.queue[0].(queued := false);
    var k := p.pair;
    var taken := s.(actions := actions, queue := s.queue[1..]);
    DueProbe(s, k);
    DueProbeTaken(s, k, actions);
    DuePhase(s.types, s.log[k], s.pcbs[k], s.queue[0], p, s.now);
    SameClaims(s.queue[0], p, s.pcbs[k], s.pcbs[k]);
    assert IdUnused(taken.queue, d.id);
    ScheduleProbe(s, taken, p, d, Sent(s.now, p));
  }

  /** The three cases of mdns_priv_pcb_schedule_tx_packet for a probe. */
  lemma ScheduleProbe(o: Sys, s: Sys, p: TxPacket, d: Draw, sent: Event)
    requires DueNow(o, s, p, sent) && IdUnused(s.queue, d.id)
    ensures p.pair in s.log && p.pair in s.pcbs && Inv(Schedule(Note(s, p.pair, sent), p, d))
  {
    hide Inv, Taken, EndsInProbes, StepAt, AnnounceFromProbe, WithoutUnicast, Insert, QueueOk, Disciplined, PairOk, Aside, Claims;
    var b := s.pcbs[p.pair];
    if b.state == PROBE_1 {
      ScheduleFirst(o, s, p, d, sent);
    } else if b.state == PROBE_2 {
      ScheduleSecond(o, s, p, d, sent);
    } else {
      ScheduleThird(o, s, p, d, sent);
    }
  }

  lemma ScheduleFirst(o: Sys, s: Sys, p: TxPacket, d: Draw, sent: Event)
    requires DueNow(o, s, p, sent) && s.pcbs[p.pair].state == PROBE_1
    ensures Inv(Schedule(Note(s, p.pair, sent), p, d))
  {
    hide Inv, QueueOk, Disciplined, PairOk, Of, Insert, Aside, Claims;
    var again := p.(questions := WithoutUnicast(p.questions));
    var b := s.pcbs[p.pair].(state := PROBE_2);
    var log := s.log[p.pair];
    StillAsked(p.questions);
    SameClaims(p, again, s.pcbs[p.pair], b);
    SameLeft(s.types, log[|log| - 1].packet, p, again);
    ProbeAgain(s, again, 0, sent, b);
    RescheduleIs(s, again, 250, b, sent);
    StepKeepsInv(o, s, Rescheduled(s, again, 250, b, [sent]), p.pair);
  }

  lemma ScheduleSecond(o: Sys, s: Sys, p: TxPacket, d: Draw, sent: Event)
    requires DueNow(o, s, p, sent) && s.pcbs[p.pair].state == PROBE_2
    ensures Inv(Schedule(Note(s, p.pair, sent), p, d))
  {
    hide Inv, QueueOk, Disciplined, PairOk, Of, Insert, Aside, Claims;
    var b := s.pcbs[p.pair].(state := PROBE_3);
    SameClaims(p, p, s.pcbs[p.pair], b);
    ProbeAgain(s, p, 1, sent, b);
    RescheduleIs(s, p, 250, b, sent);
    StepKeepsInv(o, s, Rescheduled(s, p, 250, b, [sent]), p.pair);
  }

  lemma ScheduleThird(o: Sys, s: Sys, p: TxPacket, d: Draw, sent: Event)
    requires DueNow(o, s, p, sent) && IdUnused(s.queue, d.id) && s.pcbs[p.pair].state == PROBE_3
    ensures Inv(Schedule(Note(s, p.pair, sent), p, d))
  {
    hide Inv, QueueOk, Disciplined, PairOk, Of, Insert, AnnounceFromProbe, Aside, Claims, FollowsUp;
    var a := AnnounceFromProbe(d.id, p, s.names);
    var b := Block(ANNOUNCE_1, [], false, false, 0);
    var claimed := Claimed(a.(sendAt := s.now + 250), s.names);
    AnnouncementFollows(s, p, d.id, sent);
    ClaimOk(s, a, sent);
    ClaimIs(s, a, 250, b, sent, claimed);
    StepKeepsInv(o, s, Rescheduled(s, a, 250, b, [sent, claimed]), p.pair);
  }

  lemma AnnouncementFollows(s: Sys, p: TxPacket, id: nat, sent: Event)
    requires sent == Sent(s.now, p)
    ensures FollowsUp(sent, AnnounceFromProbe(id, p, s.names).(sendAt := s.now + 250), s.names)
  {
    hide Announces;
    AnnouncesWhatWasProbed(id, p, s.names);
  }

  lemma RescheduleIs(s: Sys, p: TxPacket, ms: nat, b: Block, e: Event)
    requires p.pair in s.pcbs && p.pair in s.log
    ensures Set(SendAfter(Note(s, p.pair, e), p, ms), p.pair, b) == Rescheduled(s, p, ms, b, [e])
  {}

  lemma ClaimIs(s: Sys, p: TxPacket, ms: nat, b: Block, e: Event, claimed: Event)
    requires p.pair in s.pcbs && p.pair in s.log
    ensures Note(Set(SendAfter(Note(s, p.pair, e), p, ms), p.pair, b), p.pair, claimed) == Rescheduled(s, p, ms, b, [e, claimed])
    ensures SendAfter(s, p.(sendAt := s.now + ms), ms) == SendAfter(s, p, ms)
  {
    assert s.log[p.pair] + [e] + [claimed] == s.log[p.pair] + [e, claimed];
  }

  lemma ExecuteKeepsInv(s: Sys, d: Draw)
    requires Inv(s) && Fresh(s, d) && s.actions != []
    ensures Inv(Execute(s, d))
  {
    var rest := s.actions[1..];
    ActionsKeepInv(s, rest);
    if Sendable(s.queue, s.actions[0]) {
      var p := s.queue[0].(queued := false);
      assert s.queue[0] in s.queue && s.Valid() && QueueOk(s.queue, s.now);
      hide Inv;
      if s.pcbs[p.pair].InProbe() {
        ProbeSentKeepsInv(s, d, rest);
      } else {
        TakeKeepsInv(s, rest);
        SentIsDueAndFirst(s.queue, s.now, p.id);
        OtherPacketSent(s.(actions := rest, queue := s.queue[1..]), p, d);
      }
    }
  }

  /** Announcements repeat, replies do not matter. */
  lemma OtherPacketSent(s: Sys, p: TxPacket, d: Draw)
    requires Inv(s) && p.pair in s.pcbs && !s.pcbs[p.pair].InProbe() && IdUnused(s.queue, p.id) && !p.queued
    ensures Inv(Schedule(s, p, d))
  {
    hide Inv, PairOk, Schedule, SendAfter, IdUnused, Sys.Valid, Distinct;
    var k := p.pair;
    BlockOf(s, k);
    var b := s.pcbs[k];
    ScheduleOther(s, p, d);
    if b.state == ANNOUNCE_1 || b.state == ANNOUNCE_2 {
      ReplyKeepsInv(s, p, 1000);
      SameBlocks(s, p, 1000);
      BlockKeepsInv(SendAfter(s, p, 1000), k, b.(state := b.state + 1));
    } else if b.state == ANNOUNCE_3 {
      BlockKeepsInv(s, k, b.(state := RUNNING));
    }
  }

  lemma SameBlocks(s: Sys, p: TxPacket, ms: nat)
    ensures SendAfter(s, p, ms).pcbs == s.pcbs
  {}

  /** What happens to a packet of a pair that is not probing. */
  lemma ScheduleOther(s: Sys, p: TxPacket, d: Draw)
    requires p.pair in s.pcbs && p.pair in s.log && !s.pcbs[p.pair].InProbe()
    ensures var k, b := p.pair, s.pcbs[p.pair];
            Schedule(s, p, d)
            == if b.state == ANNOUNCE_1 || b.state == ANNOUNCE_2 then Set(SendAfter(s, p, 1000), k, b.(state := b.state + 1))
               else if b.state == ANNOUNCE_3 then Set(s, k, b.(state := RUNNING)) else s
  {
    hide SendAfter, AnnounceFromProbe, WithoutUnicast;
  }

  // ---------------------------------------------------------------- removing a service

  lemma CheckProbingOk(b: Block, svc: nat, removedAnswers: bool)
    requires BlockOk(b) && b.state > DUP
    ensures var c := CheckProbing(b, svc, removedAnswers).0;
            BlockOk(c) && (c.state == b.state || c.state == RUNNING)
    ensures forall x :: x in CheckProbing(b, svc, removedAnswers).0.services <==> x in b.services && x != svc
  {}

  /** When a pair gives up: probing, if it claims nothing any more; announcing, if the answers of
      the packet have gone.  A question goes just if the service was being claimed. */
  lemma GivesUpExactly(b: Block, svc: nat, removedAnswers: bool)
    requires BlockOk(b) && b.state > DUP && (b.InProbe() ==> b.services != [] || b.probeIp)
    ensures var c := CheckProbing(b, svc, removedAnswers);
            && (b.InProbe() ==> (c.0.state == b.state <==> c.0.services != [] || b.probeIp))
            && (b.Announcing() ==> c.0 == b.(state := if removedAnswers then RUNNING else b.state))
            && (b.state == RUNNING || (b.InProbe() && svc !in b.services) ==> c.0 == b)
            && c.0 == b.(services := c.0.services, running := c.0.InProbe(), state := c.0.state)
            && (c.1 <==> b.InProbe() && svc in b.services)
  {}

  lemma {:induction false} WithoutMembers(list: seq<Answer>, svc: nat, a: Answer)
    ensures a in Without(list, svc) <==> a in list && a.service != Some(svc)
  {
    if list != [] {
      WithoutMembers(list[1..], svc, a);
    }
  }

  /** Without the service, the pair still claims what the packet claims; and what the packet asks
      is what is left of the probe. */
  lemma StrippedClaims(types: Types, o: TxPacket, p: TxPacket, b: Block, svc: nat, removedAnswers: bool, q: TxPacket)
    requires Claims(p, b) && BlockOk(b) && b.InProbe() && LeftOf(types, o, p)
    requires q.id == p.id && q.servers == Without(p.servers, svc)
    requires q.questions == if svc in b.services then DropQuestion(p.questions, types, svc) else p.questions
    requires CheckProbing(b, svc, removedAnswers).0.InProbe()
    ensures Claims(q, CheckProbing(b, svc, removedAnswers).0) && LeftOf(types, o, q) && q.servers != []
  {
    hide Position, DropQuestion, Without, LeftOf, Others, Distinct, ClaimedServices, ClaimedAddresses, AskedHosts;
    if svc in b.services {
      OneRemoved(types, o, p, q, svc);
      RemovedFromBlock(b, svc, removedAnswers);
    } else {
      NoneRemoved(types, o, p, q, svc);
    }
    SameHosts(types, o, p, q);
    NothingClaimed();
  }

  lemma NothingClaimed()
    ensures ClaimedServices([]) == [] && ClaimedAddresses([]) == []
  {}

  lemma SameHosts(types: Types, o: TxPacket, p: TxPacket, q: TxPacket)
    requires LeftOf(types, o, p) && LeftOf(types, o, q)
    ensures AskedHosts(q.questions) == AskedHosts(p.questions) && ClaimedAddresses(q.servers) == ClaimedAddresses(p.servers)
  {}

  lemma RemovedFromBlock(b: Block, svc: nat, removedAnswers: bool)
    requires BlockOk(b) && b.InProbe() && svc in b.services
    ensures var c := CheckProbing(b, svc, removedAnswers).0;
            c.services == Others(b.services, svc) && c.probeIp == b.probeIp && (c.InProbe() ==> c.services != [] || b.probeIp)
  {
    GapIsOthers(b.services, svc);
    if |b.services| == 1 {
      assert b.services[1..] == [] && b.services[0] == svc;
    }
  }

  /** A packet of a pair that is not probing may change in any way but its time. */
  lemma PacketReplaced(s: Sys, i: nat, p: TxPacket)
    requires Inv(s) && i < |s.queue| && s.queue[i].pair in s.pcbs && !s.pcbs[s.queue[i].pair].InProbe()
    requires p.pair == s.queue[i].pair && p.id == s.queue[i].id && p.sendAt == s.queue[i].sendAt && p.queued == s.queue[i].queued
    ensures Inv(s.(queue := s.queue[i := p]))
  {
    var t := s.(queue := s.queue[i := p]);
    var k := p.pair;
    ReplacedElsewhere(s, i, p);
    PresentIsReady(s, i);
    assert PairOk(s, k) && DuplicateOk(s, k);
    OnePair(s, t, k);
  }

  lemma ReplacedElsewhere(s: Sys, i: nat, p: TxPacket)
    requires s.Valid() && QueueOk(s.queue, s.now) && i < |s.queue|
    requires p.pair == s.queue[i].pair && p.id == s.queue[i].id && p.sendAt == s.queue[i].sendAt && p.queued == s.queue[i].queued
    ensures var t := s.(queue := s.queue[i := p]);
            SameWorld(s, t) && QueueOk(t.queue, t.now) && Elsewhere(s, t, p.pair)
  {
    var t := s.(queue := s.queue[i := p]);
    assert s.queue[i] in s.queue;
    forall x | x in t.queue
      ensures x.pair in t.pcbs && (x.queued ==> x.sendAt < s.now)
    {
      assert x in s.queue || x == p;
    }
    forall j | j in s.pcbs && j != p.pair
      ensures Untouched(s, t, j)
    {
      KeptByReplacement(s.queue, i, p, j);
    }
  }

  /** The one packet of a pair that probes. */
  lemma ProbeOf(s: Sys, i: nat)
    requires Inv(s) && i < |s.queue| && s.queue[i].pair in s.pcbs && s.pcbs[s.queue[i].pair].InProbe()
    ensures var k := s.queue[i].pair;
            && Of(s.queue, k) == [s.queue[i]] && k in s.ready && k in s.log && Disciplined(s.types, s.log[k]) && BlockOk(s.pcbs[k])
            && Phase(s.types, s.log[k], s.pcbs[k], [s.queue[i]]) && Claims(s.queue[i], s.pcbs[k])
  {
    var k := s.queue[i].pair;
    PresentIsReady(s, i);
    assert PairOk(s, k) by { hide PairOk; }
    hide Inv, Disciplined, Claims, EndsInProbes, BlockOk, Waiting;
    OfMembers(s.queue, k, s.queue[i]);
    OnlyPacket(s.types, s.log[k], s.pcbs[k], Of(s.queue, k), s.queue[i]);
  }

  lemma OnlyPacket(types: Types, log: seq<Event>, b: Block, list: seq<TxPacket>, p: TxPacket)
    requires Phase(types, log, b, list) && b.InProbe() && p in list
    ensures list == [p] && Claims(p, b)
  {
    hide Claims, EndsInProbes;
  }

  /** A pair that probes loses a service from its block and its packet, or gives up. */
  lemma ProbeStripped(s: Sys, svc: nat, i: nat)
    requires Inv(s) && i < |s.queue| && s.queue[i].pair in s.pcbs && s.pcbs[s.queue[i].pair].InProbe()
    ensures Inv(RemoveAt(s, svc, i))
    ensures var k := s.queue[i].pair; var t := RemoveAt(s, svc, i);
            k in t.pcbs && (t.pcbs[k].InProbe() ==> !Empty(t.queue[i]))
  {
    var p := s.queue[i];
    var k := p.pair;
    ProbeOf(s, i);
    assert s.Valid() && QueueOk(s.queue, s.now) && DuplicateOk(s, k);
    var t := RemoveAt(s, svc, i);
    StrippedElsewhere(s, svc, i);
    OfReplaced(s.queue, i, t.queue[i], k);
    StrippedPair(s, svc, i);
    OnePair(s, t, k);
  }

  lemma StrippedElsewhere(s: Sys, svc: nat, i: nat)
    requires s.Valid() && QueueOk(s.queue, s.now) && i < |s.queue| && s.queue[i].pair in s.pcbs && s.queue[i].pair in s.ready
    ensures var k := s.queue[i].pair; var t := RemoveAt(s, svc, i);
            && SameWorld(s, t) && QueueOk(t.queue, t.now) && Elsewhere(s, t, k) && t.ready == s.ready
            && t.queue == s.queue[i := t.queue[i]] && t.queue[i].pair == k
  {
    hide QueueOk, CheckProbing, DropQuestion, Without;
    var k := s.queue[i].pair;
    var t := RemoveAt(s, svc, i);
    var r := t.queue[i];
    var mid := s.(queue := s.queue[i := r]);
    ReplacedElsewhere(s, i, r);
    var more := if t.log[k] == s.log[k] then [] else [Cancelled];
    assert t.log[k] == s.log[k] + more;
    ChangeAt(s, mid, k, t.pcbs[k], more, s.ready);
    assert t == mid.(pcbs := mid.pcbs[k := t.pcbs[k]], log := mid.log[k := mid.log[k] + more], ready := s.ready);
  }

  lemma StrippedPair(s: Sys, svc: nat, i: nat)
    requires Inv(s) && i < |s.queue| && s.queue[i].pair in s.pcbs && s.pcbs[s.queue[i].pair].InProbe()
    ensures var k := s.queue[i].pair; var t := RemoveAt(s, svc, i);
            && k in t.pcbs && k in t.log && k in t.ready
            && (Of(t.queue, k) == [t.queue[i]] ==> PairOk(t, k)) && (t.pcbs[k].InProbe() ==> !Empty(t.queue[i]))
  {
    hide Inv, QueueOk, Disciplined, EndsInProbes, Claims, Of, DropQuestion, Without;
    var p := s.queue[i];
    var k := p.pair;
    ProbeOf(s, i);
    var b := s.pcbs[k];
    var q := Stripped(p, svc);
    var removed := p.answers != [] && q.answers == [];
    var c := CheckProbing(b, svc, removed);
    CheckProbingOk(b, svc, removed);
    var t := RemoveAt(s, svc, i);
    var r := t.queue[i];
    if c.0.InProbe() {
      PhaseOfStripped(s.types, s.log[k], b, c.0, p, svc, removed, r);
    } else {
      ClaimedBefore(s.types, s.log[k], Cancelled);
    }
  }

  lemma PhaseOfStripped(types: Types, log: seq<Event>, b: Block, c: Block, p: TxPacket, svc: nat, removedAnswers: bool, r: TxPacket)
    requires Phase(types, log, b, [p]) && b.InProbe() && BlockOk(b) && c == CheckProbing(b, svc, removedAnswers).0 && c.InProbe()
    requires r.id == p.id && r.sendAt == p.sendAt && r.servers == Without(p.servers, svc)
    requires r.questions == if svc in b.services then DropQuestion(p.questions, types, svc) else p.questions
    ensures Phase(types, log, c, [r]) && r.servers != []
  {
    hide Claims, EndsInProbes, LeftOf;
    var start := log[|log| - (b.state - PROBE_1) - 1];
    StrippedClaims(types, start.packet, p, b, svc, removedAnswers, r);
    LeftIsProper(types, start.packet, p);
    DroppedStillUnicast(p, types, svc);
  }

  lemma LeftIsProper(types: Types, o: TxPacket, p: TxPacket)
    requires LeftOf(types, o, p)
    ensures Proper(p)
  {}

  lemma DroppedStillUnicast(p: TxPacket, types: Types, svc: nat)
    requires Proper(p)
    ensures forall u :: AllUnicast(p.questions, u) ==> AllUnicast(DropQuestion(p.questions, types, svc), u)
  {
    DroppedQuestion(p.questions, types, svc);
  }

  lemma RemoveAtKeepsInv(s: Sys, svc: nat, i: nat)
    requires Inv(s) && i < |s.queue|
    ensures s.queue[i].pair in s.pcbs && s.queue[i].pair in s.log && Inv(RemoveAt(s, svc, i))
    ensures var k := s.queue[i].pair; var t := RemoveAt(s, svc, i);
            k in t.pcbs && (Empty(t.queue[i]) ==> !t.pcbs[k].InProbe())
  {
    var p := s.queue[i];
    var k := p.pair;
    PresentIsReady(s, i);
    assert PairOk(s, k);
    if s.pcbs[k].InProbe() {
      ProbeStripped(s, svc, i);
    } else {
      var q := Stripped(p, svc);
      var b := s.pcbs[k];
      var c := CheckProbing(b, svc, p.answers != [] && q.answers == []);
      var r := if c.1 then q.(questions := DropQuestion(q.questions, s.types, svc)) else q;
      PacketReplaced(s, i, r);
      CheckProbingOk(b, svc, p.answers != [] && q.answers == []);
      RemoveAtBlock(s.(queue := s.queue[i := r]), k, c.0);
    }
  }

  lemma RemoveAtBlock(s: Sys, k: Pair, b: Block)
    requires Inv(s) && k in s.ready && k in s.pcbs && !s.pcbs[k].InProbe() && BlockOk(b)
    requires b.state == s.pcbs[k].state || b.state == RUNNING
    ensures Inv(Set(s, k, b))
  {
    assert PairOk(s, k);
    BlockKeepsInv(s, k, b);
  }

  lemma {:induction false} RemoveKeepsInv(s: Sys, svc: nat, i: nat)
    requires Inv(s) && s.Valid() && i <= |s.queue|
    ensures Inv(RemoveFrom(s, svc, i))
    decreases |s.queue| - i
  {
    hide Inv, RemoveAt, Empty;
    InvGives(s);
    if i < |s.queue| {
      RemoveAtKeepsInv(s, svc, i);
      var one := RemoveAt(s, svc, i);
      assert s.queue[i] in s.queue;
      RemoveValid(s, svc, i);
      RemoveAtPair(s, svc, i);
      if Empty(one.queue[i]) {
        PacketGone(one, i);
        RemoveKeepsInv(one.(queue := one.queue[..i] + one.queue[i + 1..]), svc, i);
      } else {
        RemoveKeepsInv(one, svc, i + 1);
      }
    }
  }

  lemma RemoveAtPair(s: Sys, svc: nat, i: nat)
    requires i < |s.queue| && s.queue[i].pair in s.pcbs && s.queue[i].pair in s.log
    ensures RemoveAt(s, svc, i).queue[i].pair == s.queue[i].pair
  {}

  // ---------------------------------------------------------------- restarting all pairs

  /** A ready pair whose packets have been thrown away. */
  ghost predicate Bare(s: Sys, k: Pair) {
    && k in s.ready && k in s.pcbs && k in s.log && BlockOk(s.pcbs[k]) && s.pcbs[k].state > DUP
    && Of(s.queue, k) == [] && Disciplined(s.types, s.log[k])
  }

  /** All pairs are in order but those that are still to probe anew. */
  ghost predicate InvBut(s: Sys, ks: seq<Pair>) {
    && s.Valid() && QueueOk(s.queue, s.now) && Distinct(s.services)
    && (forall k :: k in s.pcbs ==> DuplicateOk(s, k))
    && (forall k :: k in s.pcbs && k !in ks ==> PairOk(s, k))
    && (forall k :: k in ks ==> Bare(s, k))
  }

  lemma BareOk(s: Sys, t: Sys, j: Pair)
    requires Untouched(s, t, j) && Bare(s, j)
    ensures Bare(t, j)
  {}

  lemma RestartTurn(s: Sys, ks: seq<Pair>, d: Draw)
    requires ks != [] && InvBut(s, ks) && Fresh(s, d) && (forall i :: 0 < i < |ks| ==> ks[i] != ks[0])
    ensures ks[0] in s.pcbs && ks[0] in s.log
    ensures var t := Reprobe(s, ks[0], s.services, true, true, d);
            InvBut(t, ks[1..]) && t.services == s.services && t.ready == s.ready
  {
    var k := ks[0];
    assert Bare(s, k);
    var b := s.pcbs[k].(services := [], running := false);
    var c := Set(s, k, b);
    NothingElsewhere(s, k);
    SetAt(s, s, k, b);
    InitProbeOk(c, k, s.services, true, d);
    var t := InitProbe(c, k, s.services, true, d);
    ElsewhereTwice(s, c, t, k);
    RestartedInv(s, t, ks);
  }

  lemma RestartedInv(s: Sys, t: Sys, ks: seq<Pair>)
    requires ks != [] && InvBut(s, ks) && (forall i :: 0 < i < |ks| ==> ks[i] != ks[0])
    requires SameWorld(s, t) && t.ready == s.ready && Elsewhere(s, t, ks[0]) && QueueOk(t.queue, t.now)
    requires ks[0] in t.pcbs && ks[0] in t.log && PairOk(t, ks[0])
    ensures InvBut(t, ks[1..])
  {
    hide PairOk, Bare, Untouched, QueueOk;
    var k := ks[0];
    assert forall j :: j in ks <==> j == k || j in ks[1..];
    assert k !in ks[1..];
    assert Bare(s, k);
    forall j | j in t.pcbs
      ensures DuplicateOk(t, j) && (j !in ks[1..] ==> PairOk(t, j)) && (j in ks[1..] ==> Bare(t, j))
    {
      assert DuplicateOk(s, j);
      if j != k {
        assert Untouched(s, t, j);
        if j in ks[1..] {
          BareOk(s, t, j);
        } else {
          UntouchedOk(s, t, j);
        }
        StillDuplicate(s, t, k, j);
      } else {
        ReadyIsNoDuplicate(s, t, k);
      }
    }
    forall j | j in ks[1..]
      ensures Bare(t, j)
    {
      BareIsKnown(s, j);
    }
  }

  lemma BareIsKnown(s: Sys, j: Pair)
    requires Bare(s, j)
    ensures j in s.pcbs
  {}

  lemma StillDuplicate(s: Sys, t: Sys, k: Pair, j: Pair)
    requires s.Valid() && SameWorld(s, t) && t.ready == s.ready && j in s.pcbs && Untouched(s, t, j) && DuplicateOk(s, j)
    ensures DuplicateOk(t, j)
  {}

  lemma ReadyIsNoDuplicate(s: Sys, t: Sys, k: Pair)
    requires Bare(s, k) && k in t.pcbs && k in t.log && PairOk(t, k) && t.ready == s.ready
    ensures DuplicateOk(t, k)
  {}

  lemma {:induction false} ReprobeAllOk(s: Sys, ks: seq<Pair>, ds: seq<Draw>)
    requires |ks| == |ds| && InvBut(s, ks)
    requires (forall i, j :: 0 <= i < j < |ks| ==> ks[i] != ks[j]) && (forall i, j :: 0 <= i < j < |ds| ==> ds[i].id != ds[j].id)
    requires forall i :: 0 <= i < |ds| ==> Fresh(s, ds[i])
    ensures forall k :: k in ks ==> k in s.pcbs && k in s.log
    ensures Inv(ReprobeAll(s, ks, ds))
    decreases |ks|
  {
    hide Bare, InvBut, Inv, Reprobe, IdUnused, DuplicateOk, PairOk;
    BareAreKnown(s, ks);
    if ks == [] {
      NoneBare(s);
    } else {
      RestartTurn(s, ks, ds[0]);
      var t := Reprobe(s, ks[0], s.services, true, true, ds[0]);
      forall i | 0 <= i < |ds[1..]|
        ensures Fresh(t, ds[1..][i])
      {
        ReprobeFresh(s, ks[0], ds[0], ds[i + 1].id);
      }
      ReprobeAllOk(t, ks[1..], ds[1..]);
    }
  }

  lemma BareAreKnown(s: Sys, ks: seq<Pair>)
    requires InvBut(s, ks)
    ensures forall k :: k in ks ==> k in s.pcbs && k in s.log
  {
    assert forall k :: k in ks ==> Bare(s, k);
  }

  lemma NoneBare(s: Sys)
    requires InvBut(s, [])
    ensures Inv(s)
  {}

  lemma ReprobeFresh(s: Sys, k: Pair, d: Draw, id: nat)
    requires k in s.pcbs && k in s.log && IdUnused(s.queue, id) && d.id != id
    ensures IdUnused(Reprobe(s, k, s.services, true, true, d).queue, id)
  {
    hide ProbePacket;
    if k in s.ready {
      var c := ClearPair(s.queue, k);
      ClearedUnused(s.queue, k, id);
      var t := Reprobe(s, k, s.services, true, true, d);
      var p: TxPacket :| t.queue == Insert(c, p) && p.id == d.id;
      forall x | x in t.queue
        ensures x.id != id
      {
        InsertMembers(c, p, x);
      }
    }
  }

  lemma {:induction false} ClearedUnused(q: seq<TxPacket>, k: Pair, id: nat)
    requires IdUnused(q, id)
    ensures IdUnused(ClearPair(q, k), id)
    decreases |q|
  {
    if q != [] {
      ClearedUnused(q[1..], k, id);
    }
  }

  /** Restarting: whatever was waiting, afterwards every ready pair probes for all services. */
  lemma RestartKeepsInv(s: Sys, ks: seq<Pair>, ds: seq<Draw>)
    requires Inv(s) && Turns(s, ks, ds)
    ensures forall k :: k in ks ==> k in s.pcbs && k in s.log
    ensures Inv(Restart(s, ks, ds))
  {
    var c := s.(queue := []);
    forall k | k in s.pcbs
      ensures DuplicateOk(c, k) && (k in ks ==> Bare(c, k)) && (k !in ks ==> PairOk(c, k))
    {
      assert PairOk(s, k) && DuplicateOk(s, k);
    }
    assert InvBut(c, ks);
    ReprobeAllOk(c, ks, ds);
  }
}
