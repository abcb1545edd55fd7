/** Safety of the probe/announce protocol over whole runs. */
module ProbeRuns {
  import opened Bytes
  import opened Packets
  import opened TxQueue
  import opened QueueByPair
  import opened Pcb
  import opened ProbePackets
  import opened ProbeDiscipline
  import opened ProbeSteps

  /** Nothing is switched on, nothing is waiting. */
  ghost predicate Initial(s: Sys) {
    && s.Valid() && s.queue == [] && s.actions == [] && s.ready == {} && Distinct(s.services)
    && forall k :: k in s.pcbs ==> s.pcbs[k] == IDLE && s.log[k] == []
  }

  /** ops leads from s to t. */
  ghost predicate Reaches(s: Sys, ops: seq<Op>, t: Sys)
    decreases |ops|
  {
    if ops == [] then s == t
    else s.Valid() && Enabled(s, ops[0]) && Reaches(Apply(s, ops[0]), ops[1..], t)
  }

  lemma InitialOk(s: Sys)
    requires Initial(s)
    ensures Inv(s)
  {}

  /** Steps that start or stop a pair. */
  predicate OfInterface(op: Op) {
    op.DoEnable? || op.DoDisable? || op.DoDuplicate?
  }

  /** Steps that make a working pair probe or announce. */
  predicate OfPair(op: Op) {
    op.DoAnnounce? || op.DoProbe? || op.DoReprobe? || op.DoRestart? || op.DoFail?
  }

  lemma InterfaceStepOk(s: Sys, op: Op)
    requires Inv(s) && Enabled(s, op) && OfInterface(op)
    ensures Inv(Apply(s, op))
  {
    hide Inv, Enable, Disable, SetDuplicate;
    InvGives(s);
    match op
    case DoEnable(k, up, d) => EnableKeepsInv(s, k, up, d);
    case DoDisable(k, up, d) => DisableKeepsInv(s, k, up, d);
    case DoDuplicate(k, d) => DuplicateKeepsInv(s, k, d);
  }

  lemma PairStepOk(s: Sys, op: Op)
    requires Inv(s) && Enabled(s, op) && OfPair(op)
    ensures Inv(Apply(s, op))
  {
    hide Inv, Announce, InitProbe, Reprobe, ReprobeAll, ProbeFailed;
    InvGives(s);
    match op
    case DoAnnounce(k, services, ip, d) => AnnounceKeepsInv(s, k, services, ip, d);
    case DoProbe(k, services, ip, d) => InitProbeKeepsInv(s, k, services, ip, d);
    case DoReprobe(k, services, ip, clearOld, d) => ReprobeKeepsInv(s, k, services, ip, clearOld, d);
    case DoRestart(ks, ds) => RestartKeepsInv(s, ks, ds);
    case DoFail(k) => FailKeepsInv(s, k);
  }

  lemma QueueStepOk(s: Sys, op: Op)
    requires Inv(s) && Enabled(s, op) && !OfInterface(op) && !OfPair(op)
    ensures Inv(Apply(s, op))
  {
    hide Inv, Timer, Execute, Clear, RemoveFrom, SendAfter, Amend, IdUnused;
    InvGives(s);
    match op
    case Tick(ms) => TickKeepsInv(s, ms);
    case RunTimer(oks) => TimerKeepsInv(s, oks);
    case RunAction(d) => ExecuteKeepsInv(s, d);
    case DoReply(p, ms) => ReplyKeepsInv(s, p, ms);
    case DoAmend(i, answers) => AmendKeepsInv(s, i, answers);
    case DoRemove(svc) => RemoveKeepsInv(s, svc, 0);
    case DoServices(services) => ListsKeepInv(s, s.(services := services));
    case DoNames(names) => ListsKeepInv(s, s.(names := names));
  }

  lemma AmendKeepsInv(s: Sys, i: nat, answers: seq<Answer>)
    requires Inv(s) && i < |s.queue|
    ensures Inv(Amend(s, i, answers))
  {
    hide Inv;
    PoorerPacket(s, i, s.queue[i].(answers := answers));
  }

  lemma StepOk(s: Sys, op: Op)
    requires Inv(s) && Enabled(s, op)
    ensures Inv(Apply(s, op))
  {
    if OfInterface(op) {
      InterfaceStepOk(s, op);
    } else if OfPair(op) {
      PairStepOk(s, op);
    } else {
      QueueStepOk(s, op);
    }
  }

  lemma FailKeepsInv(s: Sys, k: Pair)
    requires Inv(s) && k in s.pcbs
    ensures Inv(ProbeFailed(s, k))
  {
    hide Inv;
    BlockOf(s, k);
    var b := s.pcbs[k];
    BlockKeepsInv(s, k, b.(failed := if b.failed >= 0xFFFF then 0 else b.failed + 1));
  }

  lemma {:induction false} EveryStateOk(s: Sys, ops: seq<Op>, t: Sys)
    requires Inv(s) && Reaches(s, ops, t)
    ensures Inv(t)
    decreases |ops|
  {
    if ops != [] {
      StepOk(s, ops[0]);
      EveryStateOk(Apply(s, ops[0]), ops[1..], t);
    }
  }

  // ---------------------------------------------------------------- the theorems

  /** What a transmission asks and claims: what is left of the services the probe began with, in
      their order, and for host and addresses just what it began with.  It asks about exactly the
      services it claims if and only if no removed service has been overtaken by one of its type
      that stood in front of it; and of each type about as many as it claims in any case. */
  ghost predicate AsksAndClaims(types: Types, o: TxPacket, p: TxPacket) {
    && Proper(p) && AskedHosts(p.questions) == AskedHosts(o.questions)
    && ClaimedAddresses(p.servers) == ClaimedAddresses(o.servers)
    && var all, left := ClaimedServices(o.servers), ClaimedServices(p.servers);
       && left == Among(all, left)
       && (AskedServices(p.questions) == left <==> !Overtaken(types, all, left))
       && (forall t :: CountOf(types, AskedServices(p.questions), t) == CountOf(types, left, t))
       && (forall x :: x in AskedServices(p.questions) ==> x in all)
  }

  lemma LeftAsksAndClaims(types: Types, o: TxPacket, p: TxPacket)
    requires LeftOf(types, o, p)
    ensures AsksAndClaims(types, o, p) && p.id == o.id
  {
    hide Proper, Among, LastOfEach, Overtaken;
    AsksWhatItClaims(types, o, p);
  }

  /** Section 8.1 of RFC 6762, over every run: when a pair claims its names, the log shows what
      the pair did immediately before.  It started to probe, with a packet that asks about every
      service and host name it claims, and sent the packet it started with three times: more than
      120 ms after the start and each time more than 250 ms after the last, with unicast questions
      in the first transmission only, and asking about what it claims each time.  An announcement
      of exactly what the third transmission claims follows 250 ms later. */
  lemma ThreeProbesBeforeEveryClaim(s: Sys, ops: seq<Op>, t: Sys, k: Pair, i: nat)
    requires Initial(s) && Reaches(s, ops, t) && k in t.pcbs && k in t.log && i < |t.log[k]| && t.log[k][i].Claimed?
    ensures i >= 4
    ensures var log := t.log[k]; var start := log[i - 4]; var first := log[i - 3]; var second := log[i - 2]; var third := log[i - 1];
            && start.Started? && first.Sent? && second.Sent? && third.Sent?
            && first.packet.id == second.packet.id == third.packet.id == start.packet.id
            && first.at > start.at + 120 && second.at > first.at + 250 && third.at > second.at + 250
            && AllUnicast(first.packet.questions, true) && AllUnicast(second.packet.questions, false)
            && AllUnicast(third.packet.questions, false)
            && IsProbe(start.packet, start.names, ClaimedServices(start.packet.servers), true, start.ip)
            && AsksAndClaims(t.types, start.packet, first.packet) && AsksAndClaims(t.types, start.packet, second.packet)
            && AsksAndClaims(t.types, start.packet, third.packet)
    ensures var claimed := t.log[k][i]; var third := t.log[k][i - 1]; var a := claimed.announcement;
            && a.sendAt == third.at + 250 && a.questions == [] && Announces(a.answers, third.packet.servers, claimed.names)
            && forall c :: c in third.packet.servers ==> Covers(a.answers, c)
  {
    hide Inv, AsksAndClaims, Announces, IsProbe, Covers, AllUnicast, Initial, Disciplined;
    InitialOk(s);
    EveryStateOk(s, ops, t);
    LogOf(t, k);
    ClaimShows(t.types, t.log[k], i);
  }

  lemma LogOf(t: Sys, k: Pair)
    requires Inv(t) && k in t.pcbs
    ensures k in t.log && Disciplined(t.types, t.log[k])
  {
    assert PairOk(t, k);
  }

  /** The same, seen in the log alone. */
  lemma ClaimShows(types: Types, log: seq<Event>, i: nat)
    requires Disciplined(types, log) && i < |log| && log[i].Claimed?
    ensures i >= 4
    ensures var start := log[i - 4]; var first := log[i - 3]; var second := log[i - 2]; var third := log[i - 1];
            && start.Started? && first.Sent? && second.Sent? && third.Sent?
            && first.packet.id == second.packet.id == third.packet.id == start.packet.id
            && first.at > start.at + 120 && second.at > first.at + 250 && third.at > second.at + 250
            && AllUnicast(first.packet.questions, true) && AllUnicast(second.packet.questions, false)
            && AllUnicast(third.packet.questions, false)
            && IsProbe(start.packet, start.names, ClaimedServices(start.packet.servers), true, start.ip)
            && AsksAndClaims(types, start.packet, first.packet) && AsksAndClaims(types, start.packet, second.packet)
            && AsksAndClaims(types, start.packet, third.packet)
    ensures var claimed := log[i]; var third := log[i - 1]; var a := claimed.announcement;
            && a.sendAt == third.at + 250 && a.questions == [] && Announces(a.answers, third.packet.servers, claimed.names)
            && forall c :: c in third.packet.servers ==> Covers(a.answers, c)
  {
    hide AsksAndClaims, LeftOf, Announces, IsProbe, Covers, AllUnicast, ClaimedServices;
    assert ClaimedWell(types, log, i);
    var before := log[..i];
    assert EndsInProbes(types, before, 3);
    var start := before[i - 4];
    LeftAsksAndClaims(types, start.packet, before[i - 3].packet);
    LeftAsksAndClaims(types, start.packet, before[i - 2].packet);
    LeftAsksAndClaims(types, start.packet, before[i - 1].packet);
    AnnouncesCovers(log[i].announcement.answers, before[i - 1].packet.servers, log[i].names);
  }

  lemma AnnouncesCovers(list: seq<Answer>, claims: seq<Answer>, names: Names)
    requires Announces(list, claims, names)
    ensures forall c :: c in claims ==> Covers(list, c)
  {
    hide Announced, Entailed;
    AnnouncedIsCovered(list, claims, names);
  }

  /** Whoever has finished probing has either claimed in this way, or had nothing left to probe. */
  lemma BeyondProbing(s: Sys, ops: seq<Op>, t: Sys, k: Pair)
    requires Initial(s) && Reaches(s, ops, t) && k in t.pcbs && t.pcbs[k].state > PROBE_3
    ensures k in t.log && t.log[k] != []
    ensures var last := t.log[k][|t.log[k]| - 1];
            last.Cancelled? || (last.Claimed? && EndsInProbes(t.types, t.log[k][..|t.log[k]| - 1], 3))
  {
    InitialOk(s);
    EveryStateOk(s, ops, t);
    assert PairOk(t, k);
  }

  /** The control blocks in every state that can be reached. */
  lemma BlocksInEveryState(s: Sys, ops: seq<Op>, t: Sys, k: Pair)
    requires Initial(s) && Reaches(s, ops, t) && k in t.pcbs
    ensures var b := t.pcbs[k];
            && (b.running <==> PROBE_1 <= b.state <= PROBE_3)
            && (b.services != [] ==> PROBE_1 <= b.state <= PROBE_3) && Distinct(b.services)
            && (k in t.ready <==> b.state > DUP)
  {
    InitialOk(s);
    EveryStateOk(s, ops, t);
    assert PairOk(t, k);
  }

  /** p is the probe of a block whose log is given: what it began with is in the log, and it
      claims exactly the services of the block, and addresses just if the host is claimed. */
  ghost predicate ProbeOfBlock(types: Types, log: seq<Event>, b: Block, p: TxPacket) {
    && InProbeLog(log, b.state - PROBE_1) && log[|log| - 1].packet.id == p.id
    && ClaimedServices(p.servers) == b.services
    && (b.probeIp <==> ClaimedAddresses(p.servers) != []) && (b.probeIp <==> AskedHosts(p.questions) != [])
    && AllUnicast(p.questions, b.state == PROBE_1)
    && var start := log[|log| - (b.state - PROBE_1) - 1];
       && start.Started? && IsProbe(start.packet, start.names, ClaimedServices(start.packet.servers), true, start.ip)
       && AsksAndClaims(types, start.packet, p)
  }

  predicate InProbeLog(log: seq<Event>, n: int) {
    0 <= n < |log| && (log[|log| - 1].Started? || log[|log| - 1].Sent?)
  }

  /** Nothing waits for a pair that is off; while a pair probes, exactly one packet waits for it:
      the probe it started with, which claims every service of the block and asks about each. */
  lemma OnlyTheProbeWaits(s: Sys, ops: seq<Op>, t: Sys, k: Pair) returns (p: Option<TxPacket>)
    requires Initial(s) && Reaches(s, ops, t) && k in t.pcbs
    ensures forall o :: o in t.queue && o.pair == k ==> k in t.ready
    ensures t.pcbs[k].InProbe() ==> p.Some? && forall o :: o in t.queue && o.pair == k <==> o == p.value
    ensures k in t.log && (t.pcbs[k].InProbe() ==> ProbeOfBlock(t.types, t.log[k], t.pcbs[k], p.value))
  {
    InitialOk(s);
    EveryStateOk(s, ops, t);
    p := PairWaits(t, k);
  }

  lemma PairWaits(t: Sys, k: Pair) returns (p: Option<TxPacket>)
    requires k in t.pcbs && k in t.log && PairOk(t, k)
    ensures forall o :: o in t.queue && o.pair == k ==> k in t.ready
    ensures t.pcbs[k].InProbe() ==> p.Some? && Of(t.queue, k) == [p.value] && forall o :: o in t.queue && o.pair == k <==> o == p.value
    ensures t.pcbs[k].InProbe() ==> ProbeOfBlock(t.types, t.log[k], t.pcbs[k], p.value)
  {
    hide ProbeOfBlock, Phase;
    var list := Of(t.queue, k);
    ListOf(t.queue, k);
    p := None;
    if t.pcbs[k].InProbe() {
      PhaseWaits(t.types, t.log[k], t.pcbs[k], list);
      p := Some(list[0]);
    }
  }

  lemma PhaseWaits(types: Types, log: seq<Event>, b: Block, list: seq<TxPacket>)
    requires Phase(types, log, b, list) && b.InProbe()
    ensures |list| == 1 && ProbeOfBlock(types, log, b, list[0])
  {
    hide AsksAndClaims, LeftOf, IsProbe;
    var start := log[|log| - (b.state - PROBE_1) - 1];
    LeftAsksAndClaims(types, start.packet, list[0]);
  }

  lemma ListOf(q: seq<TxPacket>, k: Pair)
    ensures forall p :: p in q && p.pair == k <==> p in Of(q, k)
  {
    forall p
      ensures p in q && p.pair == k <==> p in Of(q, k)
    {
      OfMembers(q, k, p);
    }
  }

  /** The queue in every state that can be reached, and what the next step sends: a packet that
      is due, and that no waiting packet precedes in time. */
  lemma QueueInEveryState(s: Sys, ops: seq<Op>, t: Sys, id: nat)
    requires Initial(s) && Reaches(s, ops, t)
    ensures QueueOk(t.queue, t.now)
    ensures Sendable(t.queue, id) ==> t.queue[0].sendAt < t.now && forall p :: p in t.queue ==> t.queue[0].sendAt <= p.sendAt
  {
    InitialOk(s);
    EveryStateOk(s, ops, t);
    if Sendable(t.queue, id) {
      SentIsDueAndFirst(t.queue, t.now, id);
    }
  }

  /** Of two interfaces on one network at most one is silent for the other's sake, and the other
      does speak. */
  lemma DuplicateIsCovered(s: Sys, ops: seq<Op>, t: Sys, k: Pair)
    requires Initial(s) && Reaches(s, ops, t) && k in t.pcbs && t.pcbs[k].state == DUP
    ensures k !in t.ready && k.netif in t.partner
    ensures var o := Pair(t.partner[k.netif], k.v6); o in t.ready && o in t.pcbs && t.pcbs[o].state > DUP
  {
    InitialOk(s);
    EveryStateOk(s, ops, t);
    assert DuplicateOk(t, k) && PairOk(t, Other(t, k).value);
  }

  /** When the other interface goes away, the duplicate is always released, and if its socket can
      be set up it probes for all services. */
  lemma DisablingReleasesDuplicate(s: Sys, k: Pair, o: Pair, up: bool, d: Draw)
    requires Inv(s) && k in s.ready && Fresh(s, d) && Other(s, k) == Some(o) && s.pcbs[o].state == DUP
    ensures var t := Disable(s, k, up, d);
            && o in t.pcbs && t.pcbs[o].state == (if up then PROBE_1 else OFF)
            && (o in t.ready <==> up) && k !in t.ready
            && (up ==> forall x :: x in t.pcbs[o].services <==> x in s.services)
  {
    DeinitOk(s, k);
    var off := Silence(s, k);
    DuplicateEnabled(s, off, k, o, up, d);
    DuplicateProbesAll(s, off, k, o, up, d);
    var t := Relieve(off, o, up, d);
    assert PairOk(t, o) && PairOk(t, k) && t.pcbs[k].state == OFF;
    DisableIs(s, k, o, up, d);
  }

  lemma DisableIs(s: Sys, k: Pair, o: Pair, up: bool, d: Draw)
    requires s.Valid() && k in s.ready && Other(s, k) == Some(o) && s.pcbs[o].state == DUP
    ensures var t := Relieve(Silence(s, k), o, up, d);
            Set(t, k, t.pcbs[k].(state := OFF)) == t ==> Disable(s, k, up, d) == t
  {
    hide Relieve;
  }

  lemma DuplicateProbesAll(s: Sys, off: Sys, k: Pair, o: Pair, up: bool, d: Draw)
    requires Inv(s) && k in s.pcbs && Other(s, k) == Some(o) && s.pcbs[o].state == DUP && SameWorld(s, off)
    requires off.pcbs == s.pcbs[k := IDLE] && Elsewhere(s, off, k) && QueueOk(off.queue, off.now) && Fresh(off, d)
    ensures up ==> forall x :: x in Relieve(off, o, up, d).pcbs[o].services <==> x in s.services
  {
    hide Inv, PairOk, QueueOk, Elsewhere, InitProbe, Of, IdUnused;
    DuplicateAsBefore(s, off, k, o);
    var on := Set(off, o, off.pcbs[o].(state := OFF));
    if up {
      ReadyAt(on, o);
      InitProbeOk(on.(ready := on.ready + {o}), o, s.services, true, d);
    }
  }
}
