/** What holds in every run of the probe/announce protocol. */
module ProbeDiscipline {
  import opened Bytes
  import opened Packets
  import opened TxQueue
  import opened QueueByPair
  import opened Pcb
  import opened ProbePackets

  // ---------------------------------------------------------------- steps and runs

  /** Everything that can happen to the responder.  The steps of loops over all pairs
      (mdns_priv_probe_all_pcbs, mdns_priv_pcb_set_duplicate and so on) count one by one. */
  datatype Op =
    | Tick(ms: nat)
    | RunTimer(oks: seq<bool>)
    | RunAction(d: Draw)
    | DoEnable(k: Pair, up: bool, d: Draw)
    | DoDisable(k: Pair, up: bool, d: Draw)
    | DoAnnounce(k: Pair, services: seq<nat>, ip: bool, d: Draw)
    | DoDuplicate(k: Pair, d: Draw)
    | DoProbe(k: Pair, services: seq<nat>, ip: bool, d: Draw)
    | DoReprobe(k: Pair, services: seq<nat>, ip: bool, clearOld: bool, d: Draw)
    | DoRestart(ks: seq<Pair>, ds: seq<Draw>)
    | DoReply(p: TxPacket, ms: nat)
    | DoAmend(i: nat, answers: seq<Answer>)
    | DoRemove(svc: nat)
    | DoFail(k: Pair)
    | DoServices(services: seq<nat>)
    | DoNames(names: Names)

  predicate Fresh(s: Sys, d: Draw) {
    IdUnused(s.queue, d.id)
  }

  /** The ready pairs, each once, and a packet address for each. */
  predicate Turns(s: Sys, ks: seq<Pair>, ds: seq<Draw>) {
    && |ks| == |ds| && (forall k :: k in ks ==> k in s.ready) && (forall k :: k in s.ready ==> k in ks)
    && (forall i, j :: 0 <= i < j < |ks| ==> ks[i] != ks[j])
    && (forall i, j :: 0 <= i < j < |ds| ==> ds[i].id != ds[j].id)
  }

  /** When a step can happen.  Packets are received, and replies made, on ready pairs only; a
      reply is made only after probing (mdns_priv_pcb_is_after_probing).  Whoever asks for a
      probe or an announcement asks for services or for the host. */
  ghost predicate Enabled(s: Sys, op: Op) {
    match op
    case Tick(_) => true
    case RunTimer(_) => true
    case RunAction(d) => s.actions != [] && Fresh(s, d)
    case DoEnable(k, _, d) => k in s.pcbs && Fresh(s, d)
    case DoDisable(k, _, d) => k in s.pcbs && Fresh(s, d)
    case DoAnnounce(k, services, ip, d) => k in s.pcbs && Fresh(s, d) && Distinct(services) && (services != [] || ip)
    case DoDuplicate(k, d) => k in s.pcbs && Fresh(s, d)
    case DoProbe(k, services, ip, d) => k in s.ready && Fresh(s, d) && Distinct(services) && (services != [] || ip)
    case DoReprobe(k, services, ip, _, d) => k in s.pcbs && Fresh(s, d) && Distinct(services) && (services != [] || ip)
    case DoRestart(ks, ds) => Turns(s, ks, ds)
    case DoReply(p, _) =>
      && p.pair in s.pcbs && p.pair in s.ready && s.pcbs[p.pair].state > PROBE_3
      && IdUnused(s.queue, p.id) && !p.queued
    case DoAmend(i, _) => i < |s.queue|
    case DoRemove(_) => true
    case DoFail(k) => k in s.pcbs
    case DoServices(services) => Distinct(services)
    case DoNames(_) => true
  }

  function Apply(s: Sys, op: Op): Sys
    requires s.Valid() && Enabled(s, op)
  {
    match op
    case Tick(ms) => s.(now := s.now + ms)
    case RunTimer(oks) => Timer(s, oks)
    case RunAction(d) => Execute(s, d)
    case DoEnable(k, up, d) => Enable(s, k, up, d)
    case DoDisable(k, up, d) => Disable(s, k, up, d)
    case DoAnnounce(k, services, ip, d) => Announce(s, k, services, ip, d)
    case DoDuplicate(k, d) => SetDuplicate(s, k, d)
    case DoProbe(k, services, ip, d) => InitProbe(s, k, services, ip, d)
    case DoReprobe(k, services, ip, clearOld, d) => Reprobe(s, k, services, ip, clearOld, d)
    case DoRestart(ks, ds) => Restart(s, ks, ds)
    case DoReply(p, ms) => Reply(s, p, ms)
    case DoAmend(i, answers) => Amend(s, i, answers)
    case DoRemove(svc) => RemoveService(s, svc)
    case DoFail(k) => ProbeFailed(s, k)
    case DoServices(services) => s.(services := services)
    case DoNames(names) => s.(names := names)
  }

  // ---------------------------------------------------------------- what the log must look like

  /** A pair starts to probe: for exactly the services its packet claims. */
  ghost predicate Begun(e: Event) {
    && e.Started?
    && var services := ClaimedServices(e.packet.servers);
       Distinct(services) && IsProbe(e.packet, e.names, services, true, e.ip)
  }

  function Gap(n: nat): nat {
    if n == 0 then 120 else 250
  }

  /** e is transmission n of the probe that begun with start: the same packet but for services
      that have been removed, and asking for unicast replies the first time only. */
  ghost predicate Transmits(types: Types, start: Event, before: Event, e: Event, n: nat) {
    && start.Started? && (before.Started? || before.Sent?) && e.Sent?
    && e.packet.id == before.packet.id && e.at > before.at + Gap(n)
    && AllUnicast(e.packet.questions, n == 0) && LeftOf(types, start.packet, e.packet)
  }

  /** The log ends with a start and the first n transmissions of its probe, at the distances
      section 8.1 of RFC 6762 asks for. */
  ghost predicate EndsInProbes(types: Types, log: seq<Event>, n: nat) {
    && |log| > n && Begun(log[|log| - n - 1])
    && var start := log[|log| - n - 1];
       && (n >= 1 ==> Transmits(types, start, start, log[|log| - n], 0))
       && (n >= 2 ==> Transmits(types, start, log[|log| - n], log[|log| - n + 1], 1))
       && (n >= 3 ==> Transmits(types, start, log[|log| - n + 1], log[|log| - n + 2], 2))
  }

  /** The announcement that follows a transmission: for 250 ms later, and of exactly what the
      transmission claims. */
  ghost predicate FollowsUp(third: Event, a: TxPacket, names: Names) {
    && third.Sent? && a.sendAt == third.at + 250 && a.pair == third.packet.pair
    && a.questions == [] && a.servers == [] && a.additional == [] && !a.queued
    && Announces(a.answers, third.packet.servers, names)
  }

  /** Whenever a pair claimed its names, it had sent its probe exactly three times since it
      (re)started, nothing had come in between, and an announcement of the claims followed. */
  ghost predicate Disciplined(types: Types, log: seq<Event>) {
    forall i :: 0 <= i < |log| && log[i].Claimed? ==> ClaimedWell(types, log, i)
  }

  ghost predicate ClaimedWell(types: Types, log: seq<Event>, i: nat)
    requires i < |log| && log[i].Claimed?
  {
    i > 3 && EndsInProbes(types, log[..i], 3) && FollowsUp(log[i - 1], log[i].announcement, log[i].names)
  }

  // ---------------------------------------------------------------- the invariant

  /** p is what is left of the probe that the pair began with n transmissions ago. */
  ghost predicate FromStart(types: Types, log: seq<Event>, p: TxPacket, n: nat) {
    |log| > n && log[|log| - n - 1].Started? && LeftOf(types, log[|log| - n - 1].packet, p)
  }

  /** Exactly one packet waits: the probe that was last started or sent, for long enough, and
      asking as it should. */
  ghost predicate Waiting(types: Types, log: seq<Event>, list: seq<TxPacket>, n: nat) {
    && |log| > n && |list| == 1 && FromStart(types, log, list[0], n) && AllUnicast(list[0].questions, n == 0)
    && var last := log[|log| - 1];
       (last.Started? || last.Sent?) && list[0].id == last.packet.id && list[0].sendAt >= last.at + Gap(n)
  }

  /** The packet claims exactly the services of the block, and asks for host names and claims
      addresses just if the host is claimed. */
  ghost predicate Claims(p: TxPacket, b: Block) {
    && (b.services != [] || b.probeIp)
    && ClaimedServices(p.servers) == b.services
    && (b.probeIp <==> ClaimedAddresses(p.servers) != []) && (b.probeIp <==> AskedHosts(p.questions) != [])
  }

  ghost predicate Phase(types: Types, log: seq<Event>, b: Block, list: seq<TxPacket>) {
    && (b.InProbe() ==>
          var n := b.state - PROBE_1;
          EndsInProbes(types, log, n) && Waiting(types, log, list, n) && Claims(list[0], b))
    && (b.state > PROBE_3 ==> log != [] && (log[|log| - 1].Claimed? || log[|log| - 1].Cancelled?))
  }

  /** One control block. */
  ghost predicate BlockOk(b: Block) {
    && b.state <= RUNNING && b.state != INIT
    && (b.running <==> b.InProbe())
    && (b.services != [] ==> b.InProbe())
    && Distinct(b.services)
  }

  /** One pair, apart from its partner. */
  ghost predicate PairOk(s: Sys, k: Pair)
    requires k in s.pcbs && k in s.log
  {
    var b := s.pcbs[k];
    && BlockOk(b)
    && (k in s.ready <==> b.state > DUP)
    && (k !in s.ready ==> Of(s.queue, k) == [])
    && Phase(s.types, s.log[k], b, Of(s.queue, k))
    && Disciplined(s.types, s.log[k])
  }

  /** A duplicate is silent while the other interface speaks. */
  ghost predicate DuplicateOk(s: Sys, k: Pair)
    requires k in s.pcbs
  {
    s.pcbs[k].state == DUP ==> k !in s.ready && Other(s, k).Some? && Other(s, k).value in s.ready
  }

  ghost predicate Inv(s: Sys) {
    && s.Valid() && QueueOk(s.queue, s.now) && Distinct(s.services)
    && (forall k :: k in s.pcbs ==> PairOk(s, k))
    && (forall k :: k in s.pcbs ==> DuplicateOk(s, k))
  }

  // ---------------------------------------------------------------- what a step leaves alone

  /** The step does not concern pair j. */
  ghost predicate Untouched(s: Sys, t: Sys, j: Pair) {
    && t.types == s.types && j in s.pcbs && j in t.pcbs && t.pcbs[j] == s.pcbs[j]
    && j in s.log && j in t.log && t.log[j] == s.log[j]
    && (j in t.ready <==> j in s.ready)
    && Similar(Of(t.queue, j), Of(s.queue, j))
  }

  lemma UntouchedOk(s: Sys, t: Sys, j: Pair)
    requires Untouched(s, t, j) && PairOk(s, j)
    ensures PairOk(t, j)
  {
    PhaseSimilar(s.types, s.log[j], s.pcbs[j], Of(s.queue, j), Of(t.queue, j));
  }

  lemma PhaseSimilar(types: Types, log: seq<Event>, b: Block, list: seq<TxPacket>, more: seq<TxPacket>)
    requires Phase(types, log, b, list) && Similar(more, list)
    ensures Phase(types, log, b, more)
  {
    if list != [] {
      assert Keeps(more[0], list[0]);
    }
  }

  lemma UntouchedTwice(s: Sys, t: Sys, u: Sys, j: Pair)
    requires Untouched(s, t, j) && Untouched(t, u, j)
    ensures Untouched(s, u, j)
  {
    var a, b, c := Of(u.queue, j), Of(t.queue, j), Of(s.queue, j);
    forall i | 0 <= i < |a|
      ensures Keeps(a[i], c[i])
    {
      assert Keeps(a[i], b[i]) && Keeps(b[i], c[i]);
    }
  }

  /** The step concerns at most pair k. */
  ghost predicate Elsewhere(s: Sys, t: Sys, k: Pair) {
    forall j :: j in s.pcbs && j != k ==> Untouched(s, t, j)
  }

  lemma ElsewhereTwice(s: Sys, t: Sys, u: Sys, k: Pair)
    requires Elsewhere(s, t, k) && Elsewhere(t, u, k)
    ensures Elsewhere(s, u, k)
  {
    forall j | j in s.pcbs && j != k
      ensures Untouched(s, u, j)
    {
      assert Untouched(s, t, j);
      UntouchedTwice(s, t, u, j);
    }
  }

  ghost predicate SameWorld(s: Sys, t: Sys) {
    && t.Valid() && t.pcbs.Keys == s.pcbs.Keys && t.partner == s.partner && t.types == s.types && t.now == s.now && t.services == s.services
  }

  /** A step at one pair: what has to be checked about it. */
  lemma OnePair(s: Sys, t: Sys, k: Pair)
    requires Inv(s) && SameWorld(s, t) && QueueOk(t.queue, t.now) && k in t.pcbs
    requires Elsewhere(s, t, k)
    requires PairOk(t, k) && DuplicateOk(t, k)
    requires k in t.ready || (Other(t, k).Some? ==> t.pcbs[Other(t, k).value].state != DUP)
    ensures Inv(t)
  {
    hide PairOk, DuplicateOk, Elsewhere, QueueOk;
    forall j | j in t.pcbs
      ensures PairOk(t, j) && DuplicateOk(t, j)
    {
      if j != k {
        OtherPair(s, t, k, j);
      }
    }
  }

  lemma OtherPair(s: Sys, t: Sys, k: Pair, j: Pair)
    requires s.Valid() && SameWorld(s, t) && Elsewhere(s, t, k) && j in s.pcbs && k in s.pcbs && j != k
    requires PairOk(s, j) && DuplicateOk(s, j)
    requires k in t.ready || (Other(t, k).Some? ==> t.pcbs[Other(t, k).value].state != DUP)
    ensures PairOk(t, j) && DuplicateOk(t, j)
  {
    assert Untouched(s, t, j);
    UntouchedOk(s, t, j);
  }

  /** The parts of the invariant that concern no single pair. */
  lemma InvGives(s: Sys)
    requires Inv(s)
    ensures s.Valid() && QueueOk(s.queue, s.now) && Distinct(s.services)
  {}
}
