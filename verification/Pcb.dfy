/** The probe/announce protocol of mdns_pcb.c (sections 8.1 to 8.3 of RFC 6762), one state
    machine per (interface, protocol) pair, on top of the transmit queue. */
module Pcb {
  import opened Bytes
  import opened RecordWriter
  import opened Packets
  import opened TxQueue

  const OFF := 0
  const DUP := 1
  const INIT := 2
  const PROBE_1 := 3
  const PROBE_2 := 4
  const PROBE_3 := 5
  const ANNOUNCE_1 := 6
  const ANNOUNCE_2 := 7
  const ANNOUNCE_3 := 8
  const RUNNING := 9

  /** mdns_pcb_t; an empty list of services is the null pointer. */
  datatype Block = Block(state: nat, services: seq<nat>, probeIp: bool, running: bool, failed: nat) {
    /** PCB_STATE_IS_PROBING: a duplicate counts, too. */
    predicate Probing() { OFF < state < ANNOUNCE_1 }

    predicate Announcing() { PROBE_3 < state < RUNNING }

    /** One of the three probing states. */
    predicate InProbe() { PROBE_1 <= state <= PROBE_3 }
  }

  const IDLE := Block(OFF, [], false, false, 0)

  /** What an observer records about one pair: the probe it started with, the probe as it was sent,
      and the announcement that followed; and the names at that time. */
  datatype Event =
    | Started(at: nat, packet: TxPacket, names: Names, ip: bool)
    | Sent(at: nat, packet: TxPacket)
    | Claimed(announcement: TxPacket, names: Names)
    | Cancelled
    | Stopped

  /** The responder: clock, names, types and services, the control blocks, which pairs have a working
      socket, which interface is the possible duplicate of which, the transmit queue and the
      actions waiting for the service task.  log is the observer's. */
  datatype Sys = Sys(now: nat, names: Names, types: nat -> ServiceType, services: seq<nat>, pcbs: map<Pair, Block>, ready: set<Pair>,
                     partner: map<nat, nat>, queue: seq<TxPacket>, actions: seq<nat>, log: map<Pair, seq<Event>>) {
    ghost predicate Valid() {
      && log.Keys == pcbs.Keys && ready <= pcbs.Keys
      && (forall n :: n in partner ==> partner[n] in partner && partner[partner[n]] == n && partner[n] != n)
      && (forall k :: k in pcbs && k.netif in partner ==> Pair(partner[k.netif], k.v6) in pcbs)
      && (forall p :: p in queue ==> p.pair in pcbs)
    }
  }

  // ---------------------------------------------------------------- small steps

  function Set(s: Sys, k: Pair, b: Block): Sys {
    s.(pcbs := s.pcbs[k := b])
  }

  function Note(s: Sys, k: Pair, e: Event): Sys
    requires k in s.log
  {
    s.(log := s.log[k := s.log[k] + [e]])
  }

  function SendAfter(s: Sys, p: TxPacket, ms: nat): Sys {
    s.(queue := Insert(s.queue, p.(sendAt := s.now + ms)))
  }

  function Clear(s: Sys, k: Pair): Sys {
    s.(queue := ClearPair(s.queue, k))
  }

  function Other(s: Sys, k: Pair): (r: Option<Pair>) {
    if k.netif in s.partner then Some(Pair(s.partner[k.netif], k.v6)) else None
  }

  /** Resources a step takes from outside: the address malloc returns and the random delay. */
  datatype Draw = Draw(id: nat, delay: nat)

  // ---------------------------------------------------------------- probing

  function Missing(services: seq<nat>, known: seq<nat>): seq<nat> {
    if services == [] then []
    else if services[0] in known then Missing(services[1..], known)
    else [services[0]] + Missing(services[1..], known)
  }

  /** init_probe_new_service: what is being probed already is probed again with the new. */
  function StartProbe(s: Sys, k: Pair, services: seq<nat>, ip: bool, d: Draw): (t: Sys)
    requires k in s.pcbs && k in s.log
    ensures t.pcbs.Keys == s.pcbs.Keys && t.log.Keys == s.log.Keys
  {
    var b := s.pcbs[k];
    var all := services + b.services;
    var probeIp := b.probeIp || ip;
    var ms := (if b.failed > 5 then 1000 else 120) + d.delay;
    var packet := ProbePacket(d.id, k, s.names, all, true, probeIp).(sendAt := s.now + ms);
    var started := Set(s, k, b.(services := all, probeIp := probeIp, running := true, state := PROBE_1));
    Note(SendAfter(started, packet, ms), k, Started(s.now, packet, s.names, probeIp))
  }

  /** mdns_priv_init_pcb_probe with a host name set. */
  function InitProbe(s: Sys, k: Pair, services: seq<nat>, ip: bool, d: Draw): (t: Sys)
    requires k in s.pcbs && k in s.log
    ensures t.pcbs.Keys == s.pcbs.Keys && t.log.Keys == s.log.Keys
  {
    var c := Clear(s, k);
    if c.pcbs[k].Probing() then StartProbe(c, k, Missing(services, c.pcbs[k].services), ip, d)
    else StartProbe(c, k, services, ip, d)
  }

  /** One pair of mdns_priv_probe_all_pcbs. */
  function Reprobe(s: Sys, k: Pair, services: seq<nat>, ip: bool, clearOld: bool, d: Draw): (t: Sys)
    requires k in s.pcbs && k in s.log
    ensures t.pcbs.Keys == s.pcbs.Keys && t.log.Keys == s.log.Keys
  {
    if k !in s.ready then s
    else
      var c := if clearOld then Set(s, k, s.pcbs[k].(services := [], running := false)) else s;
      InitProbe(c, k, services, ip, d)
  }

  /** mdns_priv_probe_all_pcbs for all services, one pair after the other. */
  function ReprobeAll(s: Sys, ks: seq<Pair>, ds: seq<Draw>): Sys
    requires |ks| == |ds| && forall k :: k in ks ==> k in s.pcbs && k in s.log
    decreases |ks|
  {
    if ks == [] then s else ReprobeAll(Reprobe(s, ks[0], s.services, true, true, ds[0]), ks[1..], ds[1..])
  }

  /** mdns_priv_restart_all_pcbs: the queue is emptied, and then all pairs probe anew. */
  function Restart(s: Sys, ks: seq<Pair>, ds: seq<Draw>): Sys
    requires |ks| == |ds| && forall k :: k in ks ==> k in s.pcbs && k in s.log
  {
    ReprobeAll(s.(queue := []), ks, ds)
  }

  // ---------------------------------------------------------------- announcing

  /** mdns_priv_pcb_announce with a host name set. */
  function Announce(s: Sys, k: Pair, services: seq<nat>, ip: bool, d: Draw): Sys
    requires k in s.pcbs && k in s.log
  {
    var b := s.pcbs[k];
    if k !in s.ready then s
    else if b.Probing() then InitProbe(s, k, services, ip, d)
    else if b.Announcing() then
      var at := NextOf(s.queue, k);
      if at == None then s
      else Set(s.(queue := s.queue[at.value := Extended(s.queue[at.value], s.names, services, ip)]), k, b.(state := ANNOUNCE_1))
    else if b.state == RUNNING then
      SendAfter(Set(s, k, b.(state := ANNOUNCE_1)), AnnouncePacket(d.id, k, s.names, services, ip), 0)
    else s
  }

  // ---------------------------------------------------------------- interfaces

  /** deinit_pcb. */
  function Deinit(s: Sys, k: Pair): Sys
    requires k in s.log
  {
    Note(Set(s.(ready := s.ready - {k}), k, IDLE), k, Stopped)
  }

  /** Both steps that stop a working pair. */
  function Silence(s: Sys, k: Pair): (t: Sys)
    requires k in s.pcbs && s.Valid()
    ensures t.pcbs == s.pcbs[k := IDLE] && t.log.Keys == s.log.Keys && t.Valid()
  {
    ClearIsSublist(s.queue, k);
    Deinit(Clear(s, k), k)
  }

  /** mdns_priv_pcb_enable; up says whether the socket could be set up. */
  function Enable(s: Sys, k: Pair, up: bool, d: Draw): Sys
    requires k in s.pcbs && k in s.log
  {
    if k !in s.ready && !up then Set(s, k, s.pcbs[k].(failed := 0))
    else InitProbe(s.(ready := s.ready + {k}), k, s.services, true, d)
  }

  /** A duplicate stops being one. */
  function Relieve(s: Sys, k: Pair, up: bool, d: Draw): Sys
    requires k in s.pcbs && k in s.log
  {
    Enable(Set(s, k, s.pcbs[k].(state := OFF)), k, up, d)
  }

  /** A duplicate that waited for pair k, which has just been silenced, takes over. */
  function HandOver(s: Sys, k: Pair, up: bool, d: Draw): Sys
    requires k in s.pcbs && s.Valid()
  {
    var o := Other(s, k);
    if o.Some? && s.pcbs[o.value].state == DUP then Relieve(s, o.value, up, d) else s
  }

  /** mdns_priv_pcb_disable. */
  function Disable(s: Sys, k: Pair, up: bool, d: Draw): Sys
    requires k in s.pcbs && s.Valid()
  {
    var done := if k in s.ready then HandOver(Silence(s, k), k, up, d) else s;
    Set(done, k, done.pcbs[k].(state := OFF))
  }

  /** The pair gives way to the other interface. */
  function GiveWay(s: Sys, k: Pair): Sys
    requires k in s.pcbs && s.Valid()
  {
    var off := if k in s.ready then Silence(s, k) else s;
    Set(off, k, off.pcbs[k].(state := DUP))
  }

  /** One protocol of mdns_priv_pcb_set_duplicate. */
  function SetDuplicate(s: Sys, k: Pair, d: Draw): Sys
    requires k in s.pcbs && s.Valid()
  {
    var o := Other(s, k);
    if o.Some? && o.value in s.ready then Announce(GiveWay(s, k), o.value, [], true, d) else s
  }

  // ---------------------------------------------------------------- sending

  /** mdns_priv_pcb_schedule_tx_packet for a packet that has just been sent. */
  function Schedule(s: Sys, p: TxPacket, d: Draw): Sys
    requires p.pair in s.pcbs && p.pair in s.log
  {
    var k := p.pair;
    var b := s.pcbs[k];
    if b.state == PROBE_1 then
      Set(SendAfter(s, p.(questions := WithoutUnicast(p.questions)), 250), k, b.(state := PROBE_2))
    else if b.state == PROBE_2 then
      Set(SendAfter(s, p, 250), k, b.(state := PROBE_3))
    else if b.state == PROBE_3 then
      var a := AnnounceFromProbe(d.id, p, s.names).(sendAt := s.now + 250);
      Note(Set(SendAfter(s, a, 250), k, Block(ANNOUNCE_1, [], false, false, 0)), k, Claimed(a, s.names))
    else if b.state == ANNOUNCE_1 || b.state == ANNOUNCE_2 then
      Set(SendAfter(s, p, 1000), k, b.(state := b.state + 1))
    else if b.state == ANNOUNCE_3 then
      Set(s, k, b.(state := RUNNING))
    else s
  }

  /** send_packet and handle_packet for the next waiting action. */
  function Execute(s: Sys, d: Draw): Sys
    requires s.Valid() && s.actions != []
  {
    var id := s.actions[0];
    var rest := s.(actions := s.actions[1..]);
    if !Sendable(s.queue, id) then rest
    else
      var p := s.queue[0].(queued := false);
      assert s.queue[0] in s.queue;
      var taken := rest.(queue := s.queue[1..]);
      var b := s.pcbs[p.pair];
      if b.state == OFF then taken
      else
        var sent := if b.InProbe() then Note(taken, p.pair, Sent(s.now, p)) else taken;
        Schedule(sent, p, d)
  }

  /** The timer: mdns_priv_send_packets. */
  function Timer(s: Sys, oks: seq<bool>): Sys {
    var r := Mark(s.queue, s.now, oks);
    s.(queue := r.0, actions := s.actions + r.1)
  }

  /** mdns_priv_pcb_set_probe_failed: a 16-bit counter. */
  function ProbeFailed(s: Sys, k: Pair): Sys
    requires k in s.pcbs
  {
    var b := s.pcbs[k];
    Set(s, k, b.(failed := if b.failed >= 0xFFFF then 0 else b.failed + 1))
  }

  /** A scheduled reply (mdns_priv_create_answer_from_parsed_packet). */
  function Reply(s: Sys, p: TxPacket, ms: nat): Sys {
    SendAfter(s, p, ms)
  }

  /** mdns_priv_remove_scheduled_answer, or any other change of what a waiting packet says that
      leaves its questions alone. */
  function Amend(s: Sys, i: nat, answers: seq<Answer>): Sys
    requires i < |s.queue|
  {
    s.(queue := s.queue[i := s.queue[i].(answers := answers)])
  }

  // ---------------------------------------------------------------- removing a service

  function Without(list: seq<Answer>, svc: nat): seq<Answer> {
    if list == [] then []
    else if list[0].service == Some(svc) then Without(list[1..], svc)
    else [list[0]] + Without(list[1..], svc)
  }

  /** The index of svc among the services being probed. */
  function Position(list: seq<nat>, svc: nat): (i: nat)
    ensures i <= |list| && (i < |list| ==> list[i] == svc)
    ensures i == |list| <==> svc !in list
  {
    if list == [] || list[0] == svc then 0 else 1 + Position(list[1..], svc)
  }

  /** mdns_priv_pcb_check_probing_services: the block afterwards, and whether a question of the
      service has to go from the packet. */
  function CheckProbing(b: Block, svc: nat, removedAnswers: bool): (Block, bool) {
    if b.Probing() && svc in b.services then
      var i := Position(b.services, svc);
      if |b.services| > 1 then (b.(services := b.services[..i] + b.services[i + 1..]), true)
      else if !b.probeIp then (b.(services := [], running := false, state := RUNNING), true)
      else (b.(services := []), true)
    else if b.Announcing() && removedAnswers then (b.(state := RUNNING), false)
    else (b, false)
  }

  /** The first question with the type and protocol of the service goes. */
  function DropQuestion(qs: seq<OutQuestion>, types: nat -> ServiceType, svc: nat): seq<OutQuestion> {
    if qs == [] then []
    else if qs[0].kind == TYPE_ANY && qs[0].owner.Some?
            && types(qs[0].owner.value).kind == types(svc).kind && types(qs[0].owner.value).proto == types(svc).proto then qs[1..]
    else [qs[0]] + DropQuestion(qs[1..], types, svc)
  }

  function Stripped(p: TxPacket, svc: nat): TxPacket {
    p.(answers := Without(p.answers, svc), additional := Without(p.additional, svc), servers := Without(p.servers, svc))
  }

  predicate Empty(p: TxPacket) {
    p.questions == [] && p.answers == [] && p.additional == [] && p.servers == []
  }

  /** mdns_priv_remove_scheduled_service_packets from packet i of the queue on. */
  function RemoveFrom(s: Sys, svc: nat, i: nat): Sys
    requires s.Valid() && i <= |s.queue|
    decreases |s.queue| - i
  {
    if i == |s.queue| then s
    else
      assert s.queue[i] in s.queue;
      var one := RemoveAt(s, svc, i);
      RemoveValid(s, svc, i);
      if Empty(one.queue[i]) then
        RemoveFrom(one.(queue := one.queue[..i] + one.queue[i + 1..]), svc, i)
      else
        RemoveFrom(one, svc, i + 1)
  }

  /** What happens to one packet and the block it belongs to. */
  function RemoveAt(s: Sys, svc: nat, i: nat): (r: Sys)
    requires i < |s.queue| && s.queue[i].pair in s.pcbs && s.queue[i].pair in s.log
    ensures |r.queue| == |s.queue|
  {
    var p := s.queue[i];
    var q := Stripped(p, svc);
    var k := p.pair;
    if k !in s.ready then s.(queue := s.queue[i := q])
    else
      var b := s.pcbs[k];
      var c := CheckProbing(b, svc, p.answers != [] && q.answers == []);
      var r := if c.1 then q.(questions := DropQuestion(q.questions, s.types, svc)) else q;
      var t := Set(s.(queue := s.queue[i := r]), k, c.0);
      if b.InProbe() && !c.0.InProbe() then Note(t, k, Cancelled) else t
  }

  lemma RemoveValid(s: Sys, svc: nat, i: nat)
    requires s.Valid() && i < |s.queue| && s.queue[i].pair in s.pcbs
    ensures var one := RemoveAt(s, svc, i);
            one.Valid() && one.(queue := one.queue[..i] + one.queue[i + 1..]).Valid()
  {
    var one := RemoveAt(s, svc, i);
    forall p | p in one.queue
      ensures p.pair in one.pcbs
    {
      var j :| 0 <= j < |one.queue| && one.queue[j] == p;
      assert s.queue[j] in s.queue;
    }
  }

  function RemoveService(s: Sys, svc: nat): Sys
    requires s.Valid()
  {
    RemoveFrom(s, svc, 0)
  }
}
