/** The responder's state in place: mdns_pcb.c and the parts of mdns_send.c that change control
    blocks.  Every method is tied to the step of module Pcb it carries out. */
module Responder {
  import opened Bytes
  import opened RecordWriter
  import opened Packets
  import opened PacketBuilder
  import opened TxQueue
  import opened Pcb

  // ---------------------------------------------------------------- loops over lists

  lemma {:induction false} MissingStep(services: seq<nat>, j: nat, known: seq<nat>)
    requires j < |services|
    ensures Missing(services[..j + 1], known)
            == Missing(services[..j], known) + if services[j] in known then [] else [services[j]]
    decreases j
  {
    if j > 0 {
      MissingStep(services[1..], j - 1, known);
      assert services[..j + 1][1..] == services[1..][..j] && services[..j][1..] == services[1..][..j - 1];
    } else {
      assert services[..1][1..] == [] && services[..0] == [];
    }
  }

  /** The nested loops of mdns_priv_init_pcb_probe. */
  method Deduplicate(services: seq<nat>, known: seq<nat>) returns (added: seq<nat>)
    ensures added == Missing(services, known)
  {
    added := [];
    for j := 0 to |services|
      invariant added == Missing(services[..j], known)
    {
      var found := false;
      var i := 0;
      while i < |known|
        invariant 0 <= i <= |known| && !found && services[j] !in known[..i]
      {
        if known[i] == services[j] {
          found := true;
          break;
        }
        i := i + 1;
      }
      MissingStep(services, j, known);
      if !found {
        added := added + [services[j]];
      }
    }
    assert services[..|services|] == services;
  }

  /** The new array of init_probe_new_service. */
  method Merge(services: seq<nat>, known: seq<nat>) returns (all: array<nat>)
    ensures all[..] == services + known && fresh(all)
  {
    all := new nat[|services| + |known|];
    for i := 0 to |services|
      invariant all[..i] == services[..i]
    {
      all[i] := services[i];
    }
    for i := 0 to |known|
      invariant all[..|services| + i] == services + known[..i]
    {
      all[|services| + i] := known[i];
    }
  }

  /** dealloc_scheduled_service_answers. */
  method DropAnswers(list: seq<Answer>, svc: nat) returns (r: seq<Answer>)
    ensures r == Without(list, svc)
  {
    r := list;
    while r != [] && r[0].service == Some(svc)
      invariant Without(r, svc) == Without(list, svc)
    {
      r := r[1..];
    }
    if r != [] {
      var at := 0;
      while at + 1 < |r|
        invariant 0 <= at < |r| && r[..at + 1] + Without(r[at + 1..], svc) == Without(list, svc)
        decreases |r| - at
      {
        assert r[at + 1..][1..] == r[at + 2..];
        if r[at + 1].service == Some(svc) {
          ghost var before := r;
          r := r[..at + 1] + r[at + 2..];
          assert r[..at + 1] == before[..at + 1] && r[at + 1..] == before[at + 2..];
        } else {
          assert r[..at + 2] == r[..at + 1] + [r[at + 1]];
          at := at + 1;
        }
      }
      assert r[..at + 1] == r;
    }
  }

  predicate AsksFor(q: OutQuestion, types: nat -> ServiceType, svc: nat) {
    && q.kind == TYPE_ANY && q.owner.Some?
    && types(q.owner.value).kind == types(svc).kind && types(q.owner.value).proto == types(svc).proto
  }

  lemma {:induction false} DropQuestionAt(qs: seq<OutQuestion>, types: nat -> ServiceType, svc: nat, i: nat)
    requires i <= |qs| && forall j :: 0 <= j < i ==> !AsksFor(qs[j], types, svc)
    requires i < |qs| ==> AsksFor(qs[i], types, svc)
    ensures DropQuestion(qs, types, svc) == if i < |qs| then qs[..i] + qs[i + 1..] else qs
    decreases i
  {
    if i == 0 {
      assert qs[..0] == [] && [] + qs[i..] == qs[i..];
    } else {
      assert !AsksFor(qs[0], types, svc);
      assert forall j :: 0 <= j < |qs| - 1 ==> qs[1..][j] == qs[j + 1];
      DropQuestionAt(qs[1..], types, svc, i - 1);
      hide AsksFor;
      CutBehindFirst(qs, i);
    }
  }

  lemma CutBehindFirst(qs: seq<OutQuestion>, i: nat)
    requires 0 < i <= |qs|
    ensures [qs[0]] + qs[1..] == qs
    ensures i < |qs| ==> [qs[0]] + (qs[1..][..i - 1] + qs[1..][i..]) == qs[..i] + qs[i + 1..]
  {}

  /** The question of a service that is not claimed any more. */
  method DropOneQuestion(qs: seq<OutQuestion>, types: nat -> ServiceType, svc: nat) returns (r: seq<OutQuestion>)
    ensures r == DropQuestion(qs, types, svc)
  {
    var i := 0;
    while i < |qs| && !AsksFor(qs[i], types, svc)
      invariant 0 <= i <= |qs| && forall j :: 0 <= j < i ==> !AsksFor(qs[j], types, svc)
    {
      i := i + 1;
    }
    DropQuestionAt(qs, types, svc, i);
    r := if i < |qs| then qs[..i] + qs[i + 1..] else qs;
  }

  /** The loops of mdns_priv_pcb_check_probing_services: the entry is found and those behind it
      move up. */
  method CloseGap(services: seq<nat>, i: nat) returns (r: seq<nat>)
    requires i < |services|
    ensures r == services[..i] + services[i + 1..]
  {
    r := services;
    var n := i + 1;
    while n < |services|
      invariant i + 1 <= n <= |services| == |r|
      invariant forall j :: 0 <= j < i ==> r[j] == services[j]
      invariant forall j :: i <= j < n - 1 ==> r[j] == services[j + 1]
      invariant forall j :: n <= j < |r| ==> r[j] == services[j]
    {
      r := r[n - 1 := r[n]];
      n := n + 1;
    }
    r := r[..|r| - 1];
  }

  method FindService(services: seq<nat>, svc: nat) returns (i: nat)
    ensures i == Position(services, svc)
  {
    i := 0;
    while i < |services| && services[i] != svc
      invariant 0 <= i <= |services| && Position(services, svc) == i + Position(services[i..], svc)
    {
      assert services[i..][1..] == services[i + 1..];
      i := i + 1;
    }
  }

  // ---------------------------------------------------------------- the state

  /** What makes the new state the specified one. */
  lemma StartProbeIs(s: Sys, t: Sys, k: Pair, services: seq<nat>, ip: bool, d: Draw)
    requires k in s.pcbs && k in s.log
    requires var b := s.pcbs[k]; var all := services + b.services; var probeIp := b.probeIp || ip;
             var ms := (if b.failed > 5 then 1000 else 120) + d.delay;
             var p := ProbePacket(d.id, k, s.names, all, true, probeIp).(sendAt := s.now + ms);
             t == s.(pcbs := s.pcbs[k := b.(services := all, probeIp := probeIp, running := true, state := PROBE_1)],
                     queue := Insert(s.queue, p), log := s.log[k := s.log[k] + [Started(s.now, p, s.names, probeIp)]])
    ensures t == Pcb.StartProbe(s, k, services, ip, d)
  {
    hide ProbePacket, Insert;
  }

  class Responder {
    const types: nat -> ServiceType
    var now: nat
    var names: Names
    var services: seq<nat>
    var pcbs: map<Pair, Block>
    var ready: set<Pair>
    var partner: map<nat, nat>
    const tx: TransmitQueue
    ghost var log: map<Pair, seq<Event>>

    ghost function Abs(): Sys
      reads this, tx
    {
      Sys(now, names, types, services, pcbs, ready, partner, tx.packets, tx.actions, log)
    }

    constructor (now: nat, names: Names, types: nat -> ServiceType, services: seq<nat>, pairs: set<Pair>, partner: map<nat, nat>)
      ensures fresh(this) && fresh(tx)
      ensures Abs() == Sys(now, names, types, services, map k | k in pairs :: IDLE, {}, partner, [], [], map k | k in pairs :: [])
    {
      this.types := types;
      this.now, this.names, this.services, this.ready, this.partner := now, names, services, {}, partner;
      pcbs := map k | k in pairs :: IDLE;
      log := map k | k in pairs :: [];
      tx := new TransmitQueue();
    }

    // ---------------------------------------------------------------- probing

    /** init_probe_new_service. */
    method StartProbe(k: Pair, added: seq<nat>, ip: bool, d: Draw)
      requires k in pcbs && k in log
      modifies this, tx
      ensures Abs() == Pcb.StartProbe(old(Abs()), k, added, ip, d) && pcbs.Keys == old(pcbs.Keys)
    {
      hide ProbePacket, Insert, Pcb.StartProbe;
      ghost var was := Abs();
      var b := pcbs[k];
      var block := Merge(added, b.services);
      var all := block[..];
      var probeIp := b.probeIp || ip;
      pcbs := pcbs[k := b.(probeIp := false, services := [], running := false)];
      var packet := BuildProbe(d.id, k, names, all, true, probeIp);
      pcbs := pcbs[k := b.(probeIp := probeIp, services := all, running := true)];
      var ms := (if b.failed > 5 then 1000 else 120) + d.delay;
      tx.SendAfter(packet, now, ms);
      pcbs := pcbs[k := pcbs[k].(state := PROBE_1)];
      log := log[k := log[k] + [Started(now, packet.(sendAt := now + ms), names, probeIp)]];
      assert pcbs == old(pcbs)[k := b.(services := all, probeIp := probeIp, running := true, state := PROBE_1)];
      StartProbeIs(was, Abs(), k, added, ip, d);
    }

    /** mdns_priv_init_pcb_probe. */
    method InitProbe(k: Pair, wanted: seq<nat>, ip: bool, d: Draw)
      requires k in pcbs && k in log
      modifies this, tx
      ensures Abs() == Pcb.InitProbe(old(Abs()), k, wanted, ip, d) && pcbs.Keys == old(pcbs.Keys)
    {
      tx.ClearFor(k);
      if pcbs[k].Probing() {
        var added := Deduplicate(wanted, pcbs[k].services);
        StartProbe(k, added, ip, d);
      } else {
        StartProbe(k, wanted, ip, d);
      }
    }

    /** mdns_priv_probe_all_pcbs, for one pair. */
    method Reprobe(k: Pair, wanted: seq<nat>, ip: bool, clearOld: bool, d: Draw)
      requires k in pcbs && k in log
      modifies this, tx
      ensures Abs() == Pcb.Reprobe(old(Abs()), k, wanted, ip, clearOld, d)
      ensures pcbs.Keys == old(pcbs.Keys) && log.Keys == old(log.Keys)
    {
      if k in ready {
        if clearOld {
          pcbs := pcbs[k := pcbs[k].(services := [], running := false)];
        }
        InitProbe(k, wanted, ip, d);
      }
    }

    /** mdns_priv_restart_all_pcbs; ks are the ready pairs in the order of the loops. */
    method Restart(ks: seq<Pair>, ds: seq<Draw>)
      requires |ks| == |ds| && forall k :: k in ks ==> k in pcbs && k in log
      modifies this, tx
      ensures Abs() == Pcb.Restart(old(Abs()), ks, ds)
    {
      hide Pcb.Reprobe;
      tx.ClearAll();
      ghost var cleared := Abs();
      for i := 0 to |ks|
        invariant pcbs.Keys == old(pcbs.Keys) && log.Keys == old(log.Keys)
        invariant ReprobeAll(Abs(), ks[i..], ds[i..]) == ReprobeAll(cleared, ks, ds)
      {
        assert ks[i..][1..] == ks[i + 1..] && ds[i..][1..] == ds[i + 1..];
        assert ks[i] in ks;
        Reprobe(ks[i], services, true, true, ds[i]);
      }
    }

    // ---------------------------------------------------------------- announcing

    /** mdns_priv_pcb_announce. */
    method Announce(k: Pair, wanted: seq<nat>, ip: bool, d: Draw)
      requires k in pcbs && k in log
      modifies this, tx
      ensures Abs() == Pcb.Announce(old(Abs()), k, wanted, ip, d)
    {
      if k in ready {
        if pcbs[k].Probing() {
          InitProbe(k, wanted, ip, d);
        } else if pcbs[k].Announcing() {
          var at := tx.FindNext(k);
          if at.Some? {
            var packet := ExtendAnnouncement(tx.packets[at.value], names, wanted, ip);
            tx.Replace(at.value, packet);
            pcbs := pcbs[k := pcbs[k].(state := ANNOUNCE_1)];
          }
        } else if pcbs[k].state == RUNNING {
          pcbs := pcbs[k := pcbs[k].(state := ANNOUNCE_1)];
          var packet := BuildAnnouncement(d.id, k, names, wanted, ip);
          tx.SendAfter(packet, now, 0);
        }
      }
    }

    // ---------------------------------------------------------------- interfaces

    /** mdns_priv_clear_tx_queue_if and deinit_pcb. */
    method Silence(k: Pair)
      requires k in pcbs && Abs().Valid()
      modifies this, tx
      ensures Abs() == Pcb.Silence(old(Abs()), k)
    {
      tx.ClearFor(k);
      ready := ready - {k};
      pcbs := pcbs[k := IDLE];
      log := log[k := log[k] + [Stopped]];
    }

    /** mdns_priv_pcb_enable; up is what the socket layer answers. */
    method Enable(k: Pair, up: bool, d: Draw)
      requires k in pcbs && k in log
      modifies this, tx
      ensures Abs() == Pcb.Enable(old(Abs()), k, up, d) && pcbs.Keys == old(pcbs.Keys)
    {
      if k !in ready {
        if !up {
          pcbs := pcbs[k := pcbs[k].(failed := 0)];
          return;
        }
        ready := ready + {k};
      }
      assert ready == ready + {k};
      InitProbe(k, services, true, d);
    }

    /** mdns_priv_pcb_disable. */
    method Disable(k: Pair, up: bool, d: Draw)
      requires k in pcbs && Abs().Valid()
      modifies this, tx
      ensures Abs() == Pcb.Disable(old(Abs()), k, up, d)
    {
      hide Pcb.Enable, Pcb.Silence;
      if k in ready {
        Silence(k);
        if k.netif in partner {
          var other := Pair(partner[k.netif], k.v6);
          if pcbs[other].state == DUP {
            pcbs := pcbs[other := pcbs[other].(state := OFF)];
            Enable(other, up, d);
          }
        }
      }
      pcbs := pcbs[k := pcbs[k].(state := OFF)];
    }

    /** mdns_priv_pcb_set_duplicate, for one protocol. */
    method SetDuplicate(k: Pair, d: Draw)
      requires k in pcbs && Abs().Valid()
      modifies this, tx
      ensures Abs() == Pcb.SetDuplicate(old(Abs()), k, d)
    {
      if k.netif in partner {
        var other := Pair(partner[k.netif], k.v6);
        if other in ready {
          if k in ready {
            Silence(k);
          }
          pcbs := pcbs[k := pcbs[k].(state := DUP)];
          Announce(other, [], true, d);
        }
      }
    }

    // ---------------------------------------------------------------- sending

    /** mdns_priv_pcb_schedule_tx_packet. */
    method Schedule(p: TxPacket, d: Draw)
      requires p.pair in pcbs && p.pair in log
      modifies this, tx
      ensures Abs() == Pcb.Schedule(old(Abs()), p, d)
    {
      var k := p.pair;
      var b := pcbs[k];
      if b.state == PROBE_1 || b.state == PROBE_2 {
        var again := p;
        if b.state == PROBE_1 {
          var questions := ClearUnicast(p.questions);
          again := p.(questions := questions);
        }
        tx.SendAfter(again, now, 250);
        pcbs := pcbs[k := b.(state := b.state + 1)];
      } else if b.state == PROBE_3 {
        var a := BuildFromProbe(d.id, p, names);
        pcbs := pcbs[k := b.(running := false, probeIp := false, services := [], failed := 0)];
        tx.SendAfter(a, now, 250);
        pcbs := pcbs[k := pcbs[k].(state := pcbs[k].state + 1)];
        log := log[k := log[k] + [Claimed(a.(sendAt := now + 250), names)]];
      } else if b.state == ANNOUNCE_1 || b.state == ANNOUNCE_2 {
        tx.SendAfter(p, now, 1000);
        pcbs := pcbs[k := b.(state := b.state + 1)];
      } else if b.state == ANNOUNCE_3 {
        pcbs := pcbs[k := b.(state := RUNNING)];
      }
    }

    /** mdns_priv_pcb_set_probe_failed. */
    method SetProbeFailed(k: Pair)
      requires k in pcbs
      modifies this
      ensures Abs() == ProbeFailed(old(Abs()), k)
    {
      var b := pcbs[k];
      pcbs := pcbs[k := b.(failed := if b.failed >= 0xFFFF then 0 else b.failed + 1)];
    }

    /** The next waiting action: send_packet and handle_packet. */
    method Execute(d: Draw)
      requires Abs().Valid() && tx.actions != []
      modifies this, tx
      ensures Abs() == Pcb.Execute(old(Abs()), d)
    {
      var id := tx.NextAction();
      var p := tx.Take(id);
      if p.Some? {
        assert old(tx.packets)[0] in old(tx.packets);
        var k := p.value.pair;
        if pcbs[k].state != OFF {
          if pcbs[k].InProbe() {
            log := log[k := log[k] + [Sent(now, p.value)]];
          }
          Schedule(p.value, d);
        }
      }
    }

    // ---------------------------------------------------------------- removing a service

    /** mdns_priv_pcb_check_probing_services. */
    method CheckProbing(k: Pair, svc: nat, removedAnswers: bool) returns (dropQuestion: bool)
      requires k in pcbs && k in log
      modifies this
      ensures dropQuestion == Pcb.CheckProbing(old(pcbs[k]), svc, removedAnswers).1
      ensures pcbs == old(pcbs)[k := Pcb.CheckProbing(old(pcbs[k]), svc, removedAnswers).0]
      ensures log == if old(pcbs[k]).InProbe() && !pcbs[k].InProbe() then old(log)[k := old(log[k]) + [Cancelled]] else old(log)
      ensures now == old(now) && names == old(names) && services == old(services) && ready == old(ready) && partner == old(partner)
    {
      var b := pcbs[k];
      dropQuestion := false;
      if b.Probing() {
        var i := FindService(b.services, svc);
        if i < |b.services| {
          if |b.services| > 1 {
            var left := CloseGap(b.services, i);
            pcbs := pcbs[k := b.(services := left)];
          } else {
            pcbs := pcbs[k := b.(services := [])];
            if !b.probeIp {
              pcbs := pcbs[k := pcbs[k].(running := false, state := RUNNING)];
            }
          }
          dropQuestion := true;
        }
      } else if b.Announcing() && removedAnswers {
        pcbs := pcbs[k := b.(state := RUNNING)];
      }
      if b.InProbe() && !pcbs[k].InProbe() {
        log := log[k := log[k] + [Cancelled]];
      }
      assert old(pcbs)[k := old(pcbs[k])] == old(pcbs);
    }

    /** The body of the loop of mdns_priv_remove_scheduled_service_packets. */
    method RemoveAt(svc: nat, i: nat)
      requires Abs().Valid() && i < |tx.packets|
      requires tx.packets[i].pair in pcbs
      modifies this, tx
      ensures Abs() == Pcb.RemoveAt(old(Abs()), svc, i)
    {
      var p := tx.packets[i];
      var answers := DropAnswers(p.answers, svc);
      var additional := DropAnswers(p.additional, svc);
      var servers := DropAnswers(p.servers, svc);
      var q := p.(answers := answers, additional := additional, servers := servers);
      if p.pair in ready {
        var dropQuestion := CheckProbing(p.pair, svc, p.answers != [] && answers == []);
        if dropQuestion {
          var questions := DropOneQuestion(q.questions, types, svc);
          q := q.(questions := questions);
        }
      }
      tx.Replace(i, q);
    }

    /** mdns_priv_remove_scheduled_service_packets. */
    method RemoveService(svc: nat)
      requires Abs().Valid()
      modifies this, tx
      ensures Abs() == Pcb.RemoveService(old(Abs()), svc)
    {
      var i := 0;
      while i < |tx.packets|
        invariant Abs().Valid() && 0 <= i <= |tx.packets|
        invariant RemoveFrom(Abs(), svc, i) == RemoveFrom(old(Abs()), svc, 0)
        decreases |tx.packets| - i
      {
        assert tx.packets[i] in tx.packets;
        RemoveValid(Abs(), svc, i);
        RemoveAt(svc, i);
        if Empty(tx.packets[i]) {
          tx.Detach(i);
        } else {
          i := i + 1;
        }
      }
    }
  }
}
