/** Whether a packet that was handed over to the service task is really sent: the interplay of
    the timer, the bounded action queue and the head test of send_packet. */
module Delivery {
  import opened Bytes
  import opened Packets
  import opened TxQueue
  import opened QueueByPair
  import opened Pcb
  import opened ProbeDiscipline
  import opened ProbeSteps
  import opened ProbeRuns
  import opened ServiceRemoval

  predicate NoneQueued(q: seq<TxPacket>) {
    forall p :: p in q ==> !p.queued
  }

  /** Carrying out the waiting actions, one after the other, sends every packet that has been
      handed over. */
  predicate Served(q: seq<TxPacket>, actions: seq<nat>)
    decreases |actions|
  {
    if actions == [] then NoneQueued(q)
    else if Sendable(q, actions[0]) then Served(q[1..], actions[1..])
    else Served(q, actions[1..])
  }

  // ---------------------------------------------------------------- what keeps a queue served

  lemma {:induction false} ServedBehindHead(q: seq<TxPacket>, actions: seq<nat>)
    requires q != [] && Served(q, actions)
    ensures Served(q[1..], actions)
    decreases |actions|, 0
  {
    if actions != [] {
      if !Sendable(q, actions[0]) {
        ServedBehindHead(q, actions[1..]);
      }
      OneMoreAction(q[1..], actions[1..], actions[0]);
      assert [actions[0]] + actions[1..] == actions;
    }
  }

  /** An action that finds nothing to do, or comes too early, does no harm. */
  lemma {:induction false} OneMoreAction(q: seq<TxPacket>, actions: seq<nat>, id: nat)
    requires Served(q, actions)
    ensures Served(q, [id] + actions)
    decreases |actions|, 1
  {
    assert ([id] + actions)[1..] == actions;
    if Sendable(q, id) {
      ServedBehindHead(q, actions);
    }
  }

  lemma {:induction false} ServedSublist(r: seq<TxPacket>, q: seq<TxPacket>, actions: seq<nat>)
    requires Sublist(r, q) && Served(q, actions)
    ensures Served(r, actions)
    decreases |actions|, |q|
  {
    if actions == [] {
      forall p | p in r
        ensures !p.queued
      {
        SublistMembers(r, q, p);
      }
    } else if r == [] {
      NothingToServe(actions);
    } else if r[0] == q[0] && Sublist(r[1..], q[1..]) {
      if Sendable(q, actions[0]) {
        ServedSublist(r[1..], q[1..], actions[1..]);
      } else {
        ServedSublist(r, q, actions[1..]);
      }
    } else {
      ServedBehindHead(q, actions);
      ServedSublist(r, q[1..], actions);
    }
  }

  lemma {:induction false} NothingToServe(actions: seq<nat>)
    ensures Served([], actions)
    decreases |actions|
  {
    if actions != [] {
      NothingToServe(actions[1..]);
    }
  }

  /** A new packet is not in the way: it comes behind all that were handed over. */
  lemma {:induction false} ServedInsert(q: seq<TxPacket>, p: TxPacket, actions: seq<nat>)
    requires Served(q, actions) && !p.queued && forall x :: x in q && x.queued ==> x.sendAt <= p.sendAt
    ensures Served(Insert(q, p), actions)
    decreases |actions|
  {
    if actions == [] {
      forall x | x in Insert(q, p)
        ensures !x.queued
      {
        InsertMembers(q, p, x);
      }
    } else if Sendable(q, actions[0]) {
      assert q[0] in q;
      ServedInsert(q[1..], p, actions[1..]);
      assert Insert(q, p)[1..] == Insert(q[1..], p);
    } else {
      ServedInsert(q, p, actions[1..]);
    }
  }

  predicate SameMarks(r: seq<TxPacket>, q: seq<TxPacket>) {
    |r| == |q| && forall i :: 0 <= i < |r| ==> r[i].id == q[i].id && r[i].queued == q[i].queued
  }

  lemma {:induction false} ServedSameMarks(r: seq<TxPacket>, q: seq<TxPacket>, actions: seq<nat>)
    requires SameMarks(r, q) && Served(q, actions)
    ensures Served(r, actions)
    decreases |actions|
  {
    if actions == [] {
      assert forall i :: 0 <= i < |q| ==> q[i] in q;
    } else if Sendable(q, actions[0]) {
      ServedSameMarks(r[1..], q[1..], actions[1..]);
    } else {
      ServedSameMarks(r, q, actions[1..]);
    }
  }

  /** What has been handed over stands at the front. */
  lemma {:induction false} ServedIsPrefix(q: seq<TxPacket>, actions: seq<nat>, i: nat)
    requires Served(q, actions) && i < |q| && !q[i].queued
    ensures forall j :: i <= j < |q| ==> !q[j].queued
    decreases |actions|
  {
    if actions == [] {
      assert forall j :: 0 <= j < |q| ==> q[j] in q;
    } else if Sendable(q, actions[0]) {
      ServedIsPrefix(q[1..], actions[1..], i - 1);
      assert forall j :: i <= j < |q| ==> q[j] == q[1..][j - 1];
    } else {
      ServedIsPrefix(q, actions[1..], i);
    }
  }

  // ---------------------------------------------------------------- the timer

  predicate NoneAccepted(q: seq<TxPacket>, now: nat, oks: seq<bool>)
    decreases |q|
  {
    q == [] || q[0].sendAt >= now
    || (oks != [] && !oks[0] && NoneAccepted(q[1..], now, oks[1..]))
  }

  /** In this run of the timer the action queue never accepts a packet after it has refused an
      earlier one. */
  predicate NoGap(q: seq<TxPacket>, now: nat, oks: seq<bool>)
    decreases |q|
  {
    q == [] || q[0].sendAt >= now
    || (if oks == [] then NoGap(q[1..], now, [])
        else if oks[0] then NoGap(q[1..], now, oks[1..])
        else NoneAccepted(q[1..], now, oks[1..]))
  }

  predicate TimerNoGap(q: seq<TxPacket>, now: nat, oks: seq<bool>)
    decreases |q|
  {
    if q != [] && q[0].queued then TimerNoGap(q[1..], now, oks) else NoGap(q, now, oks)
  }

  lemma {:induction false} NoneAcceptedMark(q: seq<TxPacket>, now: nat, oks: seq<bool>)
    requires NoneQueued(q)
    ensures NoneAccepted(q, now, oks) <==> NoneQueued(MarkDue(q, now, oks).0)
    ensures NoneAccepted(q, now, oks) ==> MarkDue(q, now, oks).1 == []
    decreases |q|
  {
    if q != [] && q[0].sendAt < now {
      var ok := oks == [] || oks[0];
      var next := if oks == [] then [] else oks[1..];
      NoneAcceptedMark(q[1..], now, next);
      var r := MarkDue(q, now, oks).0;
      assert r[0].queued == ok && r[0] in r && r[1..] == MarkDue(q[1..], now, next).0;
      assert forall p :: p in r ==> p == r[0] || p in r[1..];
      assert forall p :: p in r[1..] ==> p in r;
    }
  }

  /** Marking packets none of which was handed over before. */
  lemma {:induction false} MarkDueServed(q: seq<TxPacket>, now: nat, oks: seq<bool>)
    requires NoneQueued(q) && NoGap(q, now, oks)
    ensures Served(MarkDue(q, now, oks).0, MarkDue(q, now, oks).1)
    decreases |q|
  {
    if q != [] && q[0].sendAt < now {
      var next := if oks == [] then [] else oks[1..];
      var r := MarkDue(q, now, oks);
      var rest := MarkDue(q[1..], now, next);
      assert r.0[1..] == rest.0;
      if oks == [] || oks[0] {
        MarkDueServed(q[1..], now, next);
        assert r.1[1..] == rest.1;
      } else {
        NoneAcceptedMark(q[1..], now, next);
        assert forall p :: p in r.0 ==> p == r.0[0] || p in rest.0;
      }
    }
  }

  /** Older actions, some perhaps of packets long gone, come first. */
  lemma {:induction false} OlderActions(q: seq<TxPacket>, before: seq<nat>, actions: seq<nat>)
    requires Served(q, actions)
    ensures Served(q, before + actions)
    decreases |before|
  {
    if before == [] {
      assert before + actions == actions;
    } else {
      OlderActions(q, before[1..], actions);
      OneMoreAction(q, before[1..] + actions, before[0]);
      assert [before[0]] + (before[1..] + actions) == before + actions;
    }
  }

  lemma {:induction false} TimerKeepsServed(q: seq<TxPacket>, actions: seq<nat>, now: nat, oks: seq<bool>)
    requires Served(q, actions) && TimerNoGap(q, now, oks)
    ensures Served(Mark(q, now, oks).0, actions + Mark(q, now, oks).1)
    decreases |actions|
  {
    var r := Mark(q, now, oks);
    if q == [] || !q[0].queued {
      assert NoneQueued(q) by {
        if q != [] {
          ServedIsPrefix(q, actions, 0);
        }
      }
      MarkDueServed(q, now, oks);
      OlderActions(r.0, actions, r.1);
    } else {
      assert q[0] in q;
      assert (actions + r.1)[1..] == actions[1..] + r.1;
      if Sendable(q, actions[0]) {
        TimerKeepsServed(q[1..], actions[1..], now, oks);
        assert r.0[1..] == Mark(q[1..], now, oks).0;
      } else {
        TimerKeepsServed(q, actions[1..], now, oks);
      }
    }
  }

  lemma {:induction false} GapLeavesHole(q: seq<TxPacket>, now: nat, oks: seq<bool>) returns (i: nat, j: nat)
    requires NoneQueued(q) && !NoGap(q, now, oks)
    ensures i < j < |q| && !MarkDue(q, now, oks).0[i].queued && MarkDue(q, now, oks).0[j].queued
    decreases |q|
  {
    var next := if oks == [] then [] else oks[1..];
    var rest := MarkDue(q[1..], now, next).0;
    if oks == [] || oks[0] {
      i, j := GapLeavesHole(q[1..], now, next);
      i, j := i + 1, j + 1;
    } else {
      NoneAcceptedMark(q[1..], now, next);
      var p :| p in rest && p.queued;
      var k :| 0 <= k < |rest| && rest[k] == p;
      i, j := 0, k + 1;
    }
  }

  lemma {:induction false} TimerLeavesHole(q: seq<TxPacket>, actions: seq<nat>, now: nat, oks: seq<bool>) returns (i: nat, j: nat)
    requires Served(q, actions) && !TimerNoGap(q, now, oks)
    ensures i < j < |q| && !Mark(q, now, oks).0[i].queued && Mark(q, now, oks).0[j].queued
    decreases |q|
  {
    if q != [] && q[0].queued {
      ServedBehindHead(q, actions);
      i, j := TimerLeavesHole(q[1..], actions, now, oks);
      i, j := i + 1, j + 1;
    } else {
      assert NoneQueued(q) by {
        if q != [] {
          ServedIsPrefix(q, actions, 0);
        }
      }
      i, j := GapLeavesHole(q, now, oks);
    }
  }

  /** Exactly when the timer keeps the promise: the action queue must not accept a packet after
      it has refused an earlier one. */
  lemma TimerPromise(q: seq<TxPacket>, actions: seq<nat>, now: nat, oks: seq<bool>)
    requires Served(q, actions)
    ensures Served(Mark(q, now, oks).0, actions + Mark(q, now, oks).1) <==> TimerNoGap(q, now, oks)
  {
    if TimerNoGap(q, now, oks) {
      TimerKeepsServed(q, actions, now, oks);
    } else {
      var i, j := TimerLeavesHole(q, actions, now, oks);
      if Served(Mark(q, now, oks).0, actions + Mark(q, now, oks).1) {
        ServedIsPrefix(Mark(q, now, oks).0, actions + Mark(q, now, oks).1, i);
      }
    }
  }

  // ---------------------------------------------------------------- whole runs

  ghost predicate ServedIn(s: Sys) {
    Served(s.queue, s.actions)
  }

  lemma SendAfterServed(s: Sys, p: TxPacket, ms: nat)
    requires QueuedIsDue(s.queue, s.now) && ServedIn(s) && !p.queued
    ensures ServedIn(SendAfter(s, p, ms))
  {
    ServedInsert(s.queue, p.(sendAt := s.now + ms), s.actions);
  }

  lemma ClearServed(s: Sys, k: Pair)
    requires QueuedIsDue(s.queue, s.now) && ServedIn(s)
    ensures ServedIn(Clear(s, k)) && QueuedIsDue(Clear(s, k).queue, s.now)
  {
    ClearIsSublist(s.queue, k);
    ServedSublist(ClearPair(s.queue, k), s.queue, s.actions);
  }

  lemma InitProbeServed(s: Sys, k: Pair, services: seq<nat>, ip: bool, d: Draw)
    requires QueuedIsDue(s.queue, s.now) && ServedIn(s) && k in s.pcbs && k in s.log
    ensures ServedIn(InitProbe(s, k, services, ip, d))
  {
    hide ProbePacket, Served, ClearPair, Insert;
    ClearServed(s, k);
    var c := Clear(s, k);
    var added := if c.pcbs[k].Probing() then Missing(services, c.pcbs[k].services) else services;
    var b := c.pcbs[k];
    var all := added + b.services;
    SendAfterServed(c, ProbePacket(d.id, k, c.names, all, true, b.probeIp || ip), (if b.failed > 5 then 1000 else 120) + d.delay);
  }

  lemma AnnounceServed(s: Sys, k: Pair, services: seq<nat>, ip: bool, d: Draw)
    requires QueuedIsDue(s.queue, s.now) && ServedIn(s) && k in s.pcbs && k in s.log
    ensures ServedIn(Announce(s, k, services, ip, d))
  {
    var b := s.pcbs[k];
    if k in s.ready {
      if b.Probing() {
        InitProbeServed(s, k, services, ip, d);
      } else if b.Announcing() {
        ServedSameMarks(Announce(s, k, services, ip, d).queue, s.queue, s.actions);
      } else if b.state == RUNNING {
        SendAfterServed(s, AnnouncePacket(d.id, k, s.names, services, ip), 0);
      }
    }
  }

  lemma EnableServed(s: Sys, k: Pair, up: bool, d: Draw)
    requires QueuedIsDue(s.queue, s.now) && ServedIn(s) && k in s.pcbs && k in s.log
    ensures ServedIn(Enable(s, k, up, d))
  {
    if k in s.ready || up {
      InitProbeServed(s.(ready := s.ready + {k}), k, s.services, true, d);
    }
  }

  lemma DisableServed(s: Sys, k: Pair, up: bool, d: Draw)
    requires s.Valid() && QueuedIsDue(s.queue, s.now) && ServedIn(s) && k in s.pcbs
    ensures ServedIn(Disable(s, k, up, d))
  {
    if k in s.ready {
      ClearServed(s, k);
      var off := Silence(s, k);
      var o := Other(off, k);
      if o.Some? && off.pcbs[o.value].state == DUP {
        EnableServed(Set(off, o.value, off.pcbs[o.value].(state := OFF)), o.value, up, d);
      }
    }
  }

  lemma DuplicateServed(s: Sys, k: Pair, d: Draw)
    requires s.Valid() && QueuedIsDue(s.queue, s.now) && ServedIn(s) && k in s.pcbs
    ensures ServedIn(SetDuplicate(s, k, d))
  {
    var o := Other(s, k);
    if o.Some? && o.value in s.ready {
      ClearServed(s, k);
      AnnounceServed(GiveWay(s, k), o.value, [], true, d);
    }
  }

  lemma ExecuteServed(s: Sys, d: Draw)
    requires Inv(s) && ServedIn(s) && s.actions != []
    ensures ServedIn(Execute(s, d))
  {
    var rest := s.(actions := s.actions[1..]);
    if Sendable(s.queue, s.actions[0]) {
      var p := s.queue[0].(queued := false);
      assert s.queue[0] in s.queue;
      var taken := rest.(queue := s.queue[1..]);
      assert forall x :: x in taken.queue ==> x in s.queue;
      var b := s.pcbs[p.pair];
      if b.state != OFF {
        ScheduleServed(if b.InProbe() then Note(taken, p.pair, Sent(s.now, p)) else taken, p, d);
      }
    }
  }

  lemma ScheduleServed(s: Sys, p: TxPacket, d: Draw)
    requires QueuedIsDue(s.queue, s.now) && ServedIn(s) && p.pair in s.pcbs && p.pair in s.log && !p.queued
    ensures ServedIn(Schedule(s, p, d))
  {
    SendAfterServed(s, p.(questions := WithoutUnicast(p.questions)), 250);
    SendAfterServed(s, p, 250);
    SendAfterServed(s, AnnounceFromProbe(d.id, p, s.names), 250);
    SendAfterServed(s, p, 1000);
  }

  lemma {:induction false} RemovedSublist(q: seq<TxPacket>, i: nat)
    requires i < |q|
    ensures Sublist(q[..i] + q[i + 1..], q)
    decreases i
  {
    var r := q[..i] + q[i + 1..];
    if i == 0 {
      assert r == q[1..];
      SublistOfSelf(r);
    } else {
      RemovedSublist(q[1..], i - 1);
      assert r[1..] == q[1..][..i - 1] + q[1..][i..];
    }
  }

  lemma {:induction false} SublistOfSelf(q: seq<TxPacket>)
    ensures Sublist(q, q)
    decreases |q|
  {
    if q != [] {
      SublistOfSelf(q[1..]);
    }
  }

  lemma {:induction false} RemoveServed(s: Sys, svc: nat, i: nat)
    requires Inv(s) && s.Valid() && ServedIn(s) && i <= |s.queue|
    ensures ServedIn(RemoveFrom(s, svc, i))
    decreases |s.queue| - i
  {
    hide Inv, Sys.Valid, RemoveAt, Empty, Served;
    if i < |s.queue| {
      RemoveTurn(s, svc, i);
      RemoveAtServed(s, svc, i);
      var t := RemoveAt(s, svc, i);
      if Empty(t.queue[i]) {
        RemovedSublist(t.queue, i);
        var u := t.(queue := t.queue[..i] + t.queue[i + 1..]);
        ServedSublist(u.queue, t.queue, t.actions);
        RemoveServed(u, svc, i);
      } else {
        RemoveServed(t, svc, i + 1);
      }
    }
  }

  lemma RemoveAtServed(s: Sys, svc: nat, i: nat)
    requires Inv(s) && ServedIn(s) && i < |s.queue| && s.queue[i].pair in s.pcbs && s.queue[i].pair in s.log
    ensures ServedIn(RemoveAt(s, svc, i))
  {
    RemoveAtCleans(s, svc, i);
    ServedSameMarks(RemoveAt(s, svc, i).queue, s.queue, s.actions);
  }

  lemma InvHasQueue(s: Sys)
    requires Inv(s)
    ensures s.Valid() && QueuedIsDue(s.queue, s.now)
    ensures s.queue != [] && s.queue[0].queued ==> s.queue[0].sendAt < s.now
  {
    assert s.queue != [] ==> s.queue[0] in s.queue;
  }

  /** No run of the timer leaves a gap. */
  predicate Steady(s: Sys, op: Op) {
    op.RunTimer? ==> TimerNoGap(s.queue, s.now, op.oks)
  }

  lemma StepServed(s: Sys, op: Op)
    requires Inv(s) && Enabled(s, op) && Steady(s, op) && ServedIn(s)
    ensures ServedIn(Apply(s, op))
  {
    hide Inv, Execute, Enable, Disable, Announce, SetDuplicate, InitProbe, Reprobe, RemoveFrom, Served, Mark, Insert, ClearPair;
    InvHasQueue(s);
    match op
    case Tick(ms) =>
    case RunTimer(oks) => TimerKeepsServed(s.queue, s.actions, s.now, oks);
    case RunAction(d) => ExecuteServed(s, d);
    case DoEnable(k, up, d) => EnableServed(s, k, up, d);
    case DoDisable(k, up, d) => DisableServed(s, k, up, d);
    case DoAnnounce(k, services, ip, d) => AnnounceServed(s, k, services, ip, d);
    case DoDuplicate(k, d) => DuplicateServed(s, k, d);
    case DoProbe(k, services, ip, d) => InitProbeServed(s, k, services, ip, d);
    case DoReprobe(k, services, ip, clearOld, d) => ReprobeServed(s, k, services, ip, clearOld, d);
    case DoRestart(ks, ds) => RestartServed(s, ks, ds);
    case DoReply(p, ms) => SendAfterServed(s, p, ms);
    case DoAmend(i, answers) => ServedSameMarks(Amend(s, i, answers).queue, s.queue, s.actions);
    case DoRemove(svc) => RemoveServed(s, svc, 0);
    case DoFail(k) =>
    case DoServices(services) =>
    case DoNames(names) =>
  }

  lemma {:induction false} ReprobeAllServed(s: Sys, ks: seq<Pair>, ds: seq<Draw>)
    requires |ks| == |ds| && (forall k :: k in ks ==> k in s.pcbs && k in s.log)
    requires QueuedIsDue(s.queue, s.now) && ServedIn(s)
    ensures ServedIn(ReprobeAll(s, ks, ds))
    decreases |ks|
  {
    hide Reprobe, Served, QueuedIsDue;
    if ks != [] {
      ReprobeServed(s, ks[0], s.services, true, true, ds[0]);
      ReprobeDue(s, ks[0], ds[0]);
      ReprobeAllServed(Reprobe(s, ks[0], s.services, true, true, ds[0]), ks[1..], ds[1..]);
    }
  }

  lemma ReprobeDue(s: Sys, k: Pair, d: Draw)
    requires k in s.pcbs && k in s.log && QueuedIsDue(s.queue, s.now)
    ensures var t := Reprobe(s, k, s.services, true, true, d); QueuedIsDue(t.queue, t.now)
  {
    hide ProbePacket;
    if k in s.ready {
      var c := ClearPair(s.queue, k);
      ClearIsSublist(s.queue, k);
      var t := Reprobe(s, k, s.services, true, true, d);
      var p: TxPacket :| t.queue == Insert(c, p) && !p.queued;
      forall x | x in t.queue && x.queued
        ensures x.sendAt < t.now
      {
        InsertMembers(c, p, x);
        SublistMembers(c, s.queue, x);
      }
    }
  }

  lemma RestartServed(s: Sys, ks: seq<Pair>, ds: seq<Draw>)
    requires |ks| == |ds| && (forall k :: k in ks ==> k in s.pcbs && k in s.log)
    requires ServedIn(s)
    ensures ServedIn(Restart(s, ks, ds))
  {
    ServedSublist([], s.queue, s.actions);
    ReprobeAllServed(s.(queue := []), ks, ds);
  }

  lemma ReprobeServed(s: Sys, k: Pair, services: seq<nat>, ip: bool, clearOld: bool, d: Draw)
    requires QueuedIsDue(s.queue, s.now) && ServedIn(s) && k in s.pcbs && k in s.log
    ensures ServedIn(Reprobe(s, k, services, ip, clearOld, d))
  {
    if k in s.ready {
      InitProbeServed(if clearOld then Set(s, k, s.pcbs[k].(services := [], running := false)) else s, k, services, ip, d);
    }
  }

  /** A run in which no run of the timer leaves a gap. */
  ghost predicate ReachesSteadily(s: Sys, ops: seq<Op>, t: Sys)
    decreases |ops|
  {
    if ops == [] then s == t
    else s.Valid() && Enabled(s, ops[0]) && Steady(s, ops[0]) && ReachesSteadily(Apply(s, ops[0]), ops[1..], t)
  }

  lemma {:induction false} RunServed(s: Sys, ops: seq<Op>, t: Sys)
    requires Inv(s) && ServedIn(s) && ReachesSteadily(s, ops, t)
    ensures Inv(t) && ServedIn(t)
    decreases |ops|
  {
    if ops != [] {
      StepOk(s, ops[0]);
      StepServed(s, ops[0]);
      RunServed(Apply(s, ops[0]), ops[1..], t);
    }
  }

  /** Over every such run: once the service task has worked off its actions, nothing that was
      handed over to it is left unsent. */
  lemma EverythingHandedOverIsSent(s: Sys, ops: seq<Op>, t: Sys)
    requires Initial(s) && ReachesSteadily(s, ops, t) && t.actions == []
    ensures forall p :: p in t.queue ==> !p.queued
  {
    InitialOk(s);
    RunServed(s, ops, t);
  }

  // ---------------------------------------------------------------- when there is a gap

  /** The head has been handed over, but no action is left that would send it. */
  predicate Stuck(q: seq<TxPacket>, actions: seq<nat>) {
    q != [] && q[0].queued && q[0].id !in actions
  }

  lemma {:induction false} MarkedIds(q: seq<TxPacket>, now: nat, oks: seq<bool>, id: nat)
    requires id in Mark(q, now, oks).1
    ensures exists i :: 0 <= i < |q| && q[i].id == id && (i > 0 || !q[0].queued)
    decreases |q|
  {
    if q[0].queued {
      MarkedIds(q[1..], now, oks, id);
      var i :| 0 <= i < |q[1..]| && q[1..][i].id == id;
      assert q[i + 1].id == id;
    } else {
      MarkDueOk(q, now, oks);
      var r := MarkDue(q, now, oks).0;
      var p :| p in r && p.id == id && p.queued;
      var i :| 0 <= i < |r| && r[i] == p;
      assert r[i].(queued := false) == q[i].(queued := false);
    }
  }

  /** Steps that do not stop or restart a pair and remove no service. */
  predicate Ordinary(op: Op) {
    op.Tick? || op.RunTimer? || op.RunAction? || op.DoReply? || op.DoAmend? || op.DoFail? || op.DoServices? || op.DoNames?
  }

  lemma TimerStaysStuck(s: Sys, oks: seq<bool>)
    requires Inv(s) && Stuck(s.queue, s.actions)
    ensures var t := Timer(s, oks); Stuck(t.queue, t.actions) && t.queue[0] == s.queue[0] && |t.queue| == |s.queue|
  {
    var r := Mark(s.queue, s.now, oks);
    if s.queue[0].id in r.1 {
      MarkedIds(s.queue, s.now, oks, s.queue[0].id);
    }
  }

  /** From then on nothing at all is sent on any pair: the timer passes over the head because it
      counts as handed over, and every action finds the wrong packet at the head. */
  lemma StuckStays(s: Sys, op: Op)
    requires Inv(s) && Enabled(s, op) && Ordinary(op) && Stuck(s.queue, s.actions)
    ensures var t := Apply(s, op);
            Stuck(t.queue, t.actions) && t.queue[0].id == s.queue[0].id && t.log == s.log && |t.queue| >= |s.queue|
  {
    hide Inv, Mark, Schedule, QueuedIsDue, Sys.Valid, Distinct, IdUnused;
    InvHasQueue(s);
    if op.RunTimer? {
      TimerStaysStuck(s, op.oks);
    }
  }

  /** A pair that was off is switched on, and its probe waits. */
  lemma SwitchedOn(s: Sys, k: Pair, d: Draw) returns (p: TxPacket)
    requires s.Valid() && k in s.pcbs && s.pcbs[k] == IDLE
    ensures p.id == d.id && p.pair == k && !p.queued && p.sendAt == s.now + 120 + d.delay
    ensures var t := Enable(s, k, true, d);
            && t.queue == Insert(ClearPair(s.queue, k), p) && t.actions == s.actions && t.now == s.now
            && t.partner == s.partner && t.ready == s.ready + {k} && t.pcbs.Keys == s.pcbs.Keys
            && forall j :: j in s.pcbs && j != k ==> t.pcbs[j] == s.pcbs[j]
  {
    hide ProbePacket, Insert, ClearPair;
    p := ProbePacket(d.id, k, s.names, s.services + [], true, true).(sendAt := s.now + 120 + d.delay);
    assert Enable(s, k, true, d).queue == Insert(ClearPair(s.queue, k), p);
  }

  /** A run of the responder that gets there: two pairs are switched on, the action queue refuses
      the probe of the first and takes that of the second, and before the first is tried again
      it is switched off. */
  function GetStuck(k1: Pair, k2: Pair, d1: Draw, d2: Draw, d3: Draw): seq<Op> {
    [DoEnable(k1, true, d1), DoEnable(k2, true, d2), Tick(121 + d1.delay), RunTimer([false, true]),
     RunAction(d3), DoDisable(k1, false, d3)]
  }

  /** Both probes wait, and are due. */
  lemma BothWait(s: Sys, k1: Pair, k2: Pair, d1: Draw, d2: Draw) returns (a: TxPacket, b: TxPacket)
    requires Initial(s) && k1 in s.pcbs && k2 in s.pcbs && k1 != k2 && d1.id != d2.id && d1.delay == d2.delay
    ensures a.pair == k1 && b.pair == k2 && a.id == d1.id && b.id == d2.id && !a.queued && !b.queued
    ensures Enabled(s, DoEnable(k1, true, d1))
    ensures var s1 := Enable(s, k1, true, d1);
            && Inv(s1) && s1.Valid() && Enabled(s1, DoEnable(k2, true, d2))
            && var s2 := Enable(s1, k2, true, d2);
               && Inv(s2) && s2.Valid() && s2.queue == [a, b] && s2.actions == [] && s2.partner == s.partner
               && s2.pcbs.Keys == s.pcbs.Keys && k1 in s2.ready
               && a.sendAt == b.sendAt < s2.now + 121 + d1.delay
  {
    hide Inv, Enable;
    InitialOk(s);
    a := SwitchedOn(s, k1, d1);
    var s1 := Enable(s, k1, true, d1);
    assert ClearPair([], k1) == [] && Insert([], a) == [a];
    InterfaceStepOk(s, DoEnable(k1, true, d1));
    InvGives(s1);
    b := SwitchedOn(s1, k2, d2);
    var s2 := Enable(s1, k2, true, d2);
    assert [a][1..] == [] && ClearPair([a], k2) == [a];
    assert Insert([a], b) == [a, b];
    InterfaceStepOk(s1, DoEnable(k2, true, d2));
    InvGives(s2);
  }

  /** From the state in which nothing is switched on the responder can come to a standstill. */
  lemma StuckIsReached(s: Sys, k1: Pair, k2: Pair, d1: Draw, d2: Draw, d3: Draw) returns (t: Sys)
    requires Initial(s) && k1 in s.pcbs && k2 in s.pcbs && k1 != k2 && k1.netif !in s.partner
    requires d1.id != d2.id && d3.id != d1.id && d3.id != d2.id && d1.delay == d2.delay
    ensures Reaches(s, GetStuck(k1, k2, d1, d2, d3), t) && Stuck(t.queue, t.actions)
  {
    hide Inv, Enable, Disable, Mark, Execute, Stuck, Reaches, Initial;
    InitialValid(s);
    var a, b := BothWait(s, k1, k2, d1, d2);
    var s1 := Enable(s, k1, true, d1);
    var s2 := Enable(s1, k2, true, d2);
    var s3 := s2.(now := s2.now + 121 + d1.delay);
    var s4 := Timer(s3, [false, true]);
    var marked := StuckHalfway(s2, s3, s4, a, b, d1, d3);
    var s5 := Execute(s4, d3);
    t := Disable(s5, k1, false, d3);
    HeadGoes(s5, k1, a, marked, d3);
    SixSteps(s, s1, s2, s3, s4, s5, t, k1, k2, d1, d2, d3);
  }

  lemma InitialValid(s: Sys)
    requires Initial(s)
    ensures s.Valid()
  {}

  /** The timer and the action in the middle of that run. */
  lemma StuckHalfway(s2: Sys, s3: Sys, s4: Sys, a: TxPacket, b: TxPacket, d1: Draw, d3: Draw) returns (marked: TxPacket)
    requires Inv(s2) && s2.queue == [a, b] && s2.actions == [] && a.sendAt == b.sendAt < s2.now + 121 + d1.delay
    requires !a.queued && !b.queued && d3.id != a.id && d3.id != b.id
    requires s3 == s2.(now := s2.now + 121 + d1.delay) && s4 == Timer(s3, [false, true])
    ensures s3.Valid() && s4.Valid() && s4.actions != [] && Enabled(s4, RunAction(d3))
    ensures var s5 := Execute(s4, d3);
            && s5.Valid() && s5.queue == [a, marked] && s5.actions == [] && marked == b.(queued := true)
            && s5.ready == s2.ready && s5.partner == s2.partner && s5.pcbs == s2.pcbs && Fresh(s5, d3)
  {
    hide Inv, Enable, Mark, Execute, Sys.Valid;
    InvGives(s2);
    QueueStepOk(s2, Tick(121 + d1.delay));
    InvGives(s3);
    QueueStepOk(s3, RunTimer([false, true]));
    InvGives(s4);
    marked := TimerLeavesGap(s3, a, b);
    ActionFindsNothing(s4, d3, a);
    QueueStepOk(s4, RunAction(d3));
    InvGives(Execute(s4, d3));
  }

  lemma TimerLeavesGap(s: Sys, a: TxPacket, b: TxPacket) returns (marked: TxPacket)
    requires s.queue == [a, b] && s.actions == [] && a.sendAt <= b.sendAt < s.now && !a.queued && !b.queued
    ensures marked == b.(queued := true)
    ensures Timer(s, [false, true]) == s.(queue := [a, marked], actions := [b.id])
  {
    marked := b.(queued := true);
    assert [a, b][1..] == [b] && [b][1..] == [] && [false, true][1..] == [true] && [true][1..] == [];
    assert [marked] + [] == [marked] && [b.id] + [] == [b.id] && [a] + [marked] == [a, marked];
    assert MarkDue([b], s.now, [true]) == ([marked], [b.id]);
    assert a.(queued := false) == a;
    var q := [a, b];
    assert q[0] == a && q[1..] == [b];
    assert MarkDue(q, s.now, [false, true]) == ([a, marked], [b.id]);
    assert Mark(q, s.now, [false, true]) == MarkDue(q, s.now, [false, true]);
    assert [] + [b.id] == [b.id];
  }

  lemma ActionFindsNothing(s: Sys, d: Draw, a: TxPacket)
    requires s.Valid() && s.queue != [] && s.queue[0] == a && !a.queued && |s.actions| == 1
    ensures Execute(s, d) == s.(actions := [])
  {
    assert s.actions[1..] == [];
  }

  lemma HeadGoes(s: Sys, k: Pair, a: TxPacket, marked: TxPacket, d: Draw)
    requires s.Valid() && s.queue == [a, marked] && s.actions == [] && a.pair == k && marked.pair != k && marked.queued
    requires k in s.ready && k.netif !in s.partner
    ensures var t := Disable(s, k, false, d); Stuck(t.queue, t.actions)
  {
    assert [a, marked][1..] == [marked] && [marked][1..] == [];
    assert ClearPair([marked], k) == [marked];
    assert ClearPair([a, marked], k) == [marked];
  }

  lemma SixSteps(s: Sys, s1: Sys, s2: Sys, s3: Sys, s4: Sys, s5: Sys, t: Sys,
                 k1: Pair, k2: Pair, d1: Draw, d2: Draw, d3: Draw)
    requires s.Valid() && s1.Valid() && s2.Valid() && s3.Valid() && s4.Valid() && s5.Valid()
    requires Enabled(s, DoEnable(k1, true, d1)) && s1 == Apply(s, DoEnable(k1, true, d1))
    requires Enabled(s1, DoEnable(k2, true, d2)) && s2 == Apply(s1, DoEnable(k2, true, d2))
    requires s3 == Apply(s2, Tick(121 + d1.delay)) && s4 == Apply(s3, RunTimer([false, true]))
    requires Enabled(s4, RunAction(d3)) && s5 == Apply(s4, RunAction(d3))
    requires Enabled(s5, DoDisable(k1, false, d3)) && t == Apply(s5, DoDisable(k1, false, d3))
    ensures Reaches(s, GetStuck(k1, k2, d1, d2, d3), t)
  {
    hide Apply, Enabled;
    var ops := GetStuck(k1, k2, d1, d2, d3);
    assert ops[1..][1..] == ops[2..] && ops[2..][1..] == ops[3..] && ops[3..][1..] == ops[4..] && ops[4..][1..] == ops[5..] && ops[5..][1..] == [];
    assert Reaches(t, [], t);
    assert Reaches(s5, ops[5..], t);
    assert Reaches(s4, ops[4..], t);
    EnabledAlways(s2, s3, d1.delay);
    assert Reaches(s3, ops[3..], t);
    assert Reaches(s2, ops[2..], t);
    assert Reaches(s1, ops[1..], t);
  }

  lemma EnabledAlways(s2: Sys, s3: Sys, delay: nat)
    ensures Enabled(s2, Tick(121 + delay)) && Enabled(s3, RunTimer([false, true]))
  {}
}
