/** The sockets under the protocol: over every run, the pairs that the network layer has set up
    are those the state machine takes for ready, and the shared control block exists exactly as
    long as there is one. */
module SocketRuns {
  import opened Bytes
  import opened Packets
  import opened Pcb
  import opened ProbeDiscipline
  import opened ProbeSteps
  import opened ProbeRuns
  import opened Readiness

  /** What the network stack answers during a step: to joining and leaving a group and to binding
      the control block. */
  datatype World = World(joins: bool, binds: bool, leaves: bool)

  /** The pair whose socket a step tries to set up: the one that is enabled, or the duplicate that
      takes over from one that is disabled. */
  function Opened(s: Sys, op: Op): Option<Pair>
    requires s.Valid() && Enabled(s, op)
  {
    match op
    case DoEnable(k, _, _) => if k in s.ready then None else Some(k)
    case DoDisable(k, _, _) =>
      var o := Other(s, k);
      if k in s.ready && o.Some? && s.pcbs[o.value].state == DUP then o else None
    case _ => None
  }

  /** The pair whose socket a step closes. */
  function Closed(s: Sys, op: Op): Option<Pair>
    requires s.Valid() && Enabled(s, op)
  {
    match op
    case DoDisable(k, _, _) => if k in s.ready then Some(k) else None
    case DoDuplicate(k, _) =>
      var o := Other(s, k);
      if o.Some? && o.value in s.ready && k in s.ready then Some(k) else None
    case _ => None
  }

  function WithoutClosed(n: Net, s: Sys, op: Op, w: World): Net
    requires s.Valid() && Enabled(s, op)
  {
    match Closed(s, op)
    case None => n
    case Some(k) => Down(n, k, w.leaves)
  }

  /** The sockets after a step. */
  function NetAfter(n: Net, s: Sys, op: Op, w: World): Net
    requires s.Valid() && Enabled(s, op)
  {
    var down := WithoutClosed(n, s, op, w);
    match Opened(s, op)
    case None => down
    case Some(k) => Up(down, k, w.joins, w.binds).0
  }

  /** The step knows whether the socket could be set up. */
  predicate Informed(n: Net, s: Sys, op: Op, w: World)
    requires s.Valid() && Enabled(s, op)
  {
    match Opened(s, op)
    case None => true
    case Some(k) =>
      var ok := Up(WithoutClosed(n, s, op, w), k, w.joins, w.binds).1;
      (op.DoEnable? ==> op.up == ok) && (op.DoDisable? ==> op.up == ok)
  }

  predicate Agree(n: Net, s: Sys) {
    n.ready == s.ready && (n.main <==> n.ready != {})
  }

  lemma EnableReady(s: Sys, k: Pair, up: bool, d: Draw)
    requires k in s.pcbs && k in s.log
    ensures Enable(s, k, up, d).ready == if k in s.ready || up then s.ready + {k} else s.ready
  {}

  lemma AnnounceReady(s: Sys, k: Pair, services: seq<nat>, ip: bool, d: Draw)
    requires k in s.pcbs && k in s.log
    ensures Announce(s, k, services, ip, d).ready == s.ready
  {}

  lemma DisableReady(s: Sys, k: Pair, up: bool, d: Draw)
    requires Inv(s) && s.Valid() && k in s.pcbs
    ensures var o := Other(s, k);
            Disable(s, k, up, d).ready ==
            if k !in s.ready then s.ready
            else if o.Some? && s.pcbs[o.value].state == DUP && up then s.ready - {k} + {o.value}
            else s.ready - {k}
  {
    hide Inv, Enable;
    if k in s.ready {
      var off := Silence(s, k);
      var o := Other(s, k);
      if o.Some? && off.pcbs[o.value].state == DUP {
        DuplicateNotReady(s, o.value);
        EnableReady(Set(off, o.value, off.pcbs[o.value].(state := OFF)), o.value, up, d);
      }
    }
  }

  lemma DuplicateNotReady(s: Sys, k: Pair)
    requires Inv(s) && k in s.pcbs && s.pcbs[k].state == DUP
    ensures k !in s.ready
  {
    assert DuplicateOk(s, k);
  }

  lemma PairOfPacket(s: Sys, i: nat)
    requires s.Valid() && i < |s.queue|
    ensures s.queue[i].pair in s.pcbs && s.queue[i].pair in s.log
  {
    assert s.queue[i] in s.queue;
  }

  lemma RemoveAtReady(s: Sys, svc: nat, i: nat)
    requires i < |s.queue| && s.queue[i].pair in s.pcbs && s.queue[i].pair in s.log
    ensures RemoveAt(s, svc, i).ready == s.ready
  {}

  lemma {:induction false} RemoveReady(s: Sys, svc: nat, i: nat)
    requires s.Valid() && i <= |s.queue|
    ensures RemoveFrom(s, svc, i).ready == s.ready
    decreases |s.queue| - i
  {
    hide RemoveAt, Empty, Sys.Valid;
    if i < |s.queue| {
      PairOfPacket(s, i);
      var one := RemoveAt(s, svc, i);
      RemoveValid(s, svc, i);
      RemoveAtReady(s, svc, i);
      if Empty(one.queue[i]) {
        RemoveReady(one.(queue := one.queue[..i] + one.queue[i + 1..]), svc, i);
      } else {
        RemoveReady(one, svc, i + 1);
      }
    }
  }

  lemma {:induction false} ReprobeAllReady(s: Sys, ks: seq<Pair>, ds: seq<Draw>)
    requires |ks| == |ds| && forall k :: k in ks ==> k in s.pcbs && k in s.log
    ensures ReprobeAll(s, ks, ds).ready == s.ready
    decreases |ks|
  {
    if ks != [] {
      ReprobeAllReady(Reprobe(s, ks[0], s.services, true, true, ds[0]), ks[1..], ds[1..]);
    }
  }

  lemma StepAgrees(n: Net, s: Sys, op: Op, w: World)
    requires Inv(s) && s.Valid() && Enabled(s, op) && Agree(n, s) && Informed(n, s, op, w)
    ensures Agree(NetAfter(n, s, op, w), Apply(s, op))
  {
    hide Inv, Apply, Announce, RemoveFrom, ReprobeAll;
    match op
    case DoEnable(k, up, d) => EnableAgrees(n, s, k, up, d, w);
    case DoDisable(k, up, d) => DisableAgrees(n, s, k, up, d, w);
    case DoDuplicate(k, d) => DuplicateAgrees(n, s, k, d, w);
    case DoAnnounce(k, services, ip, d) =>
      AnnounceReady(s, k, services, ip, d);
      assert Apply(s, op).ready == s.ready by { ReadyAfter(s, op, Announce(s, k, services, ip, d)); }
    case DoRemove(svc) =>
      RemoveReady(s, svc, 0);
      ReadyAfter(s, op, RemoveFrom(s, svc, 0));
    case DoRestart(ks, ds) =>
      ReadyAfterRestart(s, ks, ds);
    case _ => OtherStepReady(s, op);
  }

  lemma ReadyAfter(s: Sys, op: Op, t: Sys)
    requires s.Valid() && Enabled(s, op)
    requires op.DoAnnounce? ==> t == Announce(s, op.k, op.services, op.ip, op.d)
    requires op.DoRemove? ==> t == RemoveFrom(s, op.svc, 0)
    requires op.DoAnnounce? || op.DoRemove?
    ensures Apply(s, op) == t
  {
    hide Announce, RemoveFrom;
  }

  lemma ReadyAfterRestart(s: Sys, ks: seq<Pair>, ds: seq<Draw>)
    requires s.Valid() && Enabled(s, DoRestart(ks, ds))
    ensures Apply(s, DoRestart(ks, ds)).ready == s.ready
  {
    ReprobeAllReady(s.(queue := []), ks, ds);
  }

  lemma EnableAgrees(n: Net, s: Sys, k: Pair, up: bool, d: Draw, w: World)
    requires s.Valid() && Enabled(s, DoEnable(k, up, d)) && Agree(n, s) && Informed(n, s, DoEnable(k, up, d), w)
    ensures Agree(NetAfter(n, s, DoEnable(k, up, d), w), Apply(s, DoEnable(k, up, d)))
  {
    hide Enable;
    EnableReady(s, k, up, d);
    assert k in s.ready ==> s.ready + {k} == s.ready;
  }

  lemma DisableAgrees(n: Net, s: Sys, k: Pair, up: bool, d: Draw, w: World)
    requires Inv(s) && s.Valid() && Enabled(s, DoDisable(k, up, d)) && Agree(n, s) && Informed(n, s, DoDisable(k, up, d), w)
    ensures Agree(NetAfter(n, s, DoDisable(k, up, d), w), Apply(s, DoDisable(k, up, d)))
  {
    hide Inv, Disable;
    DisableReady(s, k, up, d);
    if Opened(s, DoDisable(k, up, d)).Some? {
      DuplicateNotReady(s, Opened(s, DoDisable(k, up, d)).value);
    }
  }

  lemma DuplicateAgrees(n: Net, s: Sys, k: Pair, d: Draw, w: World)
    requires s.Valid() && Enabled(s, DoDuplicate(k, d)) && Agree(n, s)
    ensures Agree(NetAfter(n, s, DoDuplicate(k, d), w), Apply(s, DoDuplicate(k, d)))
  {
    hide Announce;
    var o := Other(s, k);
    if o.Some? && o.value in s.ready {
      AnnounceReady(GiveWay(s, k), o.value, [], true, d);
    }
  }

  lemma OtherStepReady(s: Sys, op: Op)
    requires s.Valid() && Enabled(s, op)
    requires !op.DoEnable? && !op.DoDisable? && !op.DoDuplicate? && !op.DoAnnounce? && !op.DoRemove? && !op.DoRestart?
    ensures Apply(s, op).ready == s.ready
  {
    hide Execute, InitProbe;
    match op
    case RunAction(d) => ExecuteReady(s, d);
    case DoProbe(k, services, ip, d) => InitProbeReady(s, k, services, ip, d);
    case DoReprobe(k, services, ip, clearOld, d) =>
      if k in s.ready {
        InitProbeReady(if clearOld then Set(s, k, s.pcbs[k].(services := [], running := false)) else s, k, services, ip, d);
      }
    case _ =>
  }

  lemma ExecuteReady(s: Sys, d: Draw)
    requires s.Valid() && s.actions != []
    ensures Execute(s, d).ready == s.ready
  {}

  lemma InitProbeReady(s: Sys, k: Pair, services: seq<nat>, ip: bool, d: Draw)
    requires k in s.pcbs && k in s.log
    ensures InitProbe(s, k, services, ip, d).ready == s.ready
  {}

  /** A run of the protocol and the sockets together. */
  ghost predicate Together(n: Net, s: Sys, ops: seq<Op>, worlds: seq<World>, m: Net, t: Sys)
    requires |worlds| == |ops|
    decreases |ops|
  {
    if ops == [] then n == m && s == t
    else
      && s.Valid() && Enabled(s, ops[0]) && Informed(n, s, ops[0], worlds[0])
      && Together(NetAfter(n, s, ops[0], worlds[0]), Apply(s, ops[0]), ops[1..], worlds[1..], m, t)
  }

  lemma {:induction false} RunAgrees(n: Net, s: Sys, ops: seq<Op>, worlds: seq<World>, m: Net, t: Sys)
    requires |worlds| == |ops| && Inv(s) && Agree(n, s) && Together(n, s, ops, worlds, m, t)
    ensures Agree(m, t)
    decreases |ops|
  {
    hide Agree, NetAfter, Apply, Enabled, Informed, Inv;
    if ops != [] {
      InvGives(s);
      StepAgrees(n, s, ops[0], worlds[0]);
      StepOk(s, ops[0]);
      RunAgrees(NetAfter(n, s, ops[0], worlds[0]), Apply(s, ops[0]), ops[1..], worlds[1..], m, t);
    }
  }

  /** In every state of every run the control block exists if and only if some pair is ready, and
      it is ready in the state machine exactly when its socket is set up. */
  lemma SharedBlockInEveryState(s: Sys, ops: seq<Op>, worlds: seq<World>, m: Net, t: Sys)
    requires |worlds| == |ops| && Initial(s) && Together(Net({}, false, {}), s, ops, worlds, m, t)
    ensures m.ready == t.ready && (m.main <==> t.ready != {})
  {
    InitialOk(s);
    RunAgrees(Net({}, false, {}), s, ops, worlds, m, t);
  }
}
