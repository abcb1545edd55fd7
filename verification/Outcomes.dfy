/** What the steps of the protocol leave in the transmit queue, in the control blocks and in the
    log, in every state that can be reached. */
module Outcomes {
  import opened Bytes
  import opened RecordWriter
  import opened Packets
  import opened TxQueue
  import opened QueueByPair
  import opened Pcb
  import opened ProbePackets
  import opened ProbeDiscipline
  import opened ProbeSteps
  import opened ProbeRuns

  /** Nothing happens at any other pair. */
  ghost predicate OthersStay(s: Sys, t: Sys, k: Pair) {
    forall j :: j in s.pcbs && j in s.log && j != k ==>
      && j in t.pcbs && t.pcbs[j] == s.pcbs[j] && j in t.log && t.log[j] == s.log[j]
      && Of(t.queue, j) == Of(s.queue, j)
  }

  // ---------------------------------------------------------------- a packet is sent

  /** The same packet again, asking for no unicast replies any more. */
  predicate Repeats(p: TxPacket, again: TxPacket, at: nat) {
    && again == p.(sendAt := at, questions := again.questions) && |again.questions| == |p.questions|
    && forall i :: 0 <= i < |p.questions| ==> again.questions[i] == p.questions[i].(unicast := false)
  }

  /** What becomes of a pair whose packet p has been sent: a probe waits again for 250 ms later;
      after the third transmission an announcement of its claims does; an announcement waits again
      for one second later, twice; and then the pair is running. */
  ghost predicate GoesOn(s: Sys, t: Sys, p: TxPacket, d: Draw)
    requires p.pair in s.pcbs && p.pair in s.log && p.pair in t.pcbs && p.pair in t.log
  {
    var k := p.pair;
    var b, c, before, after := s.pcbs[k], t.pcbs[k], Of(s.queue, k), Of(t.queue, k);
    && PROBE_1 <= b.state <= RUNNING && before != [] && before[0] == p.(queued := true)
    && (b.state == PROBE_1 || b.state == PROBE_2 ==>
          && c == b.(state := b.state + 1) && t.log[k] == s.log[k] + [Sent(s.now, p)]
          && |after| == 1 && Repeats(p, after[0], s.now + 250))
    && (b.state == PROBE_3 ==>
          && c == Block(ANNOUNCE_1, [], false, false, 0)
          && |after| == 1 && after[0].id == d.id && FollowsUp(Sent(s.now, p), after[0], s.names)
          && (forall claim :: claim in p.servers ==> Covers(after[0].answers, claim))
          && t.log[k] == s.log[k] + [Sent(s.now, p), Claimed(after[0], s.names)])
    && (b.state == ANNOUNCE_1 || b.state == ANNOUNCE_2 ==>
          && c == b.(state := b.state + 1) && t.log[k] == s.log[k]
          && after == Insert(before[1..], p.(sendAt := s.now + 1000)))
    && (b.state == ANNOUNCE_3 || b.state == RUNNING ==>
          && c == b.(state := RUNNING) && t.log[k] == s.log[k] && after == before[1..])
  }

  lemma InsertAt(q: seq<TxPacket>, p: TxPacket)
    requires Sorted(q)
    ensures Of(Insert(q, p), p.pair) == Insert(Of(q, p.pair), p)
    ensures forall j :: j != p.pair ==> Of(Insert(q, p), j) == Of(q, j)
  {
    OfInsert(q, p, p.pair);
    forall j | j != p.pair
      ensures Of(Insert(q, p), j) == Of(q, j)
    {
      OfInsert(q, p, j);
    }
  }

  lemma InsertIntoNone(p: TxPacket)
    ensures Insert([], p) == [p]
  {}

  /** The head is taken out. */
  lemma HeadOut(q: seq<TxPacket>)
    requires q != []
    ensures Of(q, q[0].pair) == [q[0]] + Of(q[1..], q[0].pair)
    ensures forall j :: j != q[0].pair ==> Of(q[1..], j) == Of(q, j)
  {}

  /** Both halves of a transmission at the queue: out at the head, in at its new time. */
  lemma HeadPutBack(q: seq<TxPacket>, p: TxPacket)
    requires q != [] && Sorted(q) && p.pair == q[0].pair
    ensures var r := Insert(q[1..], p);
            && Of(r, p.pair) == Insert(Of(q, p.pair)[1..], p)
            && forall j :: j != p.pair ==> Of(r, j) == Of(q, j)
  {
    hide Of, Insert;
    HeadOut(q);
    InsertAt(q[1..], p);
    assert Of(q, p.pair)[1..] == Of(q[1..], p.pair);
  }

  lemma ExecuteIs(s: Sys, d: Draw)
    requires s.Valid() && s.actions != [] && Sendable(s.queue, s.actions[0]) && s.queue[0].pair in s.pcbs
    requires s.pcbs[s.queue[0].pair].state > DUP
    ensures var p := s.queue[0].(queued := false); var taken := s.(actions := s.actions[1..], queue := s.queue[1..]);
            && p.pair in s.log
            && Execute(s, d)
               == Schedule(if s.pcbs[p.pair].InProbe() then Note(taken, p.pair, Sent(s.now, p)) else taken, p, d)
  {
    hide Schedule;
  }

  /** The control block and the queue behind Schedule, by state. */
  lemma ScheduleIs(s: Sys, p: TxPacket, d: Draw)
    requires p.pair in s.pcbs && p.pair in s.log
    ensures var k, b := p.pair, s.pcbs[p.pair]; var t := Schedule(s, p, d); var a := AnnounceFromProbe(d.id, p, s.names).(sendAt := s.now + 250);
            && (b.state == PROBE_1 ==>
                  t == s.(pcbs := s.pcbs[k := b.(state := PROBE_2)],
                          queue := Insert(s.queue, p.(sendAt := s.now + 250, questions := WithoutUnicast(p.questions)))))
            && (b.state == PROBE_2 ==>
                  t == s.(pcbs := s.pcbs[k := b.(state := PROBE_3)], queue := Insert(s.queue, p.(sendAt := s.now + 250))))
            && (b.state == PROBE_3 ==>
                  t == s.(pcbs := s.pcbs[k := Block(ANNOUNCE_1, [], false, false, 0)], queue := Insert(s.queue, a),
                          log := s.log[k := s.log[k] + [Claimed(a, s.names)]]))
            && (b.state == ANNOUNCE_1 || b.state == ANNOUNCE_2 ==>
                  t == s.(pcbs := s.pcbs[k := b.(state := b.state + 1)], queue := Insert(s.queue, p.(sendAt := s.now + 1000))))
            && (b.state == ANNOUNCE_3 ==> t == s.(pcbs := s.pcbs[k := b.(state := RUNNING)]))
            && (b.state == RUNNING ==> t == s)
  {
    hide AnnounceFromProbe, WithoutUnicast, Insert;
  }

  /** The pair's packets and all others behind Execute, by state. */
  lemma OtherPairsStay(s: Sys, t: Sys, p: TxPacket, q: seq<TxPacket>)
    requires s.Valid() && s.queue != [] && p.pair == s.queue[0].pair && p.pair in s.pcbs
    requires t.queue == q && forall j :: j != p.pair ==> Of(q, j) == Of(s.queue, j)
    requires forall j :: j in s.pcbs && j != p.pair ==> j in t.pcbs && t.pcbs[j] == s.pcbs[j]
    requires forall j :: j in s.log && j != p.pair ==> j in t.log && t.log[j] == s.log[j]
    ensures OthersStay(s, t, p.pair)
  {}

  lemma HeadOfPair(s: Sys)
    requires Inv(s) && s.queue != [] && s.queue[0].queued
    ensures var k := s.queue[0].pair;
            && s.Valid() && Sorted(s.queue) && k in s.pcbs && DUP < s.pcbs[k].state <= RUNNING && s.pcbs[k].state != INIT
            && (s.pcbs[k].InProbe() ==> Of(s.queue, k) == [s.queue[0]] && Of(s.queue[1..], k) == [])
            && (s.pcbs[k].state == PROBE_2 ==> AllUnicast(s.queue[0].questions, false))
  {
    hide Of;
    PresentIsReady(s, 0);
    var k := s.queue[0].pair;
    BlockOf(s, k);
    if s.pcbs[k].InProbe() {
      DueProbe(s, k);
    }
  }

  /** Sending does not ask, and repeats what was sent. */
  lemma ClearedRepeats(p: TxPacket, qs: seq<OutQuestion>, at: nat)
    requires qs == WithoutUnicast(p.questions) || (qs == p.questions && AllUnicast(p.questions, false))
    ensures Repeats(p, p.(sendAt := at, questions := qs), at)
  {
    StillAsked(p.questions);
  }

  /** What the invariant says about the packet that is sent. */
  ghost predicate AtHead(s: Sys, p: TxPacket) {
    && s.Valid() && s.queue != [] && s.queue[0] == p.(queued := true) && !p.queued && Sorted(s.queue)
    && p.pair in s.pcbs && p.pair in s.log && DUP < s.pcbs[p.pair].state <= RUNNING && s.pcbs[p.pair].state != INIT
    && (s.pcbs[p.pair].InProbe() ==> Of(s.queue, p.pair) == [s.queue[0]])
    && (s.pcbs[p.pair].state == PROBE_2 ==> AllUnicast(p.questions, false))
  }

  lemma ProbeGoesOn(s: Sys, rest: seq<nat>, p: TxPacket, d: Draw)
    requires AtHead(s, p) && (s.pcbs[p.pair].state == PROBE_1 || s.pcbs[p.pair].state == PROBE_2)
    ensures var t := Schedule(Note(s.(actions := rest, queue := s.queue[1..]), p.pair, Sent(s.now, p)), p, d);
            p.pair in t.pcbs && p.pair in t.log && GoesOn(s, t, p, d) && OthersStay(s, t, p.pair)
  {
    hide Schedule, WithoutUnicast, Insert, Of, Repeats, FollowsUp, Covers, Sorted, OthersStay, AnnounceFromProbe;
    var b := s.pcbs[p.pair];
    var sent := Note(s.(actions := rest, queue := s.queue[1..]), p.pair, Sent(s.now, p));
    ScheduleIs(sent, p, d);
    var qs := if b.state == PROBE_1 then WithoutUnicast(p.questions) else p.questions;
    var again := p.(sendAt := s.now + 250, questions := qs);
    ClearedRepeats(p, qs, s.now + 250);
    HeadPutBack(s.queue, again);
    InsertIntoNone(again);
    OtherPairsStay(s, Schedule(sent, p, d), p, Insert(s.queue[1..], again));
  }

  lemma ThirdGoesOn(s: Sys, rest: seq<nat>, p: TxPacket, d: Draw)
    requires AtHead(s, p) && s.pcbs[p.pair].state == PROBE_3
    ensures var t := Schedule(Note(s.(actions := rest, queue := s.queue[1..]), p.pair, Sent(s.now, p)), p, d);
            p.pair in t.pcbs && p.pair in t.log && GoesOn(s, t, p, d) && OthersStay(s, t, p.pair)
  {
    hide Schedule, AnnounceFromProbe, WithoutUnicast, Insert, Of, Repeats, FollowsUp, Covers, Sorted, Announces, OthersStay;
    var sent := Note(s.(actions := rest, queue := s.queue[1..]), p.pair, Sent(s.now, p));
    ScheduleIs(sent, p, d);
    var a := AnnounceFromProbe(d.id, p, s.names).(sendAt := s.now + 250);
    AnnouncementFollows(s, p, d.id, Sent(s.now, p));
    AnnouncesWhatWasProbed(d.id, p, s.names);
    HeadPutBack(s.queue, a);
    InsertIntoNone(a);
    var t := Schedule(sent, p, d);
    assert t.log[p.pair] == s.log[p.pair] + [Sent(s.now, p)] + [Claimed(a, s.names)];
    assert t.log[p.pair] == s.log[p.pair] + [Sent(s.now, p), Claimed(a, s.names)];
    OtherPairsStay(s, t, p, Insert(s.queue[1..], a));
  }

  lemma AnnouncementGoesOn(s: Sys, rest: seq<nat>, p: TxPacket, d: Draw)
    requires AtHead(s, p) && s.pcbs[p.pair].state > PROBE_3
    ensures var t := Schedule(s.(actions := rest, queue := s.queue[1..]), p, d);
            p.pair in t.pcbs && p.pair in t.log && GoesOn(s, t, p, d) && OthersStay(s, t, p.pair)
  {
    hide Schedule, WithoutUnicast, Insert, Of, Repeats, FollowsUp, Covers, Sorted, AnnounceFromProbe, OthersStay;
    var taken := s.(actions := rest, queue := s.queue[1..]);
    ScheduleIs(taken, p, d);
    HeadOut(s.queue);
    HeadPutBack(s.queue, p.(sendAt := s.now + 1000));
    assert Of(s.queue, p.pair)[1..] == Of(s.queue[1..], p.pair);
    var t := Schedule(taken, p, d);
    OtherPairsStay(s, t, p, t.queue);
  }

  /** Every packet that is sent, of whatever pair in whatever state. */
  lemma SentGoesOn(s: Sys, d: Draw)
    requires Inv(s) && s.Valid() && s.actions != [] && Sendable(s.queue, s.actions[0])
    ensures var p := s.queue[0].(queued := false); var t := Execute(s, d);
            && p.pair in s.pcbs && p.pair in s.log && p.pair in t.pcbs && p.pair in t.log
            && GoesOn(s, t, p, d) && OthersStay(s, t, p.pair)
  {
    hide Inv, Execute, Schedule, Of, GoesOn, OthersStay, Sorted;
    HeadOfPair(s);
    ExecuteIs(s, d);
    var p := s.queue[0].(queued := false);
    assert s.queue[0] == p.(queued := true);
    var b := s.pcbs[p.pair];
    if b.state == PROBE_3 {
      ThirdGoesOn(s, s.actions[1..], p, d);
    } else if b.InProbe() {
      ProbeGoesOn(s, s.actions[1..], p, d);
    } else {
      AnnouncementGoesOn(s, s.actions[1..], p, d);
    }
  }

  /** Over every run: whatever is sent next goes on in this way; an action for a packet that is
      not at the head any more does nothing. */
  lemma EveryTransmission(s: Sys, ops: seq<Op>, t: Sys, d: Draw)
    requires Initial(s) && Reaches(s, ops, t) && t.Valid() && Enabled(t, RunAction(d))
    ensures var u := Apply(t, RunAction(d));
            if Sendable(t.queue, t.actions[0]) then
              var p := t.queue[0].(queued := false);
              && p.pair in t.pcbs && p.pair in t.log && p.pair in u.pcbs && p.pair in u.log
              && GoesOn(t, u, p, d) && OthersStay(t, u, p.pair)
            else u == t.(actions := t.actions[1..])
  {
    hide Inv, GoesOn, OthersStay, Sys.Valid, Sendable;
    InitialOk(s);
    EveryStateOk(s, ops, t);
    if Sendable(t.queue, t.actions[0]) {
      SentGoesOn(t, d);
    } else {
      NotSent(t, d);
    }
  }

  lemma NotSent(s: Sys, d: Draw)
    requires s.Valid() && s.actions != [] && !Sendable(s.queue, s.actions[0])
    ensures Execute(s, d) == s.(actions := s.actions[1..])
  {}

  // ---------------------------------------------------------------- who claims

  /** The logs go on, without a claim. */
  ghost predicate NoClaim(s: Sys, t: Sys) {
    && t.log.Keys == s.log.Keys
    && forall k :: k in s.log ==> s.log[k] <= t.log[k] && forall i :: |s.log[k]| <= i < |t.log[k]| ==> !t.log[k][i].Claimed?
  }

  lemma NoClaimTwice(s: Sys, t: Sys, u: Sys)
    requires NoClaim(s, t) && NoClaim(t, u)
    ensures NoClaim(s, u)
  {
    forall k | k in s.log
      ensures s.log[k] <= u.log[k] && forall i :: |s.log[k]| <= i < |u.log[k]| ==> !u.log[k][i].Claimed?
    {
      assert forall i :: 0 <= i < |t.log[k]| ==> u.log[k][i] == t.log[k][i];
    }
  }

  lemma ProbeNoClaim(s: Sys, k: Pair, services: seq<nat>, ip: bool, d: Draw)
    requires k in s.pcbs && k in s.log
    ensures NoClaim(s, InitProbe(s, k, services, ip, d))
  {
    hide ProbePacket, Insert, ClearPair, Missing;
  }

  lemma AnnounceNoClaim(s: Sys, k: Pair, services: seq<nat>, ip: bool, d: Draw)
    requires k in s.pcbs && k in s.log
    ensures NoClaim(s, Announce(s, k, services, ip, d))
  {
    hide InitProbe, Extended, AnnouncePacket, Insert;
    ProbeNoClaim(s, k, services, ip, d);
  }

  lemma ReprobeNoClaim(s: Sys, k: Pair, services: seq<nat>, ip: bool, clearOld: bool, d: Draw)
    requires k in s.pcbs && k in s.log
    ensures NoClaim(s, Reprobe(s, k, services, ip, clearOld, d))
  {
    hide InitProbe;
    if k in s.ready {
      var c := if clearOld then Set(s, k, s.pcbs[k].(services := [], running := false)) else s;
      ProbeNoClaim(c, k, services, ip, d);
    }
  }

  lemma {:induction false} ReprobeAllNoClaim(s: Sys, ks: seq<Pair>, ds: seq<Draw>)
    requires |ks| == |ds| && forall k :: k in ks ==> k in s.pcbs && k in s.log
    ensures NoClaim(s, ReprobeAll(s, ks, ds))
    decreases |ks|
  {
    hide Reprobe, NoClaim;
    if ks == [] {
      NoClaimAtAll(s, s);
    } else {
      var t := Reprobe(s, ks[0], s.services, true, true, ds[0]);
      ReprobeNoClaim(s, ks[0], s.services, true, true, ds[0]);
      ReprobeAllNoClaim(t, ks[1..], ds[1..]);
      NoClaimTwice(s, t, ReprobeAll(s, ks, ds));
    }
  }

  lemma NoClaimAtAll(s: Sys, t: Sys)
    requires t.log == s.log
    ensures NoClaim(s, t)
  {}

  lemma EnableNoClaim(s: Sys, k: Pair, up: bool, d: Draw)
    requires k in s.pcbs && k in s.log
    ensures NoClaim(s, Enable(s, k, up, d))
  {
    hide InitProbe;
    ProbeNoClaim(s.(ready := s.ready + {k}), k, s.services, true, d);
  }

  lemma SilenceNoClaim(s: Sys, k: Pair)
    requires k in s.pcbs && s.Valid()
    ensures NoClaim(s, Silence(s, k))
  {
    hide ClearPair, Sys.Valid;
  }

  lemma HandOverNoClaim(s: Sys, k: Pair, up: bool, d: Draw)
    requires k in s.pcbs && s.Valid()
    ensures NoClaim(s, HandOver(s, k, up, d))
  {
    hide Enable, NoClaim;
    var o := Other(s, k);
    NoClaimAtAll(s, s);
    if o.Some? && s.pcbs[o.value].state == DUP {
      var idle := Set(s, o.value, s.pcbs[o.value].(state := OFF));
      NoClaimAtAll(s, idle);
      EnableNoClaim(idle, o.value, up, d);
      NoClaimTwice(s, idle, Enable(idle, o.value, up, d));
    }
  }

  lemma DisableNoClaim(s: Sys, k: Pair, up: bool, d: Draw)
    requires k in s.pcbs && s.Valid()
    ensures NoClaim(s, Disable(s, k, up, d))
  {
    hide NoClaim, HandOver, Silence, Sys.Valid;
    NoClaimAtAll(s, s);
    var done := s;
    if k in s.ready {
      done := HandOver(Silence(s, k), k, up, d);
      SilenceNoClaim(s, k);
      HandOverNoClaim(Silence(s, k), k, up, d);
      NoClaimTwice(s, Silence(s, k), done);
    }
    NoClaimAtAll(done, Disable(s, k, up, d));
    NoClaimTwice(s, done, Disable(s, k, up, d));
  }

  lemma GiveWayNoClaim(s: Sys, k: Pair)
    requires k in s.pcbs && s.Valid()
    ensures NoClaim(s, GiveWay(s, k))
  {
    hide NoClaim, Silence, Sys.Valid;
    var off := if k in s.ready then Silence(s, k) else s;
    NoClaimAtAll(s, s);
    SilenceNoClaim(s, k);
    NoClaimAtAll(off, GiveWay(s, k));
    NoClaimTwice(s, off, GiveWay(s, k));
  }

  lemma DuplicateNoClaim(s: Sys, k: Pair, d: Draw)
    requires k in s.pcbs && s.Valid()
    ensures NoClaim(s, SetDuplicate(s, k, d))
  {
    hide Announce, NoClaim;
    var o := Other(s, k);
    NoClaimAtAll(s, s);
    if o.Some? && o.value in s.ready {
      var off := GiveWay(s, k);
      GiveWayNoClaim(s, k);
      AnnounceNoClaim(off, o.value, [], true, d);
      NoClaimTwice(s, off, Announce(off, o.value, [], true, d));
    }
  }

  lemma {:induction false} RemoveNoClaim(s: Sys, svc: nat, i: nat)
    requires s.Valid() && i <= |s.queue|
    ensures NoClaim(s, RemoveFrom(s, svc, i))
    decreases |s.queue| - i
  {
    hide RemoveAt, NoClaim, Sys.Valid, Empty;
    if i == |s.queue| {
      NoClaimAtAll(s, s);
    } else {
      PairIsKnown(s, i);
      var one := RemoveAt(s, svc, i);
      RemoveValid(s, svc, i);
      RemoveAtNoClaim(s, svc, i);
      if Empty(one.queue[i]) {
        var u := one.(queue := one.queue[..i] + one.queue[i + 1..]);
        NoClaimInQueue(s, one, u);
        RemoveNoClaim(u, svc, i);
        NoClaimTwice(s, u, RemoveFrom(s, svc, i));
      } else {
        RemoveNoClaim(one, svc, i + 1);
        NoClaimTwice(s, one, RemoveFrom(s, svc, i));
      }
    }
  }

  lemma PairIsKnown(s: Sys, i: nat)
    requires s.Valid() && i < |s.queue|
    ensures s.queue[i].pair in s.pcbs && s.queue[i].pair in s.log
  {
    assert s.queue[i] in s.queue;
  }

  lemma NoClaimInQueue(s: Sys, t: Sys, u: Sys)
    requires NoClaim(s, t) && u == t.(queue := u.queue)
    ensures NoClaim(s, u)
  {}

  lemma RemoveAtNoClaim(s: Sys, svc: nat, i: nat)
    requires i < |s.queue| && s.queue[i].pair in s.pcbs && s.queue[i].pair in s.log
    ensures NoClaim(s, RemoveAt(s, svc, i))
  {
    hide CheckProbing, DropQuestion, Without;
  }

  lemma OnlySendingClaims(s: Sys, op: Op)
    requires s.Valid() && Enabled(s, op) && !op.RunAction?
    ensures NoClaim(s, Apply(s, op))
  {
    hide InitProbe, Announce, Reprobe, ReprobeAll, Enable, Disable, SetDuplicate, RemoveFrom, Mark, Insert;
    match op
    case DoEnable(k, up, d) => EnableNoClaim(s, k, up, d);
    case DoDisable(k, up, d) => DisableNoClaim(s, k, up, d);
    case DoAnnounce(k, services, ip, d) => AnnounceNoClaim(s, k, services, ip, d);
    case DoDuplicate(k, d) => DuplicateNoClaim(s, k, d);
    case DoProbe(k, services, ip, d) => ProbeNoClaim(s, k, services, ip, d);
    case DoReprobe(k, services, ip, clearOld, d) => ReprobeNoClaim(s, k, services, ip, clearOld, d);
    case DoRestart(ks, ds) => ReprobeAllNoClaim(s.(queue := []), ks, ds);
    case DoRemove(svc) => RemoveNoClaim(s, svc, 0);
    case _ =>
  }

  /** The step has noted a claim of the pair. */
  predicate NotesClaim(t: Sys, u: Sys, k: Pair) {
    k in t.log && k in u.log && |u.log[k]| > |t.log[k]| && u.log[k][|u.log[k]| - 1].Claimed?
  }

  /** The announcement that was noted last waits in the queue, and nothing else waits for that
      pair; it is for 250 ms after the third transmission, which is now, and announces exactly what
      that transmission claimed. */
  ghost predicate AnnouncementWaits(u: Sys, k: Pair) {
    && k in u.log && |u.log[k]| >= 2
    && var third, claimed := u.log[k][|u.log[k]| - 2], u.log[k][|u.log[k]| - 1];
       && third.Sent? && claimed.Claimed? && third.at == u.now && Of(u.queue, k) == [claimed.announcement]
       && claimed.announcement.sendAt == third.at + 250 && claimed.announcement.questions == []
       && Announces(claimed.announcement.answers, third.packet.servers, claimed.names)
       && forall c :: c in third.packet.servers ==> Covers(claimed.announcement.answers, c)
  }

  /** Over every run: whenever a step notes a claim, the announcement waits. */
  lemma ClaimIsAnnounced(s: Sys, ops: seq<Op>, t: Sys, op: Op, u: Sys, k: Pair)
    requires Initial(s) && Reaches(s, ops, t) && t.Valid() && Enabled(t, op) && u == Apply(t, op) && NotesClaim(t, u, k)
    ensures AnnouncementWaits(u, k)
  {
    hide Initial, Inv, Apply, Enabled, NoClaim, Reaches, AnnouncementWaits, Sys.Valid;
    if op.RunAction? {
      RunIs(t, op);
      InitialOk(s);
      EveryStateOk(s, ops, t);
      SentClaim(t, op.d, k);
    } else {
      OnlySendingClaims(t, op);
      LogHasNoClaim(t, u, k);
    }
  }

  lemma SentClaim(t: Sys, d: Draw, k: Pair)
    requires Inv(t) && t.Valid() && t.actions != [] && NotesClaim(t, Execute(t, d), k)
    ensures AnnouncementWaits(Execute(t, d), k)
  {
    hide Inv, OthersStay, Sys.Valid, GoesOn, Execute, AnnouncementWaits;
    NowStays(t, d);
    if Sendable(t.queue, t.actions[0]) {
      SentGoesOn(t, d);
      var p := t.queue[0].(queued := false);
      if k != p.pair {
        OtherLogStays(t, Execute(t, d), p.pair, k);
      } else {
        ClaimGoesOn(t, Execute(t, d), p, d);
      }
    } else {
      NotSent(t, d);
    }
  }

  lemma ClaimGoesOn(t: Sys, u: Sys, p: TxPacket, d: Draw)
    requires p.pair in t.pcbs && p.pair in t.log && p.pair in u.pcbs && p.pair in u.log && GoesOn(t, u, p, d)
    requires NotesClaim(t, u, p.pair) && u.now == t.now
    ensures AnnouncementWaits(u, p.pair)
  {
    hide Announces, Covers, Repeats;
  }

  lemma RunIs(t: Sys, op: Op)
    requires t.Valid() && Enabled(t, op) && op.RunAction?
    ensures op == RunAction(op.d) && t.actions != [] && Apply(t, op) == Execute(t, op.d)
  {}

  lemma OtherLogStays(s: Sys, t: Sys, k: Pair, j: Pair)
    requires OthersStay(s, t, k) && s.Valid() && j in s.log && j != k && j in t.log
    ensures t.log[j] == s.log[j]
  {}

  lemma NowStays(s: Sys, d: Draw)
    requires s.Valid() && s.actions != []
    ensures Execute(s, d).now == s.now
  {
    hide AnnounceFromProbe, WithoutUnicast, Insert;
  }

  lemma LogHasNoClaim(s: Sys, t: Sys, k: Pair)
    requires NoClaim(s, t) && k in s.log && k in t.log && |t.log[k]| > |s.log[k]|
    ensures !t.log[k][|t.log[k]| - 1].Claimed?
  {}
}
