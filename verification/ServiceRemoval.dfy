/** What is left of the transmit queue and of the probes when a service is removed
    (mdns_priv_remove_scheduled_service_packets). */
module ServiceRemoval {
  import opened Bytes
  import opened Packets
  import opened TxQueue
  import opened QueueByPair
  import opened Pcb
  import opened ProbeDiscipline
  import opened ProbeSteps

  /** The pair claims the service right now, so that a question about it has to go. */
  predicate Claiming(s: Sys, k: Pair, svc: nat) {
    k in s.ready && k in s.pcbs && s.pcbs[k].InProbe() && svc in s.pcbs[k].services
  }

  /** What should become of one packet. */
  function Cleaned(s: Sys, p: TxPacket, svc: nat): TxPacket {
    var q := p.(answers := Without(p.answers, svc), servers := Without(p.servers, svc),
                additional := Without(p.additional, svc));
    if Claiming(s, p.pair, svc) then q.(questions := DropQuestion(p.questions, s.types, svc)) else q
  }

  /** What should become of the queue: every packet is cleaned, those with nothing left are gone,
      the others stay in order. */
  function CleanedQueue(s: Sys, q: seq<TxPacket>, svc: nat): seq<TxPacket>
    decreases |q|
  {
    if q == [] then []
    else
      var p := Cleaned(s, q[0], svc);
      (if Empty(p) then [] else [p]) + CleanedQueue(s, q[1..], svc)
  }

  lemma {:induction false} SameClaims(s: Sys, t: Sys, q: seq<TxPacket>, svc: nat)
    requires s.types == t.types && forall p :: p in q ==> (Claiming(s, p.pair, svc) <==> Claiming(t, p.pair, svc))
    ensures CleanedQueue(s, q, svc) == CleanedQueue(t, q, svc)
    decreases |q|
  {
    if q != [] {
      assert q[0] in q;
      SameClaims(s, t, q[1..], svc);
    }
  }

  /** A pair that claims anything has a single packet waiting. */
  lemma ClaimIsAlone(s: Sys, i: nat, j: nat, svc: nat)
    requires Inv(s) && i < j < |s.queue| && s.queue[i].pair == s.queue[j].pair
    ensures !Claiming(s, s.queue[i].pair, svc)
  {
    var k := s.queue[i].pair;
    assert s.queue[i] in s.queue && PairOk(s, k);
    TwoOf(s.queue, i, j);
  }

  lemma {:induction false} TwoOf(q: seq<TxPacket>, i: nat, j: nat)
    requires i < j < |q| && q[i].pair == q[j].pair
    ensures |Of(q, q[i].pair)| >= 2
    decreases |q|
  {
    if i == 0 {
      OfMembers(q[1..], q[0].pair, q[j]);
      assert q[j] == q[1..][j - 1];
    } else {
      TwoOf(q[1..], i - 1, j - 1);
    }
  }

  lemma RemoveAtCleans(s: Sys, svc: nat, i: nat)
    requires Inv(s) && i < |s.queue|
    ensures s.queue[i].pair in s.pcbs && s.queue[i].pair in s.log
    ensures var t := RemoveAt(s, svc, i);
            && t.queue == s.queue[i := Cleaned(s, s.queue[i], svc)] && t.types == s.types && t.ready == s.ready
            && t.pcbs.Keys == s.pcbs.Keys
            && (forall k :: k in s.pcbs && k != s.queue[i].pair ==> t.pcbs[k] == s.pcbs[k])
  {
    hide Inv, Without, DropQuestion, Distinct, BlockOk, CheckProbing;
    var k := s.queue[i].pair;
    PresentIsReady(s, i);
    BlockOf(s, k);
    ChecksIfClaiming(s.pcbs[k], svc, s.queue[i].answers != [] && Stripped(s.queue[i], svc).answers == []);
  }

  /** The question goes exactly if the service is being claimed. */
  lemma ChecksIfClaiming(b: Block, svc: nat, removedAnswers: bool)
    requires BlockOk(b) && b.state > DUP
    ensures CheckProbing(b, svc, removedAnswers).1 <==> b.InProbe() && svc in b.services
  {}

  lemma LaterClaimsStay(s: Sys, svc: nat, i: nat)
    requires Inv(s) && i < |s.queue| && s.queue[i].pair in s.pcbs && Inv(RemoveAt(s, svc, i))
    ensures forall p :: p in s.queue[i + 1..] ==> (Claiming(s, p.pair, svc) <==> Claiming(RemoveAt(s, svc, i), p.pair, svc))
  {
    hide RemoveAt, Inv;
    InvGives(s);
    RemoveAtCleans(s, svc, i);
    var t := RemoveAt(s, svc, i);
    forall p | p in s.queue[i + 1..]
      ensures Claiming(s, p.pair, svc) <==> Claiming(t, p.pair, svc)
    {
      var j :| 0 <= j < |s.queue[i + 1..]| && s.queue[i + 1..][j] == p;
      if p.pair == s.queue[i].pair {
        ClaimIsAlone(s, i, i + 1 + j, svc);
        ClaimIsAlone(t, i, i + 1 + j, svc);
      } else {
        assert s.queue[i + 1 + j] in s.queue;
      }
    }
  }

  /** One turn of the loop. */
  lemma RemoveTurn(s: Sys, svc: nat, i: nat)
    requires Inv(s) && s.Valid() && i < |s.queue|
    ensures s.queue[i].pair in s.pcbs && s.queue[i].pair in s.log
    ensures var t := RemoveAt(s, svc, i); var u := t.(queue := t.queue[..i] + t.queue[i + 1..]);
            && Inv(t) && t.Valid() && u.Valid() && (Empty(t.queue[i]) ==> Inv(u))
            && RemoveFrom(s, svc, i) == if Empty(t.queue[i]) then RemoveFrom(u, svc, i) else RemoveFrom(t, svc, i + 1)
  {
    hide Inv, RemoveAt, Empty;
    RemoveAtKeepsInv(s, svc, i);
    RemoveAtCleans(s, svc, i);
    var t := RemoveAt(s, svc, i);
    InvGives(t);
    RemoveValid(s, svc, i);
    RemoveAtPair(s, svc, i);
    if Empty(t.queue[i]) {
      PacketGone(t, i);
    }
  }

  /** The loop arrives at exactly the cleaned queue. */
  lemma {:induction false} RemoveCleans(s: Sys, svc: nat, i: nat)
    requires Inv(s) && s.Valid() && i <= |s.queue|
    ensures RemoveFrom(s, svc, i).queue == s.queue[..i] + CleanedQueue(s, s.queue[i..], svc)
    decreases |s.queue| - i
  {
    hide Inv, Sys.Valid, RemoveAt, Cleaned, Claiming, Empty;
    if i < |s.queue| {
      RemoveTurn(s, svc, i);
      RemoveAtCleans(s, svc, i);
      LaterClaimsStay(s, svc, i);
      var t := RemoveAt(s, svc, i);
      var rest := s.queue[i + 1..];
      SameClaims(s, t, rest, svc);
      assert s.queue[i..][1..] == rest && t.queue[i + 1..] == rest && t.queue[..i] == s.queue[..i];
      if Empty(t.queue[i]) {
        var u := t.(queue := t.queue[..i] + rest);
        RemoveCleans(u, svc, i);
        assert u.queue[..i] == s.queue[..i] && u.queue[i..] == rest;
        ClaimsInQueue(t, u, rest, svc);
      } else {
        RemoveCleans(t, svc, i + 1);
        assert t.queue[..i + 1] == s.queue[..i] + [t.queue[i]];
      }
    }
  }

  /** What is claimed does not depend on the queue. */
  lemma ClaimsInQueue(t: Sys, u: Sys, q: seq<TxPacket>, svc: nat)
    requires u == t.(queue := u.queue)
    ensures CleanedQueue(t, q, svc) == CleanedQueue(u, q, svc)
  {}

  /** Removing a service filters the queue, and does nothing else to it. */
  lemma RemovalFiltersQueue(s: Sys, svc: nat)
    requires Inv(s)
    ensures RemoveService(s, svc).queue == CleanedQueue(s, s.queue, svc)
  {
    RemoveCleans(s, svc, 0);
    assert s.queue[0..] == s.queue && s.queue[..0] == [];
  }

  ghost predicate RefersTo(p: TxPacket, svc: nat) {
    exists a :: (a in p.answers || a in p.servers || a in p.additional) && a.service == Some(svc)
  }

  lemma {:induction false} CleanedMembers(s: Sys, q: seq<TxPacket>, svc: nat, p: TxPacket)
    ensures p in CleanedQueue(s, q, svc) <==> !Empty(p) && exists o :: o in q && Cleaned(s, o, svc) == p
    decreases |q|
  {
    if q != [] {
      CleanedMembers(s, q[1..], svc, p);
      if exists o :: o in q && Cleaned(s, o, svc) == p {
        var o :| o in q && Cleaned(s, o, svc) == p;
        assert o == q[0] || o in q[1..];
      }
    }
  }

  /** Afterwards no list entry of any waiting packet refers to the service, and no packet is
      empty. */
  lemma NothingRefersToRemoved(s: Sys, svc: nat, p: TxPacket)
    requires Inv(s) && p in RemoveService(s, svc).queue
    ensures !RefersTo(p, svc) && !Empty(p)
  {
    hide Inv, RemoveFrom, Claiming, DropQuestion, Without;
    RemovalFiltersQueue(s, svc);
    CleanedMembers(s, s.queue, svc, p);
    forall a | a in p.answers || a in p.servers || a in p.additional
      ensures a.service != Some(svc)
    {
      var o :| o in s.queue && Cleaned(s, o, svc) == p;
      WithoutMembers(o.answers, svc, a);
      WithoutMembers(o.servers, svc, a);
      WithoutMembers(o.additional, svc, a);
    }
  }

  // ---------------------------------------------------------------- the probes

  /** The blocks afterwards: no ready pair claims the service any more, and each keeps claiming
      all others; a pair that is not ready was left as it was. */
  ghost predicate Forgotten(s: Sys, t: Sys, k: Pair, svc: nat)
    requires k in s.pcbs && k in t.pcbs
  {
    if k in s.ready then forall x :: x in t.pcbs[k].services <==> x in s.pcbs[k].services && x != svc
    else t.pcbs[k] == s.pcbs[k]
  }

  lemma RemoveAtForgets(s: Sys, svc: nat, i: nat)
    requires Inv(s) && i < |s.queue| && s.queue[i].pair in s.pcbs
    ensures var k := s.queue[i].pair; var t := RemoveAt(s, svc, i);
            k in t.pcbs && if k !in s.ready then t.pcbs[k] == s.pcbs[k] else forall x :: x in t.pcbs[k].services <==> x in s.pcbs[k].services && x != svc
  {
    var p := s.queue[i];
    assert PairOk(s, p.pair);
    if p.pair in s.ready {
      CheckProbingOk(s.pcbs[p.pair], svc, p.answers != [] && Stripped(p, svc).answers == []);
    }
  }

  ghost predicate WaitsFrom(q: seq<TxPacket>, i: nat, k: Pair) {
    exists j :: i <= j < |q| && q[j].pair == k
  }

  lemma {:induction false} RemoveForgets(s: Sys, svc: nat, i: nat, k: Pair)
    requires Inv(s) && s.Valid() && i <= |s.queue| && k in s.pcbs
    ensures var t := RemoveFrom(s, svc, i);
            && k in t.pcbs
            && (if k in s.ready && WaitsFrom(s.queue, i, k) then
                  forall x :: x in t.pcbs[k].services <==> x in s.pcbs[k].services && x != svc
                else t.pcbs[k] == s.pcbs[k])
    decreases |s.queue| - i
  {
    hide Inv, Sys.Valid, RemoveAt, Claiming, Empty, WaitsFrom;
    if i < |s.queue| {
      RemoveTurn(s, svc, i);
      RemoveAtCleans(s, svc, i);
      var t := RemoveAt(s, svc, i);
      var u := t.(queue := t.queue[..i] + t.queue[i + 1..]);
      RemoveAtForgets(s, svc, i);
      if Empty(t.queue[i]) {
        RemoveForgets(u, svc, i, k);
      } else {
        RemoveForgets(t, svc, i + 1, k);
      }
      LaterPairs(s.queue, t.queue, u.queue, i, k);
    } else {
      NoneLeft(s.queue, k);
    }
  }

  lemma NoneLeft(q: seq<TxPacket>, k: Pair)
    ensures !WaitsFrom(q, |q|, k)
  {}

  lemma LaterPairs(q: seq<TxPacket>, r: seq<TxPacket>, u: seq<TxPacket>, i: nat, k: Pair)
    requires i < |q| == |r| && u == r[..i] + r[i + 1..]
    requires forall j :: 0 <= j < |q| ==> r[j].pair == q[j].pair
    ensures WaitsFrom(q, i, k) <==> q[i].pair == k || WaitsFrom(q, i + 1, k)
    ensures WaitsFrom(r, i + 1, k) <==> WaitsFrom(q, i + 1, k)
    ensures WaitsFrom(u, i, k) <==> WaitsFrom(q, i + 1, k)
  {
    if WaitsFrom(u, i, k) {
      var j :| i <= j < |u| && u[j].pair == k;
      assert u[j] == r[j + 1] && q[j + 1].pair == k;
    }
    if WaitsFrom(q, i + 1, k) {
      var j :| i + 1 <= j < |q| && q[j].pair == k;
      assert u[j - 1] == r[j] && r[j].pair == k;
    }
    if WaitsFrom(r, i + 1, k) {
      var j :| i + 1 <= j < |r| && r[j].pair == k;
      assert q[j].pair == k;
    }
  }

  /** A ready pair that claims anything has a packet waiting. */
  lemma ClaimWaits(s: Sys, k: Pair)
    requires Inv(s) && k in s.pcbs && s.pcbs[k].services != []
    ensures WaitsFrom(s.queue, 0, k)
  {
    assert PairOk(s, k);
    var list := Of(s.queue, k);
    OfMembers(s.queue, k, list[0]);
    var j :| 0 <= j < |s.queue| && s.queue[j] == list[0];
  }

  lemma RemovalForgetsService(s: Sys, svc: nat, k: Pair)
    requires Inv(s) && k in s.pcbs
    ensures k in RemoveService(s, svc).pcbs && Forgotten(s, RemoveService(s, svc), k, svc)
    ensures svc !in RemoveService(s, svc).pcbs[k].services
  {
    RemoveForgets(s, svc, 0, k);
    assert PairOk(s, k);
    if s.pcbs[k].services != [] {
      ClaimWaits(s, k);
    }
  }
}
