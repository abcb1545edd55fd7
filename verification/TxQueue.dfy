/** The transmit queue of mdns_send.c: packets ordered by their time, the timer that hands due
    packets to the service task, and the service task's check before it sends. */
module TxQueue {
  import opened Bytes
  import opened Packets

  // ---------------------------------------------------------------- the operations on lists

  /** Behind every packet that is not later: mdns_priv_send_after. */
  function Insert(q: seq<TxPacket>, p: TxPacket): (r: seq<TxPacket>)
    ensures |r| == |q| + 1
  {
    if q == [] || q[0].sendAt > p.sendAt then [p] + q else [q[0]] + Insert(q[1..], p)
  }

  lemma InsertStep(q: seq<TxPacket>, at: nat, p: TxPacket)
    requires at + 1 < |q| && q[at].sendAt <= p.sendAt
    ensures q[..at] + Insert(q[at..], p) == q[..at + 1] + Insert(q[at + 1..], p)
  {
    var rest := Insert(q[at + 1..], p);
    assert q[at..][1..] == q[at + 1..];
    assert q[..at] + ([q[at]] + rest) == q[..at + 1] + rest;
  }

  lemma InsertHere(q: seq<TxPacket>, at: nat, p: TxPacket)
    requires at < |q| && q[at].sendAt <= p.sendAt && (at + 1 == |q| || q[at + 1].sendAt > p.sendAt)
    ensures q[..at] + Insert(q[at..], p) == q[..at + 1] + [p] + q[at + 1..]
  {
    assert q[at..][1..] == q[at + 1..];
    assert Insert(q[at + 1..], p) == [p] + q[at + 1..];
    assert q[..at] + ([q[at]] + ([p] + q[at + 1..])) == q[..at + 1] + [p] + q[at + 1..];
  }

  /** mdns_priv_clear_tx_queue_if. */
  function ClearPair(q: seq<TxPacket>, pair: Pair): seq<TxPacket> {
    if q == [] then []
    else if q[0].pair == pair then ClearPair(q[1..], pair)
    else [q[0]] + ClearPair(q[1..], pair)
  }

  /** mdns_priv_get_next_packet, as an index. */
  function NextOf(q: seq<TxPacket>, pair: Pair): (r: Option<nat>)
    ensures r.Some? ==> r.value < |q| && q[r.value].pair == pair
  {
    if q == [] then None
    else if q[0].pair == pair then Some(0)
    else
      var rest := NextOf(q[1..], pair);
      if rest == None then None else Some(rest.value + 1)
  }

  /** The packets of one pair, in order. */
  function Of(q: seq<TxPacket>, pair: Pair): seq<TxPacket> {
    if q == [] then []
    else if q[0].pair == pair then [q[0]] + Of(q[1..], pair)
    else Of(q[1..], pair)
  }

  /** The second loop of mdns_priv_send_packets: due packets from here on get an action each.
      oks says which of the actions the bounded action queue accepts (all, once it is used up). */
  function MarkDue(q: seq<TxPacket>, now: nat, oks: seq<bool>): (r: (seq<TxPacket>, seq<nat>))
    ensures |r.0| == |q|
  {
    if q == [] || q[0].sendAt >= now then (q, [])
    else
      var ok := oks == [] || oks[0];
      var rest := MarkDue(q[1..], now, if oks == [] then [] else oks[1..]);
      ([q[0].(queued := ok)] + rest.0, if ok then [q[0].id] + rest.1 else rest.1)
  }

  lemma MarkDueStep(q: seq<TxPacket>, i: nat, now: nat, oks: seq<bool>)
    requires i < |q| && q[i].sendAt < now
    ensures var ok := oks == [] || oks[0]; var r := q[i := q[i].(queued := ok)];
            q[..i] + MarkDue(q[i..], now, oks).0
            == r[..i + 1] + MarkDue(r[i + 1..], now, if oks == [] then [] else oks[1..]).0
  {
    var ok := oks == [] || oks[0];
    var r := q[i := q[i].(queued := ok)];
    assert q[i..][1..] == q[i + 1..] == r[i + 1..] && r[..i + 1] == q[..i] + [r[i]];
  }

  lemma MarkDueActions(actions: seq<nat>, q: seq<TxPacket>, i: nat, now: nat, oks: seq<bool>)
    requires i < |q| && q[i].sendAt < now
    ensures var ok := oks == [] || oks[0];
            actions + MarkDue(q[i..], now, oks).1
            == (if ok then actions + [q[i].id] else actions)
               + MarkDue(q[i + 1..], now, if oks == [] then [] else oks[1..]).1
  {
    assert q[i..][1..] == q[i + 1..];
  }

  /** mdns_priv_send_packets: past the packets already queued, then MarkDue. */
  function Mark(q: seq<TxPacket>, now: nat, oks: seq<bool>): (r: (seq<TxPacket>, seq<nat>))
    ensures |r.0| == |q|
  {
    if q != [] && q[0].queued then
      var rest := Mark(q[1..], now, oks);
      ([q[0]] + rest.0, rest.1)
    else MarkDue(q, now, oks)
  }

  lemma {:induction false} MarkSkips(q: seq<TxPacket>, i: nat, now: nat, oks: seq<bool>)
    requires i <= |q| && (forall k :: 0 <= k < i ==> q[k].queued) && (i < |q| ==> !q[i].queued)
    ensures Mark(q, now, oks) == (q[..i] + MarkDue(q[i..], now, oks).0, MarkDue(q[i..], now, oks).1)
    decreases i
  {
    if i == 0 {
      assert q[0..] == q && q[..0] + MarkDue(q, now, oks).0 == MarkDue(q, now, oks).0;
    } else {
      MarkSkips(q[1..], i - 1, now, oks);
      assert q[1..][i - 1..] == q[i..];
      var rest := MarkDue(q[i..], now, oks).0;
      assert [q[0]] + (q[1..][..i - 1] + rest) == q[..i] + rest;
    }
  }

  /** The test of send_packet. */
  predicate Sendable(q: seq<TxPacket>, id: nat) {
    q != [] && q[0].id == id && q[0].queued
  }

  // ---------------------------------------------------------------- the list in place

  class TransmitQueue {
    var packets: seq<TxPacket>
    var actions: seq<nat>

    constructor ()
      ensures packets == [] && actions == []
    {
      packets, actions := [], [];
    }

    method SendAfter(p: TxPacket, now: nat, msAfter: nat)
      modifies this`packets
      ensures packets == Insert(old(packets), p.(sendAt := now + msAfter))
    {
      var packet := p.(sendAt := now + msAfter);
      if packets == [] || packets[0].sendAt > packet.sendAt {
        packets := [packet] + packets;
        return;
      }
      var at := 0;
      ghost var result := Insert(packets, packet);
      assert packets[0..] == packets && [] + result == result;
      while at + 1 < |packets| && packets[at + 1].sendAt <= packet.sendAt
        invariant 0 <= at < |packets| && packets == old(packets) && packets[at].sendAt <= packet.sendAt
        invariant packets[..at] + Insert(packets[at..], packet) == result
      {
        InsertStep(packets, at, packet);
        at := at + 1;
      }
      InsertHere(packets, at, packet);
      packets := packets[..at + 1] + [packet] + packets[at + 1..];
    }

    /** mdns_priv_clear_tx_queue. */
    method ClearAll()
      modifies this`packets
      ensures packets == []
    {
      while packets != []
      {
        packets := packets[1..];
      }
    }

    method ClearFor(pair: Pair)
      modifies this`packets
      ensures packets == ClearPair(old(packets), pair)
    {
      while packets != [] && packets[0].pair == pair
        invariant ClearPair(packets, pair) == ClearPair(old(packets), pair)
        decreases |packets|
      {
        packets := packets[1..];
      }
      if packets != [] {
        var at := 0;
        while at + 1 < |packets|
          invariant 0 <= at < |packets|
          invariant packets[..at + 1] + ClearPair(packets[at + 1..], pair) == ClearPair(old(packets), pair)
          decreases |packets| - at
        {
          assert packets[at + 1..][1..] == packets[at + 2..];
          if packets[at + 1].pair == pair {
            ghost var before := packets;
            packets := packets[..at + 1] + packets[at + 2..];
            assert packets[..at + 1] == before[..at + 1] && packets[at + 1..] == before[at + 2..];
          } else {
            assert packets[..at + 2] == packets[..at + 1] + [packets[at + 1]];
            at := at + 1;
          }
        }
        assert packets[..at + 1] == packets;
      }
    }

    method FindNext(pair: Pair) returns (r: Option<nat>)
      ensures r == NextOf(packets, pair)
    {
      var i: nat := 0;
      while i < |packets|
        invariant 0 <= i <= |packets|
        invariant NextOf(packets, pair) == (var rest := NextOf(packets[i..], pair); if rest == None then None else Some(rest.value + i))
      {
        if packets[i].pair == pair {
          return Some(i);
        }
        assert packets[i..][1..] == packets[i + 1..];
        i := i + 1;
      }
      r := None;
    }

    /** mdns_priv_send_packets. */
    method SendPackets(now: nat, oks: seq<bool>)
      modifies this
      ensures packets == Mark(old(packets), now, oks).0
      ensures actions == old(actions) + Mark(old(packets), now, oks).1
    {
      var i := 0;
      while i < |packets| && packets[i].queued
        invariant 0 <= i <= |packets| && packets == old(packets) && actions == old(actions)
        invariant forall k :: 0 <= k < i ==> packets[k].queued
      {
        i := i + 1;
      }
      MarkSkips(packets, i, now, oks);
      if i == |packets| {
        assert packets[..i] + [] == packets && actions + [] == actions;
        return;
      }
      MarkRest(i, now, oks);
    }

    method MarkRest(first: nat, now: nat, oks: seq<bool>)
      requires first <= |packets|
      modifies this
      ensures packets == old(packets)[..first] + MarkDue(old(packets)[first..], now, oks).0
      ensures actions == old(actions) + MarkDue(old(packets)[first..], now, oks).1
    {
      ghost var due := MarkDue(packets[first..], now, oks);
      var i, left := first, oks;
      assert packets[..first] + due.0 == packets[..i] + MarkDue(packets[i..], now, left).0;
      while i < |packets| && packets[i].sendAt < now
        invariant first <= i <= |packets|
        invariant packets[..i] + MarkDue(packets[i..], now, left).0 == old(packets)[..first] + due.0
        invariant actions + MarkDue(packets[i..], now, left).1 == old(actions) + due.1
      {
        var ok := left == [] || left[0];
        MarkDueStep(packets, i, now, left);
        MarkDueActions(actions, packets, i, now, left);
        if ok {
          actions := actions + [packets[i].id];
        }
        packets := packets[i := packets[i].(queued := ok)];
        left := if left == [] then [] else left[1..];
        i := i + 1;
      }
      assert MarkDue(packets[i..], now, left) == (packets[i..], []);
      assert packets[..i] + packets[i..] == packets;
      assert actions + [] == actions;
    }

    /** The head of send_packet: the packet leaves the queue only if it is at the head and was
        handed over; its mark is cleared because it may be sent again. */
    method Take(id: nat) returns (p: Option<TxPacket>)
      modifies this`packets
      ensures if Sendable(old(packets), id)
              then p == Some(old(packets)[0].(queued := false)) && packets == old(packets)[1..]
              else p == None && packets == old(packets)
    {
      if packets != [] && packets[0].id == id && packets[0].queued {
        p := Some(packets[0].(queued := false));
        packets := packets[1..];
      } else {
        p := None;
      }
    }

    /** The service task takes up the next action. */
    method NextAction() returns (id: nat)
      requires actions != []
      modifies this`actions
      ensures id == old(actions)[0] && actions == old(actions)[1..]
    {
      id := actions[0];
      actions := actions[1..];
    }

    /** A packet is changed where it waits. */
    method Replace(i: nat, p: TxPacket)
      requires i < |packets|
      modifies this`packets
      ensures packets == old(packets)[i := p]
    {
      packets := packets[i := p];
    }

    /** queueDetach. */
    method Detach(i: nat)
      requires i < |packets|
      modifies this`packets
      ensures packets == old(packets)[..i] + old(packets)[i + 1..]
    {
      packets := packets[..i] + packets[i + 1..];
    }
  }

  // ---------------------------------------------------------------- order

  predicate Sorted(q: seq<TxPacket>) {
    forall i, j :: 0 <= i < j < |q| ==> q[i].sendAt <= q[j].sendAt
  }

  /** Handed over means due. */
  predicate QueuedIsDue(q: seq<TxPacket>, now: nat) {
    forall p :: p in q && p.queued ==> p.sendAt < now
  }

  predicate DistinctIds(q: seq<TxPacket>) {
    forall i, j :: 0 <= i < j < |q| ==> q[i].id != q[j].id
  }

  ghost predicate QueueOk(q: seq<TxPacket>, now: nat) {
    Sorted(q) && QueuedIsDue(q, now) && DistinctIds(q)
  }

  predicate IdUnused(q: seq<TxPacket>, id: nat) {
    forall p :: p in q ==> p.id != id
  }

  /** Where a packet is put: everything before it is not later, everything behind it is
      strictly later.  So packets for the same time stay in the order of their insertion. */
  lemma {:induction false} InsertPlace(q: seq<TxPacket>, p: TxPacket) returns (at: nat)
    requires Sorted(q)
    ensures at <= |q| && Insert(q, p) == q[..at] + [p] + q[at..]
    ensures forall i :: 0 <= i < at ==> q[i].sendAt <= p.sendAt
    ensures forall i :: at <= i < |q| ==> q[i].sendAt > p.sendAt
    decreases |q|
  {
    if q == [] || q[0].sendAt > p.sendAt {
      at := 0;
    } else {
      var rest := InsertPlace(q[1..], p);
      at := rest + 1;
      assert q[..at] == [q[0]] + q[1..][..rest] && q[at..] == q[1..][rest..];
      forall i | 0 <= i < at
        ensures q[i].sendAt <= p.sendAt
      {
        assert i > 0 ==> q[i] == q[1..][i - 1];
      }
      forall i | at <= i < |q|
        ensures q[i].sendAt > p.sendAt
      {
        assert q[i] == q[1..][i - 1];
      }
    }
  }

  lemma {:induction false} InsertMembers(q: seq<TxPacket>, p: TxPacket, x: TxPacket)
    ensures x in Insert(q, p) <==> x in q || x == p
    decreases |q|
  {
    if q != [] && q[0].sendAt <= p.sendAt {
      InsertMembers(q[1..], p, x);
    }
  }

  lemma InsertOk(q: seq<TxPacket>, p: TxPacket, now: nat)
    requires QueueOk(q, now) && IdUnused(q, p.id) && !p.queued
    ensures QueueOk(Insert(q, p), now)
  {
    var r := Insert(q, p);
    forall x | x in r && x.queued
      ensures x.sendAt < now
    {
      InsertMembers(q, p, x);
    }
    var at := InsertPlace(q, p);
    InsertedOrder(q, at, p, r);
  }

  lemma InsertedOrder(q: seq<TxPacket>, at: nat, p: TxPacket, r: seq<TxPacket>)
    requires at <= |q| && r == q[..at] + [p] + q[at..]
    requires Sorted(q) && DistinctIds(q) && IdUnused(q, p.id)
    requires forall i :: 0 <= i < at ==> q[i].sendAt <= p.sendAt
    requires forall i :: at <= i < |q| ==> q[i].sendAt > p.sendAt
    ensures Sorted(r) && DistinctIds(r)
  {
    forall i, j | 0 <= i < j < |r|
      ensures r[i].sendAt <= r[j].sendAt && r[i].id != r[j].id
    {
      var x := if i < at then i else i - 1;
      var y := if j < at then j else j - 1;
      if i == at {
        assert r[j] == q[y] && q[y] in q;
      } else if j == at {
        assert r[i] == q[x] && q[x] in q;
      } else {
        assert r[i] == q[x] && r[j] == q[y] && x < y;
      }
    }
  }

  /** A list whose elements keep their order and identity. */
  ghost predicate Sublist(r: seq<TxPacket>, q: seq<TxPacket>)
    decreases |q|
  {
    r == [] || (q != [] && ((r[0] == q[0] && Sublist(r[1..], q[1..])) || Sublist(r, q[1..])))
  }

  lemma {:induction false} SublistMembers(r: seq<TxPacket>, q: seq<TxPacket>, p: TxPacket)
    requires Sublist(r, q) && p in r
    ensures p in q
    decreases |q|
  {
    if r[0] == q[0] && Sublist(r[1..], q[1..]) {
      if p != r[0] {
        SublistMembers(r[1..], q[1..], p);
      }
    } else {
      SublistMembers(r, q[1..], p);
    }
  }

  lemma {:induction false} SublistOk(r: seq<TxPacket>, q: seq<TxPacket>, now: nat)
    requires Sublist(r, q) && QueueOk(q, now)
    ensures QueueOk(r, now)
    decreases |q|
  {
    if r != [] {
      TailOk(q, now);
      if r[0] == q[0] && Sublist(r[1..], q[1..]) {
        SublistOk(r[1..], q[1..], now);
        forall p | p in r[1..]
          ensures r[0].sendAt <= p.sendAt && r[0].id != p.id
        {
          SublistMembers(r[1..], q[1..], p);
        }
        assert r[0] in q;
        HeadOk(r, now);
      } else {
        SublistOk(r, q[1..], now);
      }
    }
  }

  lemma HeadOk(r: seq<TxPacket>, now: nat)
    requires r != [] && QueueOk(r[1..], now) && (r[0].queued ==> r[0].sendAt < now)
    requires forall p :: p in r[1..] ==> r[0].sendAt <= p.sendAt && r[0].id != p.id
    ensures QueueOk(r, now)
  {
    forall i, j | 0 <= i < j < |r|
      ensures r[i].sendAt <= r[j].sendAt && r[i].id != r[j].id
    {
      assert r[j] == r[1..][j - 1];
      if i > 0 {
        assert r[i] == r[1..][i - 1];
      }
    }
    assert forall p :: p in r ==> p == r[0] || p in r[1..];
  }

  lemma TailOk(q: seq<TxPacket>, now: nat)
    requires QueueOk(q, now) && q != []
    ensures QueueOk(q[1..], now) && forall p :: p in q[1..] ==> p.id != q[0].id && q[0].sendAt <= p.sendAt
  {
    forall p | p in q[1..]
      ensures p.id != q[0].id && q[0].sendAt <= p.sendAt
    {
      var k :| 0 <= k < |q[1..]| && q[1..][k] == p;
      assert q[k + 1] == p;
    }
  }

  lemma {:induction false} ClearIsSublist(q: seq<TxPacket>, pair: Pair)
    ensures Sublist(ClearPair(q, pair), q)
    ensures forall p :: p in ClearPair(q, pair) <==> p in q && p.pair != pair
    decreases |q|
  {
    if q != [] {
      ClearIsSublist(q[1..], pair);
    }
  }

  /** The timer changes nothing but marks, and marks nothing that is not due. */
  lemma {:induction false} MarkDueOk(q: seq<TxPacket>, now: nat, oks: seq<bool>)
    ensures var r := MarkDue(q, now, oks).0;
            && (forall i :: 0 <= i < |q| ==> r[i].(queued := false) == q[i].(queued := false))
            && (forall i :: 0 <= i < |q| && r[i].queued && r[i] != q[i] ==> r[i].sendAt < now)
    ensures forall id :: id in MarkDue(q, now, oks).1 ==> exists p :: p in MarkDue(q, now, oks).0 && p.id == id && p.queued
    decreases |q|
  {
    if q != [] && q[0].sendAt < now {
      var ok := oks == [] || oks[0];
      var next := if oks == [] then [] else oks[1..];
      MarkDueOk(q[1..], now, next);
      var r := MarkDue(q, now, oks);
      var rest := MarkDue(q[1..], now, next);
      forall i | 0 <= i < |q|
        ensures r.0[i].(queued := false) == q[i].(queued := false)
        ensures r.0[i].queued && r.0[i] != q[i] ==> r.0[i].sendAt < now
      {
        if i > 0 {
          assert r.0[i] == rest.0[i - 1] && q[i] == q[1..][i - 1];
        }
      }
      forall id | id in r.1
        ensures exists p :: p in r.0 && p.id == id && p.queued
      {
        if id in rest.1 {
          var p :| p in rest.0 && p.id == id && p.queued;
          assert p in r.0;
        } else {
          assert r.0[0] in r.0;
        }
      }
    }
  }

  lemma {:induction false} MarkOk(q: seq<TxPacket>, now: nat, oks: seq<bool>)
    ensures var r := Mark(q, now, oks).0;
            && (forall i :: 0 <= i < |q| ==> r[i].(queued := false) == q[i].(queued := false))
            && (forall i :: 0 <= i < |q| && r[i].queued && r[i] != q[i] ==> r[i].sendAt < now)
    decreases |q|
  {
    if q != [] && q[0].queued {
      MarkOk(q[1..], now, oks);
      var r := Mark(q, now, oks).0;
      forall i | 0 <= i < |q|
        ensures r[i].(queued := false) == q[i].(queued := false)
        ensures r[i].queued && r[i] != q[i] ==> r[i].sendAt < now
      {
        if i > 0 {
          assert r[i] == Mark(q[1..], now, oks).0[i - 1] && q[i] == q[1..][i - 1];
        }
      }
    } else {
      MarkDueOk(q, now, oks);
    }
  }

  lemma MarkKeepsOk(q: seq<TxPacket>, now: nat, oks: seq<bool>)
    requires QueueOk(q, now)
    ensures QueueOk(Mark(q, now, oks).0, now)
  {
    MarkOk(q, now, oks);
    var r := Mark(q, now, oks).0;
    forall i | 0 <= i < |q|
      ensures r[i].sendAt == q[i].sendAt && r[i].id == q[i].id
    {
      assert r[i].(queued := false) == q[i].(queued := false);
    }
    forall p | p in r && p.queued
      ensures p.sendAt < now
    {
      var i :| 0 <= i < |r| && r[i] == p;
      if r[i] == q[i] {
        assert q[i] in q;
      }
    }
  }

  /** Whatever leaves the queue to be sent is due, and nothing in the queue is earlier. */
  lemma SentIsDueAndFirst(q: seq<TxPacket>, now: nat, id: nat)
    requires QueueOk(q, now) && Sendable(q, id)
    ensures q[0].sendAt < now && forall p :: p in q ==> q[0].sendAt <= p.sendAt
    ensures QueueOk(q[1..], now) && IdUnused(q[1..], q[0].id)
  {
    assert q[0] in q;
    TailOk(q, now);
  }

  /** Packet j is due, and the action queue takes it. */
  predicate HandedOver(q: seq<TxPacket>, now: nat, oks: seq<bool>, j: nat)
    requires j < |q|
  {
    q[j].sendAt < now && (j >= |oks| || oks[j])
  }

  lemma {:induction false} DueExactly(q: seq<TxPacket>, now: nat, oks: seq<bool>, j: nat)
    requires Sorted(q) && j < |q|
    ensures MarkDue(q, now, oks).0[j] == if q[j].sendAt < now then q[j].(queued := HandedOver(q, now, oks, j)) else q[j]
    decreases |q|
  {
    if q[0].sendAt < now && j > 0 {
      DueExactly(q[1..], now, if oks == [] then [] else oks[1..], j - 1);
    }
  }

  lemma {:induction false} DueActions(q: seq<TxPacket>, now: nat, oks: seq<bool>, id: nat)
    requires Sorted(q)
    ensures id in MarkDue(q, now, oks).1 <==> exists j :: 0 <= j < |q| && HandedOver(q, now, oks, j) && q[j].id == id
    decreases |q|
  {
    if q != [] && q[0].sendAt < now {
      var next, rest := if oks == [] then [] else oks[1..], q[1..];
      DueActions(rest, now, next, id);
      forall j | 0 <= j < |rest|
        ensures HandedOver(rest, now, next, j) == HandedOver(q, now, oks, j + 1) && rest[j].id == q[j + 1].id
      {}
      if exists j :: 0 <= j < |q| && HandedOver(q, now, oks, j) && q[j].id == id {
        var j :| 0 <= j < |q| && HandedOver(q, now, oks, j) && q[j].id == id;
        assert j > 0 ==> rest[j - 1].id == id && HandedOver(rest, now, next, j - 1);
      }
    }
  }

  /** What a run of the timer does when the first i packets have been handed over before: those
      stay as they are, and so does a packet that is not due; any other is handed over just if the
      action queue takes it. */
  lemma MarkedExactly(q: seq<TxPacket>, now: nat, oks: seq<bool>, i: nat, j: nat)
    requires Sorted(q) && i <= |q| && (forall k :: 0 <= k < i ==> q[k].queued) && (i < |q| ==> !q[i].queued) && j < |q|
    ensures Mark(q, now, oks).0[j] ==
            if j < i || q[j].sendAt >= now then q[j] else q[j].(queued := j - i >= |oks| || oks[j - i])
  {
    hide Mark, MarkDue, Sorted;
    MarkSkips(q, i, now, oks);
    if j >= i {
      SortedBehind(q, i);
      DueExactly(q[i..], now, oks, j - i);
      assert q[j] == q[i..][j - i];
    }
  }

  lemma SortedBehind(q: seq<TxPacket>, i: nat)
    requires Sorted(q) && i <= |q|
    ensures Sorted(q[i..])
  {}

  /** Just the packets that are handed over get an action. */
  lemma ActionsExactly(q: seq<TxPacket>, now: nat, oks: seq<bool>, i: nat, id: nat)
    requires Sorted(q) && i <= |q| && (forall k :: 0 <= k < i ==> q[k].queued) && (i < |q| ==> !q[i].queued)
    ensures id in Mark(q, now, oks).1 <==> exists k :: 0 <= k < |q[i..]| && HandedOver(q[i..], now, oks, k) && q[i..][k].id == id
  {
    hide Mark, MarkDue, Sorted;
    MarkSkips(q, i, now, oks);
    SortedBehind(q, i);
    DueActions(q[i..], now, oks, id);
  }
}
