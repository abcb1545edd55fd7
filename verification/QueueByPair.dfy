/** What the operations on the transmit queue do to the packets of one (interface, protocol)
    pair. */
module QueueByPair {
  import opened Bytes
  import opened Packets
  import opened TxQueue

  /** The same packet for the same time, with the same questions and claims. */
  ghost predicate Keeps(p: TxPacket, o: TxPacket) {
    p.pair == o.pair && p.id == o.id && p.sendAt == o.sendAt && p.servers == o.servers && p.questions == o.questions
  }

  ghost predicate Similar(r: seq<TxPacket>, q: seq<TxPacket>) {
    |r| == |q| && forall i :: 0 <= i < |r| ==> Keeps(r[i], q[i])
  }

  lemma {:induction false} OfSimilar(r: seq<TxPacket>, q: seq<TxPacket>, k: Pair)
    requires Similar(r, q)
    ensures Similar(Of(r, k), Of(q, k))
    decreases |q|
  {
    if q != [] {
      assert Keeps(r[0], q[0]);
      forall i | 0 <= i < |r[1..]|
        ensures Keeps(r[1..][i], q[1..][i])
      {
        assert Keeps(r[i + 1], q[i + 1]);
      }
      OfSimilar(r[1..], q[1..], k);
    }
  }

  lemma {:induction false} OfMembers(q: seq<TxPacket>, k: Pair, p: TxPacket)
    ensures p in Of(q, k) <==> p in q && p.pair == k
    decreases |q|
  {
    if q != [] {
      OfMembers(q[1..], k, p);
    }
  }

  /** For the own pair it is an insertion among its packets, for the others nothing happens. */
  lemma {:induction false} OfInsert(q: seq<TxPacket>, p: TxPacket, k: Pair)
    ensures p.pair != k ==> Of(Insert(q, p), k) == Of(q, k)
    ensures p.pair == k && Sorted(q) ==> Of(Insert(q, p), k) == Insert(Of(q, k), p)
    ensures p.pair == k && Of(q, k) == [] ==> Of(Insert(q, p), k) == [p]
    decreases |q|
  {
    if q == [] || q[0].sendAt > p.sendAt {
      assert ([p] + q)[1..] == q;
      if Of(q, k) != [] {
        OfMembers(q, k, Of(q, k)[0]);
        assert Sorted(q) ==> Of(q, k)[0].sendAt > p.sendAt;
      }
    } else {
      OfInsert(q[1..], p, k);
      assert ([q[0]] + Insert(q[1..], p))[1..] == Insert(q[1..], p);
      if q[0].pair == k {
        assert ([q[0]] + Of(q[1..], k))[1..] == Of(q[1..], k);
      }
    }
  }

  /** The next packet of a pair is the first of its packets. */
  lemma {:induction false} NextIsFirst(q: seq<TxPacket>, k: Pair)
    ensures NextOf(q, k) == None <==> Of(q, k) == []
    ensures NextOf(q, k).Some? ==> q[NextOf(q, k).value] == Of(q, k)[0]
    ensures NextOf(q, k).Some? ==> forall j :: 0 <= j < NextOf(q, k).value ==> q[j].pair != k
    decreases |q|
  {
    if q != [] {
      NextIsFirst(q[1..], k);
      if q[0].pair != k && NextOf(q[1..], k).Some? {
        assert forall j :: 1 <= j < |q| ==> q[j] == q[1..][j - 1];
      }
    }
  }

  lemma {:induction false} OfChanged(q: seq<TxPacket>, i: nat, p: TxPacket, k: Pair)
    requires i < |q| && p.pair == q[i].pair == k && forall j :: 0 <= j < i ==> q[j].pair != k
    ensures Of(q, k) != [] && Of(q[i := p], k) == [p] + Of(q, k)[1..]
    decreases i
  {
    if i == 0 {
      assert q[0 := p][1..] == q[1..];
    } else {
      assert forall j :: 0 <= j < i - 1 ==> q[1..][j] == q[j + 1];
      OfChanged(q[1..], i - 1, p, k);
      assert q[i := p][1..] == q[1..][i - 1 := p];
    }
  }

  lemma {:induction false} OfClear(q: seq<TxPacket>, pair: Pair, k: Pair)
    ensures Of(ClearPair(q, pair), k) == if k == pair then [] else Of(q, k)
    decreases |q|
  {
    if q != [] {
      OfClear(q[1..], pair, k);
      if q[0].pair != pair {
        assert ([q[0]] + ClearPair(q[1..], pair))[1..] == ClearPair(q[1..], pair);
      }
    }
  }

  lemma {:induction false} OfRemove(q: seq<TxPacket>, i: nat, k: Pair)
    requires i < |q|
    ensures var r := Of(q[..i] + q[i + 1..], k);
            if q[i].pair == k then |r| == |Of(q, k)| - 1 else r == Of(q, k)
    decreases i
  {
    if i == 0 {
      assert q[..0] + q[1..] == q[1..];
    } else {
      OfRemove(q[1..], i - 1, k);
      assert (q[..i] + q[i + 1..])[1..] == q[1..][..i - 1] + q[1..][i..];
    }
  }

  lemma SimilarToSelf(q: seq<TxPacket>)
    ensures Similar(q, q)
  {}

  lemma KeptByInsert(q: seq<TxPacket>, p: TxPacket, k: Pair)
    requires p.pair != k
    ensures Similar(Of(Insert(q, p), k), Of(q, k))
  {
    OfInsert(q, p, k);
    SimilarToSelf(Of(q, k));
  }

  lemma KeptByClear(q: seq<TxPacket>, pair: Pair, k: Pair)
    requires pair != k
    ensures Similar(Of(ClearPair(q, pair), k), Of(q, k))
  {
    OfClear(q, pair, k);
    SimilarToSelf(Of(q, k));
  }

  lemma KeptByRemoval(q: seq<TxPacket>, i: nat, k: Pair)
    requires i < |q| && q[i].pair != k
    ensures Similar(Of(q[..i] + q[i + 1..], k), Of(q, k))
  {
    OfRemove(q, i, k);
    SimilarToSelf(Of(q, k));
  }

  lemma KeptByChange(q: seq<TxPacket>, i: nat, p: TxPacket, k: Pair)
    requires i < |q| && Keeps(p, q[i])
    ensures Similar(Of(q[i := p], k), Of(q, k))
  {
    OfSimilar(q[i := p], q, k);
  }

  /** A packet of one pair is replaced. */
  lemma {:induction false} OfReplaced(q: seq<TxPacket>, i: nat, p: TxPacket, k: Pair)
    requires i < |q| && p.pair == q[i].pair
    ensures p.pair != k ==> Of(q[i := p], k) == Of(q, k)
    ensures p.pair == k && |Of(q, k)| <= 1 ==> Of(q[i := p], k) == [p]
    decreases i
  {
    if i == 0 {
      assert q[0 := p][1..] == q[1..];
    } else {
      OfReplaced(q[1..], i - 1, p, k);
      assert q[i := p][1..] == q[1..][i - 1 := p];
      if p.pair == k {
        OfMembers(q[1..], k, q[i]);
        assert q[1..][i - 1] == q[i];
      }
    }
  }

  lemma KeptByReplacement(q: seq<TxPacket>, i: nat, p: TxPacket, k: Pair)
    requires i < |q| && p.pair == q[i].pair && p.pair != k
    ensures Similar(Of(q[i := p], k), Of(q, k))
  {
    OfReplaced(q, i, p, k);
    SimilarToSelf(Of(q, k));
  }

  /** The timer removes nothing and changes nothing but marks. */
  lemma KeptByMark(q: seq<TxPacket>, now: nat, oks: seq<bool>, k: Pair)
    ensures Similar(Of(Mark(q, now, oks).0, k), Of(q, k))
  {
    MarkOk(q, now, oks);
    var r := Mark(q, now, oks).0;
    forall i | 0 <= i < |r|
      ensures Keeps(r[i], q[i])
    {
      assert r[i].(queued := false) == q[i].(queued := false);
    }
    OfSimilar(r, q, k);
  }
}
