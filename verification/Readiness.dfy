/** Which pairs have a working socket: the layer under the state machine (mdns_networking_lwip.c).
    All pairs share one UDP control block. */
module Readiness {
  import opened Packets

  /** What the stack looks like from outside: the pairs with a working socket, whether the shared
      control block exists, and the groups that have been joined. */
  datatype Net = Net(ready: set<Pair>, main: bool, joined: set<Pair>)

  /** pcb_if_init, and whether it succeeds; joins and binds are the answers of the network stack. */
  function Up(n: Net, k: Pair, joins: bool, binds: bool): (Net, bool) {
    if k in n.ready || !joins then (n, false)
    else if !n.main && !binds then (n.(joined := n.joined + {k}), false)
    else (Net(n.ready + {k}, true, n.joined + {k}), true)
  }

  /** pcb_if_deinit; leaves is the answer of the network stack. */
  function Down(n: Net, k: Pair, leaves: bool): Net {
    var left := n.ready - {k};
    Net(left, left != {}, if leaves && Pair(k.netif, !k.v6) !in left then n.joined - {k} else n.joined)
  }

  /** s_interfaces and s_pcb_main.  proto4 and proto6 are the two bits of proto. */
  class Sockets {
    const proto4: array<bool>
    const proto6: array<bool>
    const ready: array<bool>
    var main: bool
    ghost var net: Net

    ghost predicate Valid()
      reads this, proto4, proto6, ready
    {
      && proto4.Length == proto6.Length == ready.Length
      && proto4 != proto6 && proto4 != ready && proto6 != ready
      && (forall i :: 0 <= i < ready.Length ==> (ready[i] <==> proto4[i] || proto6[i]))
      && (forall k: Pair :: k in net.ready <==> k.netif < ready.Length && if k.v6 then proto6[k.netif] else proto4[k.netif])
      && main == net.main && (main <==> net.ready != {})
    }

    /** mdns_priv_if_ready. */
    predicate IsReady(k: Pair)
      requires Valid() && k.netif < ready.Length
      reads this, proto4, proto6, ready
      ensures IsReady(k) <==> k in net.ready
    {
      ready[k.netif] && if k.v6 then proto6[k.netif] else proto4[k.netif]
    }

    constructor (interfaces: nat)
      ensures Valid() && net == Net({}, false, {}) && ready.Length == interfaces
      ensures fresh(proto4) && fresh(proto6) && fresh(ready)
    {
      proto4 := new bool[interfaces](_ => false);
      proto6 := new bool[interfaces](_ => false);
      ready := new bool[interfaces](_ => false);
      main := false;
      net := Net({}, false, {});
    }

    /** is_any_pcb_in_use. */
    method AnyInUse() returns (used: bool)
      requires proto4.Length == proto6.Length == ready.Length
      ensures used <==> exists i :: 0 <= i < ready.Length && ready[i] && (proto4[i] || proto6[i])
    {
      for i := 0 to ready.Length
        invariant forall j :: 0 <= j < i ==> !(ready[j] && (proto4[j] || proto6[j]))
      {
        if ready[i] && proto4[i] {
          return true;
        }
        if ready[i] && proto6[i] {
          return true;
        }
      }
      used := false;
    }

    /** pcb_if_init. */
    method Init(k: Pair, joins: bool, binds: bool) returns (ok: bool)
      requires Valid() && k.netif < ready.Length
      modifies this, proto4, proto6, ready
      ensures Valid() && (net, ok) == Up(old(net), k, joins, binds)
    {
      if IsReady(k) || !joins {
        return false;
      }
      net := net.(joined := net.joined + {k});
      if !main {
        if !binds {
          return false;
        }
        main := true;
      }
      if k.v6 {
        proto6[k.netif] := true;
      } else {
        proto4[k.netif] := true;
      }
      ready[k.netif] := true;
      net := net.(ready := net.ready + {k}, main := true);
      return true;
    }

    /** pcb_if_deinit. */
    method Deinit(k: Pair, leaves: bool)
      requires Valid() && k.netif < ready.Length
      modifies this, proto4, proto6, ready
      ensures Valid() && net == Down(old(net), k, leaves)
    {
      if k.v6 {
        proto6[k.netif] := false;
      } else {
        proto4[k.netif] := false;
      }
      net := Down(net, k, leaves);
      if !proto4[k.netif] && !proto6[k.netif] {
        ready[k.netif] := false;
        var used := AnyInUse();
        NoneLeft(used);
        if !used {
          main := false;
        }
      } else {
        assert Pair(k.netif, proto6[k.netif]) in net.ready;
      }
    }

    /** The control block is in use as long as some pair is ready. */
    lemma NoneLeft(used: bool)
      requires proto4.Length == proto6.Length == ready.Length
      requires forall i :: 0 <= i < ready.Length ==> (ready[i] <==> proto4[i] || proto6[i])
      requires forall k: Pair :: k in net.ready <==> k.netif < ready.Length && if k.v6 then proto6[k.netif] else proto4[k.netif]
      requires used <==> exists i :: 0 <= i < ready.Length && ready[i] && (proto4[i] || proto6[i])
      ensures used <==> net.ready != {}
    {
      if used {
        var i :| 0 <= i < ready.Length && ready[i] && (proto4[i] || proto6[i]);
        assert Pair(i, proto6[i]) in net.ready;
      }
      if net.ready != {} {
        var k :| k in net.ready;
        assert ready[k.netif];
      }
    }
  }

  /** The group of a pair is left only together with its interface: with both protocols in use,
      switching them off one after the other leaves the first group joined. */
  method GroupLeftBehind(v6First: bool) returns (s: Sockets)
    ensures fresh(s) && s.Valid() && s.ready.Length == 1
    ensures s.net == Net({}, false, {Pair(0, v6First)})
  {
    s := new Sockets(1);
    var a := s.Init(Pair(0, false), true, true);
    var b := s.Init(Pair(0, true), true, true);
    s.Deinit(Pair(0, v6First), true);
    s.Deinit(Pair(0, !v6First), true);
  }

  /** A group stays joined for a pair that is not ready exactly when it was joined before and was
      not left: the stack refused, or the other protocol of the interface was still in use. */
  lemma LeftBehind(n: Net, k: Pair, leaves: bool)
    ensures k in Down(n, k, leaves).joined <==>
            k in n.joined && (!leaves || Pair(k.netif, !k.v6) in n.ready)
  {
    assert Pair(k.netif, !k.v6) != k;
  }
}
