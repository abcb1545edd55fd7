/** The linked list of subtypes of a service and its update in place (mdns_responder.c). */
module Subtypes {
  import opened Bytes

  /** mdns_subtype_t. */
  class Node {
    const name: bytes
    var next: Node?

    constructor (name: bytes, next: Node?)
      ensures this.name == name && this.next == next
    {
      this.name, this.next := name, next;
    }
  }

  function After(nodes: seq<Node>, i: nat): Node? {
    if i + 1 < |nodes| then nodes[i + 1] else null
  }

  /** head is a null-terminated list of exactly these nodes. */
  ghost predicate Chain(head: Node?, nodes: seq<Node>)
    reads nodes
  {
    && head == (if nodes == [] then null else nodes[0])
    && (forall i :: 0 <= i < |nodes| ==> nodes[i].next == After(nodes, i))
    && Distinct(nodes)
  }

  ghost predicate Distinct(nodes: seq<Node>) {
    forall i, j :: 0 <= i < j < |nodes| ==> nodes[i] != nodes[j]
  }

  function Names(nodes: seq<Node>): (r: seq<bytes>)
    ensures |r| == |nodes| && forall i :: 0 <= i < |r| ==> r[i] == nodes[i].name
  {
    if nodes == [] then [] else Names(nodes[..|nodes| - 1]) + [nodes[|nodes| - 1].name]
  }

  lemma NamesBehind(node: Node, nodes: seq<Node>)
    ensures Names([node] + nodes) == [node.name] + Names(nodes)
  {}

  // ---------------------------------------------------------------- the two halves

  /** The nodes whose names are in the list of wanted names (or are not), in order. */
  function Part(nodes: seq<Node>, wanted: seq<bytes>, stays: bool): seq<Node> {
    if nodes == [] then []
    else
      var last := nodes[|nodes| - 1];
      Part(nodes[..|nodes| - 1], wanted, stays) + if (last.name in wanted) == stays then [last] else []
  }

  lemma {:induction false} PartMembers(nodes: seq<Node>, wanted: seq<bytes>, stays: bool, x: Node)
    ensures x in Part(nodes, wanted, stays) <==> x in nodes && (x.name in wanted) == stays
  {
    if nodes != [] {
      PartMembers(nodes[..|nodes| - 1], wanted, stays, x);
      assert nodes == nodes[..|nodes| - 1] + [nodes[|nodes| - 1]];
    }
  }

  lemma PartsShareNothing(nodes: seq<Node>, wanted: seq<bytes>)
    ensures forall x :: x in Part(nodes, wanted, true) ==> x !in Part(nodes, wanted, false)
  {
    forall x | x in Part(nodes, wanted, true)
      ensures x !in Part(nodes, wanted, false)
    {
      PartMembers(nodes, wanted, true, x);
      PartMembers(nodes, wanted, false, x);
    }
  }

  /** Nothing is lost, nothing is in both halves, nothing is there twice. */
  lemma {:induction false} PartsArePartition(nodes: seq<Node>, wanted: seq<bytes>)
    ensures multiset(Part(nodes, wanted, true)) + multiset(Part(nodes, wanted, false)) == multiset(nodes)
    ensures forall x :: x in Part(nodes, wanted, true) ==> x !in Part(nodes, wanted, false)
  {
    hide Part;
    if nodes == [] {
      PartOfNothing(wanted);
    } else {
      var last := |nodes| - 1;
      PartsArePartition(nodes[..last], wanted);
      PartStep(nodes, last, wanted);
      assert nodes[..last + 1] == nodes == nodes[..last] + [nodes[last]];
    }
    PartsShareNothing(nodes, wanted);
  }

  // ---------------------------------------------------------------- adding all new names

  predicate NoTwoEqual(names: seq<bytes>) {
    forall i, j :: 0 <= i < j < |names| ==> names[i] != names[j]
  }

  /** Every name goes to the front of the list; one that is there already ends the update. */
  function AddAll(list: seq<bytes>, names: seq<bytes>): (seq<bytes>, bool)
    decreases |names|
  {
    if names == [] then (list, true)
    else if names[0] in list then (list, false)
    else AddAll([names[0]] + list, names[1..])
  }

  function Reversed(names: seq<bytes>): (r: seq<bytes>)
    ensures |r| == |names| && forall i :: 0 <= i < |r| ==> r[i] == names[|names| - 1 - i]
  {
    if names == [] then [] else Reversed(names[1..]) + [names[0]]
  }

  /** An update that fails has added the names before the first one that was there already. */
  lemma {:induction false} StopsAtFirst(list: seq<bytes>, names: seq<bytes>) returns (n: nat)
    requires !AddAll(list, names).1
    ensures n < |names| && AddAll(list, names).0 == Reversed(names[..n]) + list
    ensures names[n] in Reversed(names[..n]) + list
    ensures forall i :: 0 <= i < n ==> names[i] !in list && names[i] !in names[..i]
    decreases |names|
  {
    if names[0] in list {
      n := 0;
      assert names[..0] == [] && [] + list == list;
    } else {
      var longer, rest := [names[0]] + list, names[1..];
      var m := StopsAtFirst(longer, rest);
      n := m + 1;
      assert names[..n][1..] == rest[..m];
      assert Reversed(rest[..m]) + longer == Reversed(names[..n]) + list;
      forall i | 0 <= i < n
        ensures names[i] !in list && names[i] !in names[..i]
      {
        if i > 0 {
          assert rest[i - 1] == names[i] && names[..i] == [names[0]] + rest[..i - 1];
        }
      }
    }
  }

  lemma {:induction false} AddedInOrder(list: seq<bytes>, names: seq<bytes>)
    requires NoTwoEqual(list)
    ensures AddAll(list, names).1 <==> NoTwoEqual(names) && forall i :: 0 <= i < |names| ==> names[i] !in list
    ensures AddAll(list, names).1 ==> AddAll(list, names).0 == Reversed(names) + list
    ensures NoTwoEqual(AddAll(list, names).0)
    decreases |names|
  {
    if names != [] && names[0] !in list {
      var longer := [names[0]] + list;
      forall i, j | 0 <= i < j < |longer|
        ensures longer[i] != longer[j]
      {
        assert longer[j] == list[j - 1];
      }
      AddedInOrder(longer, names[1..]);
      assert Reversed(names[1..]) + longer == Reversed(names) + list;
      AddedTail(list, names);
    } else if names != [] {
      assert names[0] in list;
    }
  }

  lemma AddedTail(list: seq<bytes>, names: seq<bytes>)
    requires names != [] && names[0] !in list
    ensures (NoTwoEqual(names[1..]) && forall i :: 0 <= i < |names[1..]| ==> names[1..][i] !in [names[0]] + list)
       <==> (NoTwoEqual(names) && forall i :: 0 <= i < |names| ==> names[i] !in list)
  {}

  /** An update succeeds exactly when no name is given twice, and then the list holds exactly the
      names that were given. */
  lemma UpdateLeavesTheNewSet(names: seq<bytes>)
    ensures AddAll([], names).1 <==> NoTwoEqual(names)
    ensures NoTwoEqual(AddAll([], names).0)
    ensures AddAll([], names).1 ==> forall x :: x in AddAll([], names).0 <==> x in names
  {
    AddedInOrder([], names);
    if AddAll([], names).1 {
      var r := Reversed(names);
      assert AddAll([], names).0 == r;
      forall x
        ensures x in r <==> x in names
      {
        if x in names {
          var i :| 0 <= i < |names| && names[i] == x;
          assert r[|names| - 1 - i] == x;
        }
      }
    }
  }

  // ---------------------------------------------------------------- the list in place

  class Service {
    var subtype: Node?
    ghost var nodes: seq<Node>

    ghost predicate Valid()
      reads this, nodes
    {
      Chain(subtype, nodes)
    }

    constructor ()
      ensures Valid() && nodes == []
    {
      subtype, nodes := null, [];
    }

    /** A node leaves the list; prev is the one before it. */
    method Unlink(prev: Node?, current: Node, ghost kept: seq<Node>)
      requires Run(kept) && Distinct(kept) && prev == (if kept == [] then null else kept[|kept| - 1]) && current !in kept
      modifies this`subtype, if prev == null then {} else {prev}
      ensures Run(kept) && if prev == null then subtype == current.next else prev.next == current.next && subtype == old(subtype)
    {
      if prev != null {
        prev.next := current.next;
      } else {
        subtype := current.next;
      }
    }

    /** In the middle of the loop: the nodes before position i of the old list have been told
        apart, those behind it are untouched. */
    ghost predicate Halfway(was: seq<Node>, i: nat, wanted: seq<bytes>, kept: seq<Node>, gone: seq<Node>,
                            current: Node?, prev: Node?, goodbye: Node?, prevGoodbye: Node?)
      reads this, was, kept, gone
    {
      && i <= |was| && Distinct(was)
      && current == (if i < |was| then was[i] else null)
      && (forall j :: i <= j < |was| ==> was[j].next == After(was, j))
      && kept == Part(was[..i], wanted, true) && gone == Part(was[..i], wanted, false)
      && Apart(kept, gone, was[..i])
      && (forall x :: x in kept ==> x in was) && (forall x :: x in gone ==> x in was)
      && Run(kept) && Run(gone)
      && (if kept == [] then prev == null && subtype == current
          else prev == kept[|kept| - 1] && prev.next == current && subtype == kept[0])
      && (if gone == [] then prevGoodbye == null && goodbye == null
          else prevGoodbye == gone[|gone| - 1] && prevGoodbye.next == null && goodbye == gone[0])
    }

    lemma KeepOne(was: seq<Node>, i: nat, wanted: seq<bytes>, kept: seq<Node>, gone: seq<Node>,
                  current: Node, prev: Node?, goodbye: Node?, prevGoodbye: Node?)
      requires Halfway(was, i, wanted, kept, gone, current, prev, goodbye, prevGoodbye) && i < |was| && current.name in wanted
      ensures Halfway(was, i + 1, wanted, kept + [current], gone, current.next, current, goodbye, prevGoodbye)
    {
      hide Part;
      PartStep(was, i, wanted);
      ApartStep(kept, gone, was, i);
      RunGrows(kept, current);
    }

    /** current moves to the end of the goodbye list. */
    method MoveOut(ghost was: seq<Node>, ghost i: nat, ghost wanted: seq<bytes>, ghost kept: seq<Node>, ghost gone: seq<Node>,
                   current: Node, prev: Node?, goodbye: Node?, prevGoodbye: Node?) returns (next: Node?, head: Node?)
      requires Halfway(was, i, wanted, kept, gone, current, prev, goodbye, prevGoodbye) && i < |was| && current.name !in wanted
      modifies this`subtype, was
      ensures Halfway(was, i + 1, wanted, kept, gone + [current], next, prev, head, current)
    {
      hide Part, Distinct, Apart, Run;
      PartStep(was, i, wanted);
      ApartStep(kept, gone, was, i);
      Strangers(kept, gone, was, i, prev, current, prevGoodbye);
      Unlink(prev, current, kept);
      next := current.next;
      head := Append(goodbye, prevGoodbye, current, gone);
    }

    /** service_find_subtype_needed_sendbye: the list falls into two lists, in place. */
    method FindNeededSendbye(wanted: seq<bytes>) returns (goodbye: Node?, ghost gone: seq<Node>)
      requires Valid()
      modifies this, nodes
      ensures Valid() && Chain(goodbye, gone)
      ensures nodes == Part(old(nodes), wanted, true) && gone == Part(old(nodes), wanted, false)
      ensures forall x :: x in nodes || x in gone ==> x in old(nodes)
    {
      hide Halfway, Part, Chain;
      ghost var was := nodes;
      var current, prev, prevGoodbye: Node? := subtype, null, null;
      goodbye, gone := null, [];
      ghost var kept: seq<Node> := [];
      ghost var i := 0;
      Start(wanted);
      while current != null
        invariant 0 <= i <= |was| && nodes == was && (current != null ==> i < |was|)
        invariant Halfway(was, i, wanted, kept, gone, current, prev, goodbye, prevGoodbye)
        decreases |was| - i
      {
        var found := Listed(wanted, current.name);
        if !found {
          var moved := current;
          current, goodbye := MoveOut(was, i, wanted, kept, gone, current, prev, goodbye, prevGoodbye);
          prevGoodbye, gone := moved, gone + [moved];
        } else {
          KeepOne(was, i, wanted, kept, gone, current, prev, goodbye, prevGoodbye);
          kept := kept + [current];
          prev := current;
          current := current.next;
        }
        i := i + 1;
        NextIs(was, i, wanted, kept, gone, current, prev, goodbye, prevGoodbye);
      }
      Finish(was, i, wanted, kept, gone, prev, goodbye, prevGoodbye);
      nodes := kept;
    }

    lemma Start(wanted: seq<bytes>)
      requires Valid()
      ensures Halfway(nodes, 0, wanted, [], [], subtype, null, null, null) && (subtype != null ==> |nodes| > 0)
    {}

    lemma Finish(was: seq<Node>, i: nat, wanted: seq<bytes>, kept: seq<Node>, gone: seq<Node>,
                 prev: Node?, goodbye: Node?, prevGoodbye: Node?)
      requires Halfway(was, i, wanted, kept, gone, null, prev, goodbye, prevGoodbye)
      ensures Chain(subtype, kept) && Chain(goodbye, gone)
      ensures kept == Part(was, wanted, true) && gone == Part(was, wanted, false)
      ensures forall x :: x in kept || x in gone ==> x in was
    {
      hide Part;
      assert was[..i] == was;
      ApartMembers(kept, gone, was);
      RunIsChain(subtype, kept);
      RunIsChain(goodbye, gone);
    }

    /** service_subtype_add_for_host: not a second time, otherwise to the front. */
    method Add(name: bytes) returns (ok: bool)
      requires Valid()
      modifies this
      ensures Valid() && ok == (name !in Names(old(nodes)))
      ensures if ok then |nodes| == |old(nodes)| + 1 && fresh(nodes[0]) && nodes[0].name == name && nodes[1..] == old(nodes)
              else nodes == old(nodes) && subtype == old(subtype)
      ensures Names(nodes) == (if ok then [name] else []) + Names(old(nodes))
    {
      var current := subtype;
      ghost var i := 0;
      while current != null
        invariant 0 <= i <= |nodes| && current == (if i < |nodes| then nodes[i] else null)
        invariant name !in Names(nodes)[..i]
        decreases |nodes| - i
      {
        if current.name == name {
          assert Names(nodes)[i] == name;
          return false;
        }
        current := current.next;
        i := i + 1;
      }
      assert Names(nodes)[..i] == Names(nodes);
      var node := new Node(name, subtype);
      NamesBehind(node, nodes);
      Prepended(node, subtype, nodes);
      subtype := node;
      nodes := [node] + nodes;
      return true;
    }

    /** service_subtype_remove_for_host: the first node of that name goes. */
    method Remove(name: bytes) returns (ok: bool)
      requires Valid()
      modifies this, nodes
      ensures Valid() && ok == (name in Names(old(nodes)))
      ensures nodes == (if ok then var i := First(old(nodes), name); old(nodes)[..i] + old(nodes)[i + 1..] else old(nodes))
    {
      hide Chain, First;
      ghost var was := nodes;
      var current, prev: Node? := subtype, null;
      ghost var i := 0;
      ChainLinks(subtype, was);
      while current != null
        invariant 0 <= i <= |was| && nodes == was && Valid() && current == (if i < |was| then was[i] else null)
        invariant prev == (if i == 0 then null else was[i - 1])
        invariant forall j :: 0 <= j < i ==> was[j].name != name
        decreases |was| - i
      {
        if current.name == name {
          FirstAt(was, name, i);
          CutOut(prev, current, i);
          return true;
        }
        ChainLinks(subtype, was);
        prev := current;
        current := current.next;
        i := i + 1;
      }
      assert forall x :: x in Names(was) ==> x != name;
      ok := false;
    }

    /** The node at position i goes. */
    method CutOut(prev: Node?, current: Node, ghost i: nat)
      requires Valid() && i < |nodes| && current == nodes[i] && prev == (if i == 0 then null else nodes[i - 1])
      modifies this, if prev == null then {} else {prev}
      ensures Valid() && nodes == old(nodes)[..i] + old(nodes)[i + 1..]
    {
      hide Distinct;
      ghost var was := nodes;
      CutDistinct(was, i);
      if prev == null {
        subtype := subtype.next;
      } else {
        prev.next := current.next;
      }
      nodes := was[..i] + was[i + 1..];
    }

    /** free_service_subtype. */
    method Clear()
      modifies this
      ensures Valid() && nodes == []
    {
      subtype, nodes := null, [];
    }

    /** mdns_service_subtype_update_multiple_items_for_host: who is left out gets a goodbye, and the
        list is built anew. */
    method Update(wanted: seq<bytes>) returns (ok: bool, goodbyes: seq<bytes>)
      requires Valid()
      modifies this, nodes
      ensures Valid()
      ensures goodbyes == Names(Part(old(nodes), wanted, false))
      ensures ok == AddAll([], wanted).1 && Names(nodes) == AddAll([], wanted).0
      ensures fresh(nodes)
    {
      hide Chain, Part, Reversed;
      var goodbye, gone := FindNeededSendbye(wanted);
      goodbyes := Collect(goodbye, gone);
      Clear();
      var i := 0;
      ok := true;
      while i < |wanted|
        invariant Valid() && 0 <= i <= |wanted| && ok && fresh(nodes)
        invariant AddAll(Names(nodes), wanted[i..]) == AddAll([], wanted)
      {
        assert wanted[i..][1..] == wanted[i + 1..];
        ok := Add(wanted[i]);
        if !ok {
          return;
        }
        assert forall x :: x in nodes ==> x == nodes[0] || x in nodes[1..];
        i := i + 1;
      }
    }

    lemma NextIs(was: seq<Node>, i: nat, wanted: seq<bytes>, kept: seq<Node>, gone: seq<Node>,
                 current: Node?, prev: Node?, goodbye: Node?, prevGoodbye: Node?)
      requires Halfway(was, i, wanted, kept, gone, current, prev, goodbye, prevGoodbye)
      ensures i <= |was| && (current != null <==> i < |was|)
    {}
  }

  lemma CutDistinct(was: seq<Node>, i: nat)
    requires Distinct(was) && i < |was|
    ensures var r := was[..i] + was[i + 1..];
            && Distinct(r) && (forall j :: 0 <= j < |r| ==> r[j] == was[if j < i then j else j + 1])
            && (forall j :: 0 <= j < |was| && j + 1 != i ==> i == 0 || was[j] != was[i - 1])
  {}

  /** Consecutive nodes are linked. */
  ghost predicate Run(nodes: seq<Node>)
    reads nodes
  {
    forall i :: 0 <= i < |nodes| - 1 ==> nodes[i].next == After(nodes, i)
  }

  /** A node becomes the last of a list. */
  method Append(head: Node?, last: Node?, node: Node, ghost list: seq<Node>) returns (r: Node?)
    requires Run(list) && Distinct(list) && node !in list
    requires last == (if list == [] then null else list[|list| - 1]) && (list != [] ==> head == list[0])
    modifies node, if last == null then {} else {last}
    ensures Run(list + [node]) && node.next == null && r == (if list == [] then node else head)
  {
    node.next := null;
    if last != null {
      last.next := node;
      r := head;
    } else {
      r := node;
    }
  }

  /** Two lists made of the nodes of a third, without a common node. */
  ghost predicate Apart(kept: seq<Node>, gone: seq<Node>, all: seq<Node>) {
    && Distinct(kept) && Distinct(gone)
    && (forall x :: x in kept ==> x in all && x !in gone)
    && (forall x :: x in gone ==> x in all)
  }

  lemma ApartStep(kept: seq<Node>, gone: seq<Node>, was: seq<Node>, i: nat)
    requires i < |was| && Distinct(was) && Apart(kept, gone, was[..i])
    ensures was[i] !in kept && was[i] !in gone
    ensures forall j :: i < j < |was| ==> was[j] !in kept && was[j] !in gone && was[j] != was[i]
    ensures Apart(kept + [was[i]], gone, was[..i + 1]) && Apart(kept, gone + [was[i]], was[..i + 1])
  {}

  /** The three nodes in the program's hands are different nodes, and none is still to come. */
  lemma Strangers(kept: seq<Node>, gone: seq<Node>, was: seq<Node>, i: nat, prev: Node?, current: Node, prevGoodbye: Node?)
    requires i < |was| && Distinct(was) && Apart(kept, gone, was[..i]) && current == was[i]
    requires prev != null ==> kept != [] && prev == kept[|kept| - 1]
    requires prevGoodbye != null ==> gone != [] && prevGoodbye == gone[|gone| - 1]
    ensures Distinct(kept) && Distinct(gone)
    ensures prev != null ==> prev in was && prev in kept && prev !in gone && prev != current && prev != prevGoodbye
    ensures prevGoodbye != null ==> prevGoodbye in was && prevGoodbye in gone && prevGoodbye !in kept && prevGoodbye != current
    ensures forall j :: i < j < |was| ==> was[j] != prev && was[j] != prevGoodbye && was[j] != current
  {
    ApartStep(kept, gone, was, i);
    assert forall x :: x in was[..i] ==> x in was;
  }

  lemma ApartMembers(kept: seq<Node>, gone: seq<Node>, was: seq<Node>)
    requires Apart(kept, gone, was)
    ensures Distinct(kept) && Distinct(gone) && forall x :: x in kept || x in gone ==> x in was
  {}

  lemma ChainLinks(head: Node?, nodes: seq<Node>)
    requires Chain(head, nodes)
    ensures head == (if nodes == [] then null else nodes[0]) && Distinct(nodes)
    ensures forall j :: 0 <= j < |nodes| ==> nodes[j].next == After(nodes, j)
  {}

  lemma RunIsChain(head: Node?, nodes: seq<Node>)
    requires Run(nodes) && Distinct(nodes)
    requires if nodes == [] then head == null else head == nodes[0] && nodes[|nodes| - 1].next == null
    ensures Chain(head, nodes)
  {}

  lemma RunGrows(nodes: seq<Node>, node: Node)
    requires Run(nodes) && (nodes != [] ==> nodes[|nodes| - 1].next == node)
    ensures Run(nodes + [node])
  {}

  lemma PartOfNothing(wanted: seq<bytes>)
    ensures Part([], wanted, true) == [] && Part([], wanted, false) == []
  {}

  lemma PartStep(was: seq<Node>, i: nat, wanted: seq<bytes>)
    requires i < |was|
    ensures Part(was[..i + 1], wanted, true) == Part(was[..i], wanted, true) + if was[i].name in wanted then [was[i]] else []
    ensures Part(was[..i + 1], wanted, false) == Part(was[..i], wanted, false) + if was[i].name in wanted then [] else [was[i]]
  {
    assert was[..i + 1][..i] == was[..i];
  }

  lemma Prepended(node: Node, head: Node?, nodes: seq<Node>)
    requires Chain(head, nodes) && node !in nodes && node.next == head
    ensures Chain(node, [node] + nodes)
  {}

  /** The position of the first node with a name. */
  function First(nodes: seq<Node>, name: bytes): (i: nat)
    ensures i <= |nodes| && (i < |nodes| <==> name in Names(nodes))
    ensures i < |nodes| ==> nodes[i].name == name
    ensures forall j :: 0 <= j < i ==> nodes[j].name != name
  {
    if nodes == [] then 0
    else
      var last := |nodes| - 1;
      var i := First(nodes[..last], name);
      if i < last then i else if nodes[last].name == name then last else |nodes|
  }

  lemma FirstAt(nodes: seq<Node>, name: bytes, i: nat)
    requires i < |nodes| && nodes[i].name == name && forall j :: 0 <= j < i ==> nodes[j].name != name
    ensures First(nodes, name) == i && name in Names(nodes)
  {}

  /** The names in a list, in order: mdns_priv_send_bye_subtype puts one record per name. */
  method Collect(head: Node?, ghost nodes: seq<Node>) returns (names: seq<bytes>)
    requires Chain(head, nodes)
    ensures names == Names(nodes)
  {
    names := [];
    var current := head;
    ghost var i := 0;
    while current != null
      invariant 0 <= i <= |nodes| && current == (if i < |nodes| then nodes[i] else null)
      invariant names == Names(nodes)[..i]
      decreases |nodes| - i
    {
      names := names + [current.name];
      current := current.next;
      i := i + 1;
    }
  }

  /** The inner loop of service_find_subtype_needed_sendbye. */
  method Listed(wanted: seq<bytes>, name: bytes) returns (found: bool)
    ensures found <==> name in wanted
  {
    for i := 0 to |wanted|
      invariant name !in wanted[..i]
    {
      if wanted[i] == name {
        return true;
      }
    }
    found := false;
  }
}
