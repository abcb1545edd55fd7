/** Name compression (section 4.1.4 of RFC 1035): what append_fqdn writes reads back as the
    name it was given, exactly when the offset it chose to point at has the properties that
    its search does not check. */
module Compression {
  import opened Bytes
  import opened FqdnReader
  import opened FqdnWriter

  // ---------------------------------------------------------------- the names of the responder

  /** A label of section 2.3.4 of RFC 1035, as a C string. */
  predicate PlainLabel(s: bytes) {
    1 <= |s| <= 63 && 0 !in s
  }

  predicate TypeLabel(s: bytes) {
    PlainLabel(s) && s[0] == UNDERSCORE
  }

  /** host.local, _service._proto.local or instance._service._proto.local. */
  predicate Standard(strings: seq<bytes>) {
    && (forall s :: s in strings ==> PlainLabel(s) && !SameText(s, SUB))
    && 2 <= |strings| <= 4
    && strings[|strings| - 1] == LOCAL
    && (|strings| == 3 ==> TypeLabel(strings[1]))
    && (|strings| == 4 ==> TypeLabel(strings[1]) && TypeLabel(strings[2]))
  }

  function Expected(strings: seq<bytes>): Parsed
    requires Standard(strings)
  {
    match |strings|
    case 2 => Parsed(strings[0], [], [], LOCAL, 2, false, false)
    case 3 => Parsed([], strings[0], strings[1], LOCAL, 3, false, false)
    case _ => Parsed(strings[0], strings[1], strings[2], LOCAL, 4, false, false)
  }

  /** Equal up to ASCII case, flags included. */
  predicate SameName(a: Parsed, b: Parsed) {
    && SameText(a.host, b.host) && SameText(a.service, b.service)
    && SameText(a.proto, b.proto) && SameText(a.domain, b.domain)
    && a.parts == b.parts && a.sub == b.sub && a.invalid == b.invalid
  }

  /** The receiver gets the name back from p[start..end). */
  predicate ReadsBack(p: bytes, start: nat, end: nat, strings: seq<bytes>)
    requires Standard(strings)
  {
    match ParseName(p, start)
    case Unreadable => false
    case Read(next, name) => next == end && SameName(name, Expected(strings))
  }

  // ---------------------------------------------------------------- the shape of the output

  function Size(strings: seq<bytes>): nat {
    if strings == [] then 1 else 1 + |strings[0]| + Size(strings[1..])
  }

  /** The name fits even when nothing can be compressed. */
  predicate Fits(b: Buf, strings: seq<bytes>) {
    b.Valid() && b.index + Size(strings) < MAX_PACKET_SIZE
  }

  predicate PlainLabels(strings: seq<bytes>) {
    forall s :: s in strings ==> PlainLabel(s)
  }

  /** How many labels append_fqdn spells out before it finds something to point at. */
  function Spelled(b: Buf, strings: seq<bytes>): (k: nat)
    requires b.Valid()
    ensures k <= |strings|
    decreases |strings|
  {
    if strings == [] || FirstMatch(b.data, b.index, strings, 0).Some? then 0
    else 1 + Spelled(AppendString(b, strings[0]).buf, strings[1..])
  }

  /** The buffer at the moment the search ends: the spelled labels are in it. */
  function AtPointer(b: Buf, strings: seq<bytes>): (r: Buf)
    requires b.Valid()
    ensures r.Valid()
    decreases |strings|
  {
    if strings == [] || FirstMatch(b.data, b.index, strings, 0).Some? then b
    else AtPointer(AppendString(b, strings[0]).buf, strings[1..])
  }

  /** The offset pointed at, if any. */
  function Pointed(b: Buf, strings: seq<bytes>): Option<nat>
    requires b.Valid()
  {
    var rest := strings[Spelled(b, strings)..];
    var s := AtPointer(b, strings);
    if rest == [] then None else FirstMatch(s.data, s.index, rest, 0)
  }

  lemma PointedStep(b: Buf, strings: seq<bytes>)
    requires b.Valid() && strings != []
    ensures FirstMatch(b.data, b.index, strings, 0).Some? ==>
              Spelled(b, strings) == 0 && AtPointer(b, strings) == b
              && Pointed(b, strings) == FirstMatch(b.data, b.index, strings, 0)
    ensures FirstMatch(b.data, b.index, strings, 0) == None ==>
              var first := AppendString(b, strings[0]).buf;
              Spelled(b, strings) == 1 + Spelled(first, strings[1..])
              && AtPointer(b, strings) == AtPointer(first, strings[1..])
              && Pointed(b, strings) == Pointed(first, strings[1..])
  {
    if FirstMatch(b.data, b.index, strings, 0) == None {
      var first := AppendString(b, strings[0]).buf;
      var k := Spelled(first, strings[1..]);
      assert strings[1..][k..] == strings[1 + k..];
    } else {
      assert strings[0..] == strings;
    }
  }

  /** append_fqdn never touches what was written before. */
  lemma {:induction false} NameKeepsPrefix(b: Buf, strings: seq<bytes>)
    requires b.Valid()
    ensures var r := AppendName(b, strings).buf; r.index >= b.index && forall i :: 0 <= i < b.index ==> r.data[i] == b.data[i]
    decreases |strings|
  {
    if strings != [] && FirstMatch(b.data, b.index, strings, 0) == None {
      var first := AppendString(b, strings[0]);
      if first.written != 0 {
        NameKeepsPrefix(first.buf, strings[1..]);
      }
    }
  }

  lemma LabelFits(b: Buf, s: bytes)
    requires b.Valid() && PlainLabel(s) && b.index + 1 + |s| < MAX_PACKET_SIZE
    ensures AppendString(b, s).written == 1 + |s| && AppendString(b, s).buf.index == b.index + 1 + |s|
  {
  }

  lemma NameStep(b: Buf, strings: seq<bytes>)
    requires Fits(b, strings) && PlainLabels(strings) && strings != []
    requires FirstMatch(b.data, b.index, strings, 0) == None
    ensures var first := AppendString(b, strings[0]);
            && first.written != 0 && Fits(first.buf, strings[1..])
            && first.buf.index == b.index + 1 + |strings[0]|
            && AppendName(b, strings) == Step(AppendName(first.buf, strings[1..]).buf,
                                              1 + |strings[0]| + AppendName(first.buf, strings[1..]).written)
  {
    assert PlainLabel(strings[0]);
    LabelFits(b, strings[0]);
  }

  lemma NameAtPointer(b: Buf, strings: seq<bytes>)
    requires Fits(b, strings) && PlainLabels(strings) && strings != []
    requires FirstMatch(b.data, b.index, strings, 0).Some?
    ensures AppendName(b, strings).written == 2 <= Size(strings)
    ensures AppendName(b, strings).buf.index == b.index + 2
  {
    assert PlainLabel(strings[0]);
  }

  /** The buffer at the moment of the pointer agrees with the final one on all it had written. */
  lemma {:induction false} PointerKeepsPrefix(b: Buf, strings: seq<bytes>)
    requires Fits(b, strings) && PlainLabels(strings)
    ensures var s := AtPointer(b, strings); var r := AppendName(b, strings).buf;
            b.index <= s.index <= r.index && forall i :: 0 <= i < s.index ==> r.data[i] == s.data[i]
    decreases |strings|
  {
    if strings == [] || FirstMatch(b.data, b.index, strings, 0).Some? {
      NameKeepsPrefix(b, strings);
    } else {
      NameStep(b, strings);
      PointerKeepsPrefix(AppendString(b, strings[0]).buf, strings[1..]);
    }
  }

  function Labels(strings: seq<bytes>): (items: seq<Item>)
    ensures |items| == |strings|
    ensures forall i :: 0 <= i < |items| ==> items[i] == Label(strings[i])
  {
    seq(|strings|, i requires 0 <= i < |strings| => Label(strings[i]))
  }

  function Follow(p: bytes, start: nat, c: nat, end: nat, spelled: seq<Item>): Walk {
    if c >= start then Bad
    else match WalkName(p, c, c)
         case Bad => Bad
         case Good(_, items) => Good(end, spelled + ([Jump] + items))
  }

  function WithLabel(l: bytes, w: Walk): Walk {
    match w
    case Bad => Bad
    case Good(next, items) => Good(next, [Label(l)] + items)
  }

  /** The spelled labels, then the pointer or the end. */
  function Written(b: Buf, strings: seq<bytes>, start: nat, p: bytes, end: nat): Walk
    requires b.Valid()
  {
    match Pointed(b, strings)
    case None => Good(end, Labels(strings))
    case Some(c) => Follow(p, start, c, end, Labels(strings[..Spelled(b, strings)]))
  }

  lemma WrittenStep(b: Buf, strings: seq<bytes>, start: nat, p: bytes, end: nat)
    requires b.Valid() && strings != [] && FirstMatch(b.data, b.index, strings, 0) == None
    ensures Written(b, strings, start, p, end) ==
            WithLabel(strings[0], Written(AppendString(b, strings[0]).buf, strings[1..], start, p, end))
  {
    var first := AppendString(b, strings[0]).buf;
    PointedStep(b, strings);
    var k := Spelled(first, strings[1..]);
    assert Labels(strings) == [Label(strings[0])] + Labels(strings[1..]);
    assert Labels(strings[..k + 1]) == [Label(strings[0])] + Labels(strings[1..][..k]);
    match Pointed(b, strings)
    case None =>
    case Some(c) => FollowWithLabel(p, start, c, end, strings[0], Labels(strings[1..][..k]));
  }

  lemma FollowAtOnce(p: bytes, start: nat, c: nat, end: nat)
    ensures Follow(p, start, c, end, []) ==
            (if c >= start then Bad
             else match WalkName(p, c, c)
                  case Bad => Bad
                  case Good(_, items) => Good(end, [Jump] + items))
  {
    if WalkName(p, c, c).Good? {
      var items := WalkName(p, c, c).items;
      assert [] + ([Jump] + items) == [Jump] + items;
    }
  }

  /** The packet p holds what stands in r from offset from on. */
  predicate Copied(p: bytes, r: Buf, from: nat)
    requires r.Valid()
  {
    r.index <= |p| && forall i :: from <= i < r.index ==> p[i] == r.data[i]
  }

  lemma WalkOfNothing(b: Buf, start: nat, p: bytes)
    requires Fits(b, []) && start <= b.index && Copied(p, AppendName(b, []).buf, b.index)
    ensures WalkName(p, start, b.index) == Written(b, [], start, p, AppendName(b, []).buf.index)
  {
    PutBytesAt(b, [0]);
    assert p[b.index] == Put(b, [0]).data[b.index + 0] == 0;
    assert Pointed(b, []) == None;
    assert Labels([]) == [];
  }

  lemma WalkOfMatch(b: Buf, strings: seq<bytes>, start: nat, p: bytes)
    requires Fits(b, strings) && PlainLabels(strings) && start <= b.index && strings != []
    requires FirstMatch(b.data, b.index, strings, 0).Some? && Copied(p, AppendName(b, strings).buf, b.index)
    ensures WalkName(p, start, b.index) == Written(b, strings, start, p, AppendName(b, strings).buf.index)
  {
    var r := AppendName(b, strings).buf;
    var c := FirstMatch(b.data, b.index, strings, 0).value;
    PointedStep(b, strings);
    WalkOfPointer(b, c, start, p);
    FollowAtOnce(p, start, c, r.index);
    assert Labels(strings[..0]) == [];
  }

  /** Reading what append_fqdn wrote, in a packet that may have changed before and behind it. */
  lemma {:induction false} WalkOfOutput(b: Buf, strings: seq<bytes>, start: nat, p: bytes)
    requires Fits(b, strings) && PlainLabels(strings) && start <= b.index
    requires Copied(p, AppendName(b, strings).buf, b.index)
    ensures WalkName(p, start, b.index) == Written(b, strings, start, p, AppendName(b, strings).buf.index)
    decreases |strings|
  {
    if strings == [] {
      WalkOfNothing(b, start, p);
    } else if FirstMatch(b.data, b.index, strings, 0).Some? {
      WalkOfMatch(b, strings, start, p);
    } else {
      NameStep(b, strings);
      var first := AppendString(b, strings[0]).buf;
      var r := AppendName(first, strings[1..]).buf;
      assert PlainLabel(strings[0]);
      WalkOfOutput(first, strings[1..], start, p);
      NameKeepsPrefix(first, strings[1..]);
      WalkOfLabel(b, strings[0], p, start);
      WrittenStep(b, strings, start, p, r.index);
    }
  }

  lemma FollowWithLabel(p: bytes, start: nat, c: nat, end: nat, l: bytes, spelled: seq<Item>)
    ensures Follow(p, start, c, end, [Label(l)] + spelled) == WithLabel(l, Follow(p, start, c, end, spelled))
  {
    if c < start && WalkName(p, c, c).Good? {
      var items := WalkName(p, c, c).items;
      assert [Label(l)] + spelled + ([Jump] + items) == [Label(l)] + (spelled + ([Jump] + items));
    }
  }

  lemma WalkOfPointer(b: Buf, c: nat, start: nat, p: bytes)
    requires b.Valid() && b.index + 1 < MAX_PACKET_SIZE && c < MAX_PACKET_SIZE && start <= b.index
    requires Copied(p, AppendU16(b, NAME_REF + c).buf, b.index)
    ensures WalkName(p, start, b.index) ==
            (if c >= start then Bad
             else match WalkName(p, c, c)
                  case Bad => Bad
                  case Good(_, items) => Good(b.index + 2, [Jump] + items))
  {
    var r := AppendU16(b, NAME_REF + c).buf;
    assert r.data[b.index + 0] == U16(NAME_REF + c)[0] == 0xC0 + c / 256;
    assert r.data[b.index + 1] == U16(NAME_REF + c)[1] == c % 256 by { NarrowIsModulo(NAME_REF + c); }
    assert Target(p, b.index) == c;
  }

  lemma LabelInPlace(b: Buf, s: bytes)
    requires b.Valid() && PlainLabel(s) && b.index + 1 + |s| < MAX_PACKET_SIZE
    ensures var first := AppendString(b, s).buf;
            && first.index == b.index + 1 + |s|
            && first.data[b.index] == |s| && first.data[b.index + 1..first.index] == s
            && (forall i :: 0 <= i < b.index || first.index <= i < MAX_PACKET_SIZE ==> first.data[i] == b.data[i])
            && (forall i :: 0 <= i < |s| ==> first.data[b.index + 1 + i] == s[i])
  {
    var first := AppendString(b, s).buf;
    var wire := [|s|] + s;
    assert s[..|s|] == s;
    assert first == Put(b, wire);
    PutBytesAt(b, wire);
    assert first.data[b.index + 0] == wire[0];
    forall i | 0 <= i < |s|
      ensures first.data[b.index + 1 + i] == s[i]
    {
      assert first.data[b.index + (1 + i)] == wire[1 + i];
    }
  }

  lemma WalkOfLabel(b: Buf, s: bytes, p: bytes, start: nat)
    requires b.Valid() && PlainLabel(s) && b.index + 1 + |s| < MAX_PACKET_SIZE && start <= b.index
    requires Copied(p, AppendString(b, s).buf, b.index)
    ensures WalkName(p, start, b.index) == WithLabel(s, WalkName(p, start, b.index + 1 + |s|))
  {
    LabelInPlace(b, s);
    WalkAtLabel(p, start, b.index, s);
  }

  lemma WalkAtLabel(p: bytes, start: nat, at: nat, s: bytes)
    requires start <= at && PlainLabel(s) && at + 1 + |s| <= |p|
    requires p[at] == |s| && forall i :: 0 <= i < |s| ==> p[at + 1 + i] == s[i]
    ensures WalkName(p, start, at) == WithLabel(s, WalkName(p, start, at + 1 + |s|))
  {
    assert p[at + 1..at + 1 + |s|] == s;
  }
}
