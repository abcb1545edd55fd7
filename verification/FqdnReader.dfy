/** The name decoder of mdns_utils.c: mdns_utils_read_fqdn and mdns_utils_parse_fqdn.

    Two layers are kept apart.  WalkName is the wire syntax of section 4.1.4 of RFC 1035:
    it turns bytes into a list of labels and pointer jumps.  Fold is what this decoder makes
    of that list: at most four C strings and two flags.  The method ReadFqdn interleaves
    both in one loop over mutable buffers and is proved to compute exactly their composition. */
module FqdnReader {
  import opened Bytes

  /** Capacity of one name field and of the scratch buffer: 64 characters and the NUL. */
  const NAME_BUF_LEN := 65

  const LOCAL: bytes := [0x6c, 0x6f, 0x63, 0x61, 0x6c]
  const ARPA: bytes := [0x61, 0x72, 0x70, 0x61]
  const IP6: bytes := [0x69, 0x70, 0x36]
  const IN_ADDR: bytes := [0x69, 0x6e, 0x2d, 0x61, 0x64, 0x64, 0x72]
  const SUB: bytes := [0x5f, 0x73, 0x75, 0x62]
  const UNDERSCORE: byte := 0x5f
  const DOT: byte := 0x2e

  // ---------------------------------------------------------------- wire syntax

  datatype Item = Label(raw: bytes) | Jump

  datatype Walk = Bad | Good(next: nat, items: seq<Item>)

  /** Reads the name whose current segment began at start, from offset at onwards.
      A pointer must lead before the start of its own segment. */
  function WalkName(p: bytes, start: nat, at: nat): (w: Walk)
    requires start <= at
    ensures w.Good? ==> at < w.next
    ensures w.Good? ==> forall i :: 0 <= i < |w.items| && w.items[i].Label? ==> 1 <= |w.items[i].raw| <= 63
    decreases start, |p| - at
  {
    if at >= |p| || p[at] == 0 then
      Good(at + 1, [])
    else if p[at] < 0xC0 then
      if p[at] > 63 || at + 1 + p[at] > |p| then
        Bad
      else
        match WalkName(p, start, at + 1 + p[at])
        case Bad => Bad
        case Good(next, items) => Good(next, [Label(p[at + 1..at + 1 + p[at]])] + items)
    else if at + 1 >= |p| then
      Bad
    else
      var target := Target(p, at);
      if target >= start then
        Bad
      else
        match WalkName(p, target, target)
        case Bad => Bad
        case Good(_, items) => Good(at + 2, [Jump] + items)
  }

  /** The offset a pointer refers to: its low 14 bits. */
  function Target(p: bytes, at: nat): nat
    requires at + 1 < |p| && p[at] >= 0xC0
  {
    (p[at] as int - 0xC0) * 256 + p[at + 1] as int
  }

  /** WalkName, started at start and now at offset at, still looks at offset i. */
  ghost predicate Touches(p: bytes, start: nat, at: nat, i: nat)
    requires start <= at
    decreases start, |p| - at
  {
    if at >= |p| || p[at] == 0 then
      i == at
    else if p[at] < 0xC0 then
      if p[at] > 63 || at + 1 + p[at] > |p| then
        i == at
      else
        at <= i < at + 1 + p[at] || Touches(p, start, at + 1 + p[at], i)
    else if at + 1 >= |p| || Target(p, at) >= start then
      i == at
    else
      i == at || i == at + 1 || Touches(p, Target(p, at), Target(p, at), i)
  }

  /** Two packets, possibly of different length, hold the same byte at offset i. */
  predicate SameAt(p: bytes, q: bytes, i: nat) {
    i < |p| && i < |q| && p[i] == q[i]
  }

  /** A successful decode depends on nothing but the offsets it touched: any write elsewhere,
      and any change of the packet's length beyond them, leaves it as it is. */
  lemma {:induction false} DecodeIsStable(p: bytes, q: bytes, start: nat, at: nat)
    requires start <= at
    requires WalkName(p, start, at).Good?
    requires forall i: nat :: Touches(p, start, at, i) ==> SameAt(p, q, i)
    ensures WalkName(q, start, at) == WalkName(p, start, at)
    decreases start, |p| - at
  {
    assert Touches(p, start, at, at);
    assert SameAt(p, q, at);
    if p[at] == 0 {
    } else if p[at] < 0xC0 {
      var next := at + 1 + p[at];
      forall i: nat | at <= i < next
        ensures SameAt(p, q, i)
      {
        assert Touches(p, start, at, i);
      }
      forall i: nat | Touches(p, start, next, i)
        ensures SameAt(p, q, i)
      {
        assert Touches(p, start, at, i);
      }
      assert SameAt(p, q, next - 1);
      DecodeIsStable(p, q, start, next);
      assert p[at + 1..next] == q[at + 1..next] by {
        forall i: nat | at <= i < next
          ensures p[i] == q[i]
        {
          assert SameAt(p, q, i);
        }
      }
    } else {
      var target := Target(p, at);
      assert Touches(p, start, at, at + 1);
      assert SameAt(p, q, at + 1);
      forall i: nat | Touches(p, target, target, i)
        ensures SameAt(p, q, i)
      {
        assert Touches(p, start, at, i);
      }
      DecodeIsStable(p, q, target, target);
    }
  }

  /** Nor does such a change make it look anywhere else. */
  lemma {:induction false} TouchesStable(p: bytes, q: bytes, start: nat, at: nat, i: nat)
    requires start <= at && WalkName(p, start, at).Good?
    requires forall j: nat :: Touches(p, start, at, j) ==> SameAt(p, q, j)
    requires Touches(q, start, at, i)
    ensures Touches(p, start, at, i)
    decreases start, |p| - at
  {
    assert Touches(p, start, at, at);
    assert SameAt(p, q, at);
    if 0 < p[at] < 0xC0 && p[at] <= 63 {
      var next := at + 1 + p[at];
      forall j: nat | Touches(p, start, next, j)
        ensures SameAt(p, q, j)
      {
        assert Touches(p, start, at, j);
      }
      assert Touches(p, start, at, next - 1);
      assert SameAt(p, q, next - 1);
      if !(at <= i < next) {
        TouchesStable(p, q, start, next, i);
      }
    } else if p[at] != 0 {
      assert Touches(p, start, at, at + 1);
      assert SameAt(p, q, at + 1);
      var target := Target(p, at);
      forall j: nat | Touches(p, target, target, j)
        ensures SameAt(p, q, j)
      {
        assert Touches(p, start, at, j);
      }
      if i != at && i != at + 1 {
        TouchesStable(p, q, target, target, i);
      }
    }
  }

  // ---------------------------------------------------------------- building a name

  /** What mdns_name_t holds while a name is read: host, service, proto and domain in the order
      in which they are filled; parts is the number of entries. */
  datatype Name = Name(labels: seq<bytes>, sub: bool, invalid: bool)

  const NO_NAME := Name([], false, false)

  /** Appends as much of src as the field has room for. */
  function Strlcat(dst: bytes, src: bytes): (r: bytes)
    ensures dst <= r || |dst| >= NAME_BUF_LEN
    ensures |r| < NAME_BUF_LEN
    ensures |dst| + |src| < NAME_BUF_LEN ==> r == dst + src
  {
    if |dst| + |src| < NAME_BUF_LEN then dst + src else (dst + src)[..NAME_BUF_LEN - 1]
  }

  /** A second label that is neither a service type nor a known domain belongs to the host. */
  predicate JoinsHost(text: bytes) {
    && (text == [] || text[0] != UNDERSCORE)
    && !SameText(text, LOCAL) && !SameText(text, ARPA) && !SameText(text, IP6) && !SameText(text, IN_ADDR)
  }

  /** A fifth entry, of either kind, spoils the name. */
  function Overflow(n: Name): Name {
    if |n.labels| == 4 then n.(invalid := true) else n
  }

  function AddText(n: Name, text: bytes): Name {
    if |n.labels| == 1 && JoinsHost(text) then
      n.(labels := [Strlcat(Strlcat(n.labels[0], [DOT]), text)])
    else if SameText(text, SUB) then
      n.(sub := true)
    else if !n.invalid then
      n.(labels := n.labels + [text])
    else
      n
  }

  function AddItem(n: Name, item: Item): (r: Name)
    ensures |n.labels| <= 4 ==> |r.labels| <= 4
  {
    match item
    case Jump => Overflow(n)
    case Label(raw) => AddText(Overflow(n), CStr(raw))
  }

  function Fold(n: Name, items: seq<Item>): (r: Name)
    ensures |n.labels| <= 4 ==> |r.labels| <= 4
    decreases |items|
  {
    if items == [] then n else Fold(AddItem(n, items[0]), items[1..])
  }

  lemma {:induction false} FoldAppend(n: Name, a: seq<Item>, b: seq<Item>)
    ensures Fold(n, a + b) == Fold(Fold(n, a), b)
    decreases |a|
  {
    if a == [] {
      assert a + b == b;
    } else {
      assert (a + b)[1..] == a[1..] + b;
      FoldAppend(AddItem(n, a[0]), a[1..], b);
    }
  }

  // ---------------------------------------------------------------- parsed names

  /** mdns_name_t after mdns_utils_parse_fqdn has moved the labels to their fields. */
  datatype Parsed = Parsed(host: bytes, service: bytes, proto: bytes, domain: bytes,
                           parts: nat, sub: bool, invalid: bool)

  function FieldOf(labels: seq<bytes>, i: nat): bytes {
    if i < |labels| then labels[i] else []
  }

  function Arrange(n: Name): (r: Parsed)
    requires |n.labels| <= 4
  {
    var l := n.labels;
    var raw := Parsed(FieldOf(l, 0), FieldOf(l, 1), FieldOf(l, 2), FieldOf(l, 3), |l|, n.sub, n.invalid);
    if |l| == 0 || n.invalid then
      raw
    else
      var moved := if |l| == 3 then raw.(host := [], service := l[0], proto := l[1], domain := l[2])
                   else if |l| == 2 then raw.(domain := l[1], service := [], proto := [])
                   else raw;
      if SameText(moved.domain, LOCAL) || SameText(moved.domain, ARPA) then moved else moved.(invalid := true)
  }

  datatype ParseResult = Unreadable | Read(next: nat, name: Parsed)

  function ParseName(p: bytes, start: nat): ParseResult {
    match WalkName(p, start, start)
    case Bad => Unreadable
    case Good(next, items) => Read(next, Arrange(Fold(NO_NAME, items)))
  }

  // ---------------------------------------------------------------- the decoder

  /** mdns_name_t.  Each field is the C string in a buffer of NAME_BUF_LEN bytes. */
  class NameBuffer {
    var host: bytes
    var service: bytes
    var proto: bytes
    var domain: bytes
    var parts: nat
    var sub: bool
    var invalid: bool

    constructor ()
      ensures Building() && Value() == NO_NAME
    {
      host, service, proto, domain := [], [], [], [];
      parts, sub, invalid := 0, false, false;
    }

    /** Every string leaves room for its NUL. */
    ghost predicate Valid()
      reads this
    {
      && parts <= 4
      && |host| < NAME_BUF_LEN && |service| < NAME_BUF_LEN && |proto| < NAME_BUF_LEN && |domain| < NAME_BUF_LEN
    }

    /** The fields not yet reached are empty. */
    ghost predicate Building()
      reads this
    {
      && Valid()
      && (parts < 1 ==> host == []) && (parts < 2 ==> service == [])
      && (parts < 3 ==> proto == []) && (parts < 4 ==> domain == [])
    }

    ghost function Value(): Name
      requires Building()
      reads this
    {
      Name([host, service, proto, domain][..parts], sub, invalid)
    }

    lemma NothingRead()
      requires Building() && parts == 0 && !sub && !invalid
      ensures Value() == NO_NAME
    {}

    /** The fields are the labels in order, and empty behind them. */
    lemma FieldsOfValue()
      requires Building()
      ensures var l := Value().labels;
              && |l| == parts && FieldOf(l, 0) == host && FieldOf(l, 1) == service && FieldOf(l, 2) == proto && FieldOf(l, 3) == domain
              && Value().sub == sub && Value().invalid == invalid && forall i :: 0 <= i < parts ==> l[i] == FieldOf(l, i)
    {
      var all := [host, service, proto, domain];
      assert forall i :: 0 <= i < parts ==> all[..parts][i] == all[i];
    }

    ghost function Fields(): Parsed
      reads this
    {
      Parsed(host, service, proto, domain, parts, sub, invalid)
    }

    method MarkOverflow()
      requires Building()
      modifies this
      ensures Building() && Value() == Overflow(old(Value()))
      ensures parts == 4 ==> invalid
    {
      if parts == 4 {
        invalid := true;
      }
    }

    /** The label in buf goes where the C string comparisons send it. */
    method Add(text: bytes)
      requires Building() && |text| <= 63 && 0 !in text
      requires parts == 4 ==> invalid
      modifies this
      ensures Building() && Value() == AddText(old(Value()), text)
    {
      if parts == 1 && JoinsHost(text) {
        host := Strlcat(host, [DOT]);
        host := Strlcat(host, text);
      } else if SameText(text, SUB) {
        sub := true;
      } else if !invalid {
        match parts {
          case 0 => host := text;
          case 1 => service := text;
          case 2 => proto := text;
          case _ => domain := text;
        }
        parts := parts + 1;
      }
    }
  }

  /** Copies len bytes and the closing NUL into the scratch buffer; fails at the end of the packet. */
  method CopyLabel(packet: bytes, index: nat, len: nat, buf: array<byte>) returns (ok: bool)
    requires len <= 63 && buf.Length == NAME_BUF_LEN
    modifies buf
    ensures ok == (len == 0 || index + len <= |packet|)
    ensures ok ==> buf[..len] == if len == 0 then [] else packet[index..index + len]
    ensures ok ==> buf[len] == 0
    ensures forall k :: len < k < NAME_BUF_LEN ==> buf[k] == old(buf[k])
  {
    var i := 0;
    while i < len
      invariant 0 <= i <= len
      invariant i > 0 ==> index + i <= |packet|
      invariant forall k :: 0 <= k < i ==> buf[k] == packet[index + k]
      invariant forall k :: i <= k < NAME_BUF_LEN ==> buf[k] == old(buf[k])
    {
      if index + i >= |packet| {
        return false;
      }
      buf[i] := packet[index + i];
      i := i + 1;
    }
    buf[len] := 0;
    ok := true;
  }

  /** What reading on from offset at makes of the name built so far. */
  function Decode(p: bytes, start: nat, at: nat, n: Name): (r: Option<(nat, Name)>)
    requires start <= at
  {
    match WalkName(p, start, at)
    case Bad => None
    case Good(next, items) => Some((next, Fold(n, items)))
  }

  lemma DecodeLabel(p: bytes, start: nat, at: nat, n: Name)
    requires start <= at < |p| && 0 < p[at] < 0xC0
    ensures p[at] > 63 || at + 1 + p[at] > |p| ==> Decode(p, start, at, n) == None
    ensures p[at] <= 63 && at + 1 + p[at] <= |p| ==>
              var next := at + 1 + p[at];
              Decode(p, start, at, n) == Decode(p, start, next, AddItem(n, Label(p[at + 1..next])))
  {
    if p[at] <= 63 && at + 1 + p[at] <= |p| {
      var next := at + 1 + p[at];
      var w := WalkName(p, start, next);
      if w.Good? {
        assert ([Label(p[at + 1..next])] + w.items)[1..] == w.items;
      }
    }
  }

  lemma DecodeJump(p: bytes, start: nat, at: nat, n: Name)
    requires start <= at < |p| && p[at] >= 0xC0
    ensures at + 1 >= |p| || Target(p, at) >= start ==> Decode(p, start, at, n) == None
    ensures at + 1 < |p| && Target(p, at) < start ==>
              var rest := Decode(p, Target(p, at), Target(p, at), AddItem(n, Jump));
              Decode(p, start, at, n) == if rest == None then None else Some((at + 2, rest.value.1))
  {
    if at + 1 < |p| && Target(p, at) < start {
      var w := WalkName(p, Target(p, at), Target(p, at));
      if w.Good? {
        assert ([Jump] + w.items)[1..] == w.items;
      }
    }
  }

  /** One label of the loop in mdns_utils_read_fqdn: through the scratch buffer into the name. */
  method ReadLabel(packet: bytes, ghost start: nat, at: nat, name: NameBuffer, buf: array<byte>) returns (ok: bool)
    requires name.Building() && buf.Length == NAME_BUF_LEN
    requires start <= at < |packet| && 0 < packet[at] < 0xC0
    modifies name, buf
    ensures name.Building()
    ensures !ok ==> Decode(packet, start, at, old(name.Value())) == None
    ensures ok ==> Decode(packet, start, at + 1 + packet[at], name.Value()) == Decode(packet, start, at, old(name.Value()))
  {
    DecodeLabel(packet, start, at, name.Value());
    name.MarkOverflow();
    var len: nat := packet[at];
    if len > 63 {
      return false;
    }
    ok := CopyLabel(packet, at + 1, len, buf);
    if ok {
      name.Add(CStr(buf[..len]));
    }
  }

  /** mdns_utils_read_fqdn. */
  method ReadFqdn(packet: bytes, start: nat, name: NameBuffer, buf: array<byte>) returns (next: Option<nat>)
    requires name.Building() && buf.Length == NAME_BUF_LEN
    modifies name, buf
    ensures name.Building()
    ensures match Decode(packet, start, start, old(name.Value()))
            case None => next == None
            case Some((e, read)) => next == Some(e) && name.Value() == read
    decreases start, 1
  {
    var index: nat := 0;
    ghost var result := Decode(packet, start, start, name.Value());
    while start + index < |packet| && packet[start + index] != 0
      invariant name.Building()
      invariant Decode(packet, start, start + index, name.Value()) == result
      decreases |packet| - start - index
    {
      var len: nat := packet[start + index];
      if len < 0xC0 {
        var copied := ReadLabel(packet, start, start + index, name, buf);
        if !copied {
          return None;
        }
        index := index + 1 + len;
      } else {
        next := FollowPointer(packet, start, start + index, name, buf);
        return;
      }
    }
    next := Some(start + index + 1);
  }

  /** The pointer branch of mdns_utils_read_fqdn. */
  method FollowPointer(packet: bytes, start: nat, at: nat, name: NameBuffer, buf: array<byte>) returns (next: Option<nat>)
    requires name.Building() && buf.Length == NAME_BUF_LEN
    requires start <= at < |packet| && packet[at] >= 0xC0
    modifies name, buf
    ensures name.Building()
    ensures match Decode(packet, start, at, old(name.Value()))
            case None => next == None
            case Some((e, read)) => next == Some(e) && name.Value() == read
    decreases start, 0
  {
    DecodeJump(packet, start, at, name.Value());
    name.MarkOverflow();
    if at + 1 >= |packet| {
      return None;
    }
    var address := (packet[at] as int - 0xC0) * 256 + packet[at + 1] as int;
    if address >= start {
      return None;
    }
    next := ReadFqdn(packet, address, name, buf);
    if next != None {
      next := Some(at + 2);
    }
  }

  /** mdns_utils_parse_fqdn. */
  method ParseFqdn(packet: bytes, start: nat, name: NameBuffer) returns (next: Option<nat>)
    requires name.Valid()
    modifies name
    ensures name.Valid()
    ensures match ParseName(packet, start)
            case Unreadable => next == None
            case Read(e, parsed) => next == Some(e) && name.Fields() == parsed
  {
    hide WalkName, Fold, SameText, NameBuffer.Value;
    name.parts, name.sub, name.invalid := 0, false, false;
    name.host, name.service, name.proto, name.domain := [], [], [], [];
    var buf := new byte[NAME_BUF_LEN];
    name.NothingRead();
    next := ReadFqdn(packet, start, name, buf);
    name.FieldsOfValue();
    if next == None || name.parts == 0 || name.invalid {
      return;
    }
    if name.parts == 3 {
      name.domain, name.proto, name.service, name.host := name.proto, name.service, name.host, [];
    } else if name.parts == 2 {
      name.domain := name.service;
      name.service, name.proto := [], [];
    }
    if SameText(name.domain, LOCAL) || SameText(name.domain, ARPA) {
      return;
    }
    name.invalid := true;
  }

  /** Where a name breaks off: at a length that is neither one of a label nor of a pointer, at a
      label or a pointer that leads beyond the packet, and at a pointer that does not lead back.
      The end of the packet ends a name like a zero. */
  lemma NameBreaks(p: bytes, start: nat, at: nat)
    requires start <= at
    ensures at >= |p| || p[at] == 0 ==> WalkName(p, start, at) == Good(at + 1, [])
    ensures at < |p| && 64 <= p[at] < 192 ==> WalkName(p, start, at) == Bad
    ensures at < |p| && 1 <= p[at] < 64 && at + 1 + p[at] > |p| ==> WalkName(p, start, at) == Bad
    ensures at < |p| && p[at] >= 192 && at + 1 == |p| ==> WalkName(p, start, at) == Bad
    ensures at + 1 < |p| && p[at] >= 192 && 256 * (p[at] - 192) as int + p[at + 1] as int >= start ==> WalkName(p, start, at) == Bad
  {}
}
