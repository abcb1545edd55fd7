/** The record and question writers of mdns_send.c, on top of its name encoder. */
module RecordWriter {
  import opened Bytes
  import opened FqdnWriter

  const TYPE_A := 0x0001
  const TYPE_PTR := 0x000C
  const TYPE_TXT := 0x0010
  const TYPE_AAAA := 0x001C
  const TYPE_SRV := 0x0021

  const CLASS_IN := 0x0001
  const CLASS_IN_FLUSH := 0x8001

  /** mdns_txt_linked_item_t; a missing value differs from an empty one. */
  datatype TxtItem = TxtItem(key: bytes, value: Option<bytes>)

  const EQUALS: byte := 0x3d

  function TxtText(item: TxtItem): bytes {
    match item.value
    case None => item.key
    case Some(v) => item.key + [EQUALS] + v
  }

  /** The length byte is stored modulo 256. */
  function TxtEntry(item: TxtItem): bytes {
    [Narrow(|TxtText(item)|)] + TxtText(item)
  }

  function TxtEntries(items: seq<TxtItem>): bytes {
    if items == [] then [] else TxtEntry(items[0]) + TxtEntries(items[1..])
  }

  /** mdns_priv_append_one_txt_record_entry. */
  function AppendTxtItem(b: Buf, item: TxtItem): (r: Step)
    requires b.Valid()
    ensures r.buf.Valid()
  {
    var len := |TxtText(item)|;
    if b.index + len + 1 >= MAX_PACKET_SIZE then Step(b, 0) else Step(Put(b, TxtEntry(item)), len + 1)
  }

  /** The loop over the TXT items; None when an item does not fit. */
  function AppendTxtItems(b: Buf, items: seq<TxtItem>): (r: (Buf, Option<nat>))
    requires b.Valid()
    ensures r.0.Valid()
    decreases |items|
  {
    if items == [] then (b, Some(0))
    else
      var first := AppendTxtItem(b, items[0]);
      if first.written == 0 then (first.buf, None)
      else
        var rest := AppendTxtItems(first.buf, items[1..]);
        (rest.0, if rest.1 == None then None else Some(first.written + rest.1.value))
  }

  datatype Data =
    | NameData(target: seq<bytes>)
    | SrvData(priority: nat, weight: nat, port: nat, host: seq<bytes>)
    | TxtData(items: seq<TxtItem>)
    | Address4(ip: bytes)
    | Address6(ip6: bytes)

  /** A resource record as its writer sees it. */
  datatype Record = Record(owner: seq<bytes>, kind: nat, flush: bool, ttl: nat, data: Data) {
    predicate Valid() {
      && kind < 0x1_0000 && ttl < 0x1_0000_0000
      && (data.SrvData? ==> data.priority < 0x1_0000 && data.weight < 0x1_0000 && data.port < 0x1_0000)
      && (data.Address4? ==> |data.ip| == 4)
      && (data.Address6? ==> |data.ip6| == 16)
    }

    function Class(): nat {
      if flush then CLASS_IN_FLUSH else CLASS_IN
    }
  }

  /** The ten bytes of append_type; the length comes last and is still zero. */
  function Fixed(r: Record): (bs: bytes)
    ensures |bs| == 10
  {
    U16(r.kind) + U16(r.Class()) + U32(r.ttl) + U16(0)
  }

  function AppendType(b: Buf, r: Record): (s: Step)
    requires b.Valid()
    ensures s.buf.Valid()
  {
    if b.index + 10 >= MAX_PACKET_SIZE then Step(b, 0) else Step(Put(b, Fixed(r)), 10)
  }

  function AppendSrvFixed(b: Buf, d: Data): (s: Step)
    requires b.Valid() && d.SrvData?
    ensures s.buf.Valid()
  {
    var p := AppendU16(b, d.priority);
    var w := AppendU16(p.buf, d.weight);
    var t := AppendU16(w.buf, d.port);
    Step(t.buf, p.written + w.written + t.written)
  }

  function AppendData(b: Buf, d: Data): (s: Step)
    requires b.Valid()
    requires (d.Address4? ==> |d.ip| == 4) && (d.Address6? ==> |d.ip6| == 16)
    ensures s.buf.Valid()
  {
    match d
    case NameData(target) =>
      var n := AppendName(b, target);
      Step(n.buf, Narrow(n.written))
    case SrvData(_, _, _, host) =>
      var f := AppendSrvFixed(b, d);
      if f.written != 6 then Step(f.buf, 0)
      else
        var n := AppendName(f.buf, host);
        Step(n.buf, if Narrow(n.written) == 0 then 0 else Narrow(n.written) + 6)
    case TxtData(items) =>
      var t := AppendTxtItems(b, items);
      if t.1 == None then Step(t.0, 0)
      else if t.1.value == 0 && t.0.index < MAX_PACKET_SIZE then Step(Put(t.0, [0]), 1)
      else Step(t.0, t.1.value)
    case Address4(ip) =>
      if b.index + 3 >= MAX_PACKET_SIZE then Step(b, 0) else Step(Put(b, ip), 4)
    case Address6(ip6) =>
      if b.index + 16 > MAX_PACKET_SIZE then Step(b, 0) else Step(Put(b, ip6), 16)
  }

  /** set_u16. */
  function SetU16(b: Buf, at: nat, v: nat): (r: Buf)
    requires b.Valid()
    ensures r.Valid() && r.index == b.index
  {
    if at + 1 >= MAX_PACKET_SIZE then b
    else Buf(b.data[at := U16(v)[0]][at + 1 := U16(v)[1]], b.index)
  }

  /** A whole record: owner, fixed part with a zero length, data, and the length patched in.
      A failed record leaves behind whatever it had written. */
  function AppendRecord(b: Buf, r: Record): (s: Step)
    requires b.Valid() && r.Valid()
    ensures s.buf.Valid()
  {
    var n := AppendName(b, r.owner);
    if Narrow(n.written) == 0 then Step(n.buf, 0)
    else
      var body := AppendBody(n.buf, r);
      Step(body.buf, if body.written == 0 then 0 else Narrow(n.written) + body.written)
  }

  /** What follows the owner name. */
  function AppendBody(b: Buf, r: Record): (s: Step)
    requires b.Valid() && r.Valid()
    ensures s.buf.Valid()
  {
    var t := AppendType(b, r);
    if t.written == 0 then Step(t.buf, 0)
    else
      var d := AppendData(t.buf, r.data);
      if d.written == 0 then Step(d.buf, 0)
      else Step(SetU16(d.buf, t.buf.index - 2, d.written), 10 + d.written)
  }

  datatype Question = Question(name: seq<bytes>, kind: nat, unicast: bool)

  /** append_question: the last two fields are not checked. */
  function AppendQuestion(b: Buf, q: Question): (s: Step)
    requires b.Valid()
    ensures s.buf.Valid()
  {
    var n := AppendName(b, q.name);
    if Narrow(n.written) == 0 then Step(n.buf, 0)
    else
      var t := AppendU16(n.buf, q.kind);
      var c := AppendU16(t.buf, if q.unicast then CLASS_IN_FLUSH else CLASS_IN);
      Step(c.buf, Narrow(Narrow(n.written) + t.written + c.written))
  }

  lemma TxtItemsStep(b: Buf, items: seq<TxtItem>, i: nat, sum: nat)
    requires b.Valid() && i < |items|
    ensures var first := AppendTxtItem(b, items[i]);
            AddTo(sum, AppendTxtItems(b, items[i..])) ==
            if first.written == 0 then (first.buf, None)
            else AddTo(sum + first.written, AppendTxtItems(first.buf, items[i + 1..]))
  {
    hide AppendTxtItem;
    assert items[i..][0] == items[i] && items[i..][1..] == items[i + 1..];
  }

  class RecordBuffer {
    const out: TxBuffer

    constructor ()
      ensures out.Valid() && out.index == 0
    {
      out := new TxBuffer();
    }

    method SetShort(at: nat, v: nat)
      requires out.Valid()
      modifies out.data
      ensures out.Valid() && out.View() == SetU16(old(out.View()), at, v)
    {
      if at + 1 >= MAX_PACKET_SIZE {
        return;
      }
      out.data[at] := Narrow(v / 256);
      out.data[at + 1] := Narrow(v);
      assert out.data[..] == SetU16(old(out.View()), at, v).data;
    }

    method AppendFixed(r: Record) returns (written: nat)
      requires out.Valid()
      modifies out`index, out.data
      ensures out.Valid() && Step(out.View(), written) == AppendType(old(out.View()), r)
    {
      if out.index + 10 >= MAX_PACKET_SIZE {
        return 0;
      }
      ghost var b := out.View();
      var w1 := out.AppendShort(r.kind);
      var w2 := out.AppendShort(r.Class());
      PutTwice(b, U16(r.kind), U16(r.Class()));
      var w3 := out.AppendLong(r.ttl);
      PutTwice(b, U16(r.kind) + U16(r.Class()), U32(r.ttl));
      var w4 := out.AppendShort(0);
      PutTwice(b, U16(r.kind) + U16(r.Class()) + U32(r.ttl), U16(0));
      written := 10;
    }

    method AppendOneTxt(item: TxtItem) returns (written: nat)
      requires out.Valid()
      modifies out`index, out.data
      ensures out.Valid() && Step(out.View(), written) == AppendTxtItem(old(out.View()), item)
    {
      var len := |TxtText(item)|;
      if out.index + len + 1 >= MAX_PACKET_SIZE {
        return 0;
      }
      out.PutBytes(TxtEntry(item));
      written := len + 1;
    }

    method AppendTxt(items: seq<TxtItem>) returns (total: Option<nat>)
      requires out.Valid()
      modifies out`index, out.data
      ensures out.Valid() && (out.View(), total) == AppendTxtItems(old(out.View()), items)
    {
      hide AppendTxtItem;
      var i := 0;
      var sum: nat := 0;
      ghost var result := AppendTxtItems(out.View(), items);
      while i < |items|
        invariant 0 <= i <= |items| && out.Valid()
        invariant result == AddTo(sum, AppendTxtItems(out.View(), items[i..]))
      {
        TxtItemsStep(out.View(), items, i, sum);
        var l := AppendOneTxt(items[i]);
        if l == 0 {
          return None;
        }
        sum := sum + l;
        i := i + 1;
      }
      total := Some(sum);
    }

    method AppendPayload(d: Data) returns (written: nat)
      requires out.Valid()
      requires (d.Address4? ==> |d.ip| == 4) && (d.Address6? ==> |d.ip6| == 16)
      modifies out`index, out.data
      ensures out.Valid() && Step(out.View(), written) == AppendData(old(out.View()), d)
    {
      match d {
        case NameData(target) =>
          var n := out.AppendFqdn(target);
          written := Narrow(n);
        case SrvData(priority, weight, port, host) =>
          var p := out.AppendShort(priority);
          var w := out.AppendShort(weight);
          var t := out.AppendShort(port);
          if p + w + t != 6 {
            return 0;
          }
          var n := out.AppendFqdn(host);
          written := if Narrow(n) == 0 then 0 else Narrow(n) + 6;
        case TxtData(items) =>
          var total := AppendTxt(items);
          if total == None {
            return 0;
          }
          written := total.value;
          if written == 0 && out.index < MAX_PACKET_SIZE {
            out.PutBytes([0]);
            written := 1;
          }
        case Address4(ip) =>
          if out.index + 3 >= MAX_PACKET_SIZE {
            return 0;
          }
          out.PutBytes(ip);
          written := 4;
        case Address6(ip6) =>
          if out.index + 16 > MAX_PACKET_SIZE {
            return 0;
          }
          out.PutBytes(ip6);
          written := 16;
      }
    }

    /** The common course of all append_*_record functions. */
    method Append(r: Record) returns (written: nat)
      requires out.Valid() && r.Valid()
      modifies out`index, out.data
      ensures out.Valid() && Step(out.View(), written) == AppendRecord(old(out.View()), r)
    {
      var n := out.AppendFqdn(r.owner);
      if Narrow(n) == 0 {
        return 0;
      }
      var body := AppendRest(r);
      written := if body == 0 then 0 else Narrow(n) + body;
    }

    method AppendRest(r: Record) returns (written: nat)
      requires out.Valid() && r.Valid()
      modifies out`index, out.data
      ensures out.Valid() && Step(out.View(), written) == AppendBody(old(out.View()), r)
    {
      var t := AppendFixed(r);
      if t == 0 {
        return 0;
      }
      var dataLenLocation := out.index - 2;
      var d := AppendPayload(r.data);
      if d == 0 {
        return 0;
      }
      SetShort(dataLenLocation, d);
      written := 10 + d;
    }

    method AppendAsk(q: Question) returns (written: nat)
      requires out.Valid()
      modifies out`index, out.data
      ensures out.Valid() && Step(out.View(), written) == AppendQuestion(old(out.View()), q)
    {
      var n := out.AppendFqdn(q.name);
      if Narrow(n) == 0 {
        return 0;
      }
      var t := out.AppendShort(q.kind);
      var c := out.AppendShort(if q.unicast then CLASS_IN_FLUSH else CLASS_IN);
      written := Narrow(Narrow(n) + t + c);
    }
  }

  ghost function AddTo(n: nat, r: (Buf, Option<nat>)): (Buf, Option<nat>) {
    (r.0, if r.1 == None then None else Some(n + r.1.value))
  }

  /** A record that does not fit behind its owner leaves the owner in the packet. */
  lemma FailedRecordStays(b: Buf, r: Record)
    requires b.Valid() && r.Valid()
    requires var n := AppendName(b, r.owner); 0 < n.written < 256 && n.buf.index + 10 >= MAX_PACKET_SIZE
    ensures AppendRecord(b, r) == Step(AppendName(b, r.owner).buf, 0)
  {}

  /** Data that does not fit fails, an address at the last byte it may take. */
  lemma AddressRoom(b: Buf, ip: bytes, ip6: bytes)
    requires b.Valid() && |ip| == 4 && |ip6| == 16
    ensures AppendData(b, Address4(ip)).written == (if b.index + 4 <= 1460 then 4 else 0)
    ensures AppendData(b, Address6(ip6)).written == (if b.index + 16 <= 1460 then 16 else 0)
    ensures b.index + 4 > 1460 ==> AppendData(b, Address4(ip)).buf == b
    ensures b.index + 16 > 1460 ==> AppendData(b, Address6(ip6)).buf == b
  {}
}
