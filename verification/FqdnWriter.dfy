/** The byte writers of mdns_send.c and its compressing name encoder, append_fqdn.

    The functions say what one call does to the packet buffer and the write index, every
    failing branch included; the methods of TxBuffer do it in place. */
module FqdnWriter {
  import opened Bytes
  import opened FqdnReader

  /** The static packet array together with the write index. */
  datatype Buf = Buf(data: bytes, index: nat) {
    predicate Valid() {
      |data| == MAX_PACKET_SIZE && index <= MAX_PACKET_SIZE
    }
  }

  /** The buffer after a call and the length the call returns; 0 stands for failure. */
  datatype Step = Step(buf: Buf, written: nat)

  /** bs stored at the write index. */
  function Put(b: Buf, bs: bytes): (r: Buf)
    requires b.Valid() && b.index + |bs| <= MAX_PACKET_SIZE
    ensures r.Valid() && r.index == b.index + |bs|
  {
    Buf(b.data[..b.index] + bs + b.data[b.index + |bs|..], b.index + |bs|)
  }

  /** Put changes nothing else. */
  lemma PutBytesAt(b: Buf, bs: bytes)
    requires b.Valid() && b.index + |bs| <= MAX_PACKET_SIZE
    ensures var r := Put(b, bs);
            && (forall i :: 0 <= i < b.index ==> r.data[i] == b.data[i])
            && (forall i :: 0 <= i < |bs| ==> r.data[b.index + i] == bs[i])
            && (forall i :: r.index <= i < MAX_PACKET_SIZE ==> r.data[i] == b.data[i])
  {
  }

  lemma PutTwice(b: Buf, x: bytes, y: bytes)
    requires b.Valid() && b.index + |x| + |y| <= MAX_PACKET_SIZE
    ensures Put(Put(b, x), y) == Put(b, x + y)
  {
    assert Put(Put(b, x), y).data == Put(b, x + y).data;
  }

  function AppendU8(b: Buf, v: byte): (r: Step)
    requires b.Valid()
    ensures r.buf.Valid()
  {
    if b.index >= MAX_PACKET_SIZE then Step(b, 0) else Step(Put(b, [v]), 1)
  }

  function AppendU16(b: Buf, v: nat): (r: Step)
    requires b.Valid()
    ensures r.buf.Valid()
  {
    if b.index + 1 >= MAX_PACKET_SIZE then Step(b, 0) else Step(Put(b, U16(v)), 2)
  }

  /** append_u32 asks for one byte more than it writes. */
  function AppendU32(b: Buf, v: nat): (r: Step)
    requires b.Valid()
    ensures r.buf.Valid()
  {
    if b.index + 4 >= MAX_PACKET_SIZE then Step(b, 0) else Step(Put(b, U32(v)), 4)
  }

  /** append_string keeps the length in one byte and returns it in one byte. */
  function AppendString(b: Buf, s: bytes): (r: Step)
    requires b.Valid()
    ensures r.buf.Valid()
  {
    var len: nat := Narrow(|s|);
    if b.index + len + 1 >= MAX_PACKET_SIZE then Step(b, 0)
    else Step(Put(b, [len] + s[..len]), Narrow(len + 1))
  }

  /** The test append_fqdn puts an earlier offset to: the first label byte for byte, then the
      whole name as the decoder reads it, field by field and ignoring case. */
  predicate Matches(data: bytes, c: nat, strings: seq<bytes>)
    requires c < |data| && strings != []
  {
    var len: nat := Narrow(|strings[0]|);
    && data[c] == len
    && c + 1 + len <= |data|
    && data[c + 1..c + 1 + len] == strings[0][..len]
    && var read := Decode(data, c, c, NO_NAME);
       && read != None
       && |read.value.1.labels| == |strings|
       && forall i :: 0 <= i < |strings| ==> SameText(strings[i], read.value.1.labels[i])
  }

  /** The least matching offset in [from, index), if any. */
  function FirstMatch(data: bytes, index: nat, strings: seq<bytes>, from: nat): (r: Option<nat>)
    requires from <= index <= |data| && strings != []
    ensures r.Some? ==> from <= r.value < index
    decreases index - from
  {
    if from == index then None
    else if Matches(data, from, strings) then Some(from)
    else FirstMatch(data, index, strings, from + 1)
  }

  lemma {:induction false} FirstMatchIsFirst(data: bytes, index: nat, strings: seq<bytes>, from: nat, d: nat)
    requires from <= index <= |data| && strings != []
    ensures match FirstMatch(data, index, strings, from)
            case Some(c) => Matches(data, c, strings) && (from <= d < c ==> !Matches(data, d, strings))
            case None => from <= d < index ==> !Matches(data, d, strings)
    decreases index - from
  {
    if from < index && !Matches(data, from, strings) {
      FirstMatchIsFirst(data, index, strings, from + 1, d);
    }
  }

  const NAME_REF := 0xC000

  /** append_fqdn.  A failure to write a later label does not undo the labels before it, and
      the sum that is returned hides it. */
  function AppendName(b: Buf, strings: seq<bytes>): (r: Step)
    requires b.Valid()
    ensures r.buf.Valid()
    decreases |strings|
  {
    if strings == [] then
      AppendU8(b, 0)
    else
      match FirstMatch(b.data, b.index, strings, 0)
      case Some(c) => AppendU16(b, NAME_REF + c)
      case None =>
        var first := AppendString(b, strings[0]);
        if first.written == 0 then Step(first.buf, 0)
        else
          var rest := AppendName(first.buf, strings[1..]);
          Step(rest.buf, first.written + rest.written)
  }

  class TxBuffer {
    const data: array<byte>
    var index: nat

    constructor ()
      ensures Valid() && fresh(data) && index == 0
    {
      data := new byte[MAX_PACKET_SIZE];
      index := 0;
    }

    ghost predicate Valid()
      reads this
    {
      data.Length == MAX_PACKET_SIZE && index <= MAX_PACKET_SIZE
    }

    ghost function View(): (b: Buf)
      requires Valid()
      reads this, data
      ensures b.Valid()
    {
      Buf(data[..], index)
    }

    /** memcpy to the write index, and the index moved past the copy. */
    method PutBytes(bs: bytes)
      requires Valid() && index + |bs| <= MAX_PACKET_SIZE
      modifies this`index, data
      ensures Valid() && View() == Put(old(View()), bs)
    {
      var i := 0;
      while i < |bs|
        invariant 0 <= i <= |bs| && index == old(index)
        invariant forall k :: 0 <= k < data.Length && !(index <= k < index + i) ==> data[k] == old(data[k])
        invariant forall k :: 0 <= k < i ==> data[index + k] == bs[k]
      {
        data[index + i] := bs[i];
        i := i + 1;
      }
      index := index + |bs|;
      assert data[..] == Put(old(View()), bs).data;
    }

    method AppendByte(v: byte) returns (written: nat)
      requires Valid()
      modifies this`index, data
      ensures Valid() && Step(View(), written) == AppendU8(old(View()), v)
    {
      if index >= MAX_PACKET_SIZE {
        return 0;
      }
      PutBytes([v]);
      written := 1;
    }

    method AppendShort(v: nat) returns (written: nat)
      requires Valid()
      modifies this`index, data
      ensures Valid() && Step(View(), written) == AppendU16(old(View()), v)
    {
      if index + 1 >= MAX_PACKET_SIZE {
        return 0;
      }
      PutTwice(View(), [Narrow(v / 256)], [Narrow(v)]);
      var hi := AppendByte(Narrow(v / 256));
      var lo := AppendByte(Narrow(v));
      assert [Narrow(v / 256)] + [Narrow(v)] == U16(v);
      written := 2;
    }

    method AppendLong(v: nat) returns (written: nat)
      requires Valid()
      modifies this`index, data
      ensures Valid() && Step(View(), written) == AppendU32(old(View()), v)
    {
      if index + 4 >= MAX_PACKET_SIZE {
        return 0;
      }
      PutBytes(U32(v));
      written := 4;
    }

    method AppendText(s: bytes) returns (written: nat)
      requires Valid()
      modifies this`index, data
      ensures Valid() && Step(View(), written) == AppendString(old(View()), s)
    {
      var len: nat := Narrow(|s|);
      if index + len + 1 >= MAX_PACKET_SIZE {
        return 0;
      }
      PutTwice(View(), [len], s[..len]);
      var one := AppendByte(len);
      PutBytes(s[..len]);
      written := Narrow(len + 1);
    }

    /** memchr, memcmp and the trial decode of append_fqdn's search loop. */
    method FindMatch(strings: seq<bytes>) returns (found: Option<nat>)
      requires Valid() && strings != []
      ensures found == FirstMatch(data[..], index, strings, 0)
    {
      var len: nat := Narrow(|strings[0]|);
      var c := 0;
      while c < index
        invariant 0 <= c <= index
        invariant FirstMatch(data[..], index, strings, 0) == FirstMatch(data[..], index, strings, c)
      {
        if data[c] == len && c + 1 + len <= MAX_PACKET_SIZE && data[c + 1..c + 1 + len] == strings[0][..len] {
          var hit := SameNameAt(c, strings);
          if hit {
            return Some(c);
          }
        }
        c := c + 1;
      }
      found := None;
    }

    method SameNameAt(c: nat, strings: seq<bytes>) returns (same: bool)
      requires Valid() && c < index
      ensures same == (var read := Decode(data[..], c, c, NO_NAME);
                       && read != None
                       && |read.value.1.labels| == |strings|
                       && forall i :: 0 <= i < |strings| ==> SameText(strings[i], read.value.1.labels[i]))
    {
      var name := new NameBuffer();
      var buf := new byte[NAME_BUF_LEN];
      var content := ReadFqdn(data[..], c, name, buf);
      if content == None || name.parts != |strings| {
        return false;
      }
      var fields := [name.host, name.service, name.proto, name.domain];
      var i := 0;
      while i < |strings|
        invariant 0 <= i <= |strings|
        invariant forall k :: 0 <= k < i ==> SameText(strings[k], fields[k])
      {
        if !SameText(strings[i], fields[i]) {
          return false;
        }
        i := i + 1;
      }
      same := true;
    }

    method AppendFqdn(strings: seq<bytes>) returns (written: nat)
      requires Valid()
      modifies this`index, data
      ensures Valid() && Step(View(), written) == AppendName(old(View()), strings)
      decreases |strings|
    {
      if |strings| == 0 {
        written := AppendByte(0);
        return;
      }
      var found := FindMatch(strings);
      match found {
        case None =>
          written := AppendText(strings[0]);
          if written == 0 {
            return;
          }
          var rest := AppendFqdn(strings[1..]);
          written := written + rest;
        case Some(c) =>
          written := AppendShort(NAME_REF + c);
      }
    }
  }

  /** When the writers fail, and that they leave the buffer alone then; the 32-bit writer and the
      one for labels leave a byte unused at the end of the packet. */
  lemma RoomExactly(b: Buf, v: byte, w: nat, s: bytes)
    requires b.Valid() && |s| < 256
    ensures AppendU8(b, v).written == (if b.index < 1460 then 1 else 0)
    ensures AppendU16(b, w).written == (if b.index + 2 <= 1460 then 2 else 0)
    ensures AppendU32(b, w).written == (if b.index + 4 < 1460 then 4 else 0)
    ensures |s| < 255 ==> AppendString(b, s).written == (if b.index + 1 + |s| < 1460 then 1 + |s| else 0)
    ensures b.index == 1460 ==> AppendU8(b, v).buf == b
    ensures b.index + 2 > 1460 ==> AppendU16(b, w).buf == b
    ensures b.index + 4 >= 1460 ==> AppendU32(b, w).buf == b
    ensures b.index + 1 + |s| >= 1460 ==> AppendString(b, s).buf == b
    ensures b.index + 1 + |s| < 1460 ==> AppendString(b, s).buf == Put(b, [|s|] + s)
  {}

  /** Whenever the name stands in the packet already, spelled with the same first label and the
      same up to case otherwise, two bytes are enough: a pointer there or to an earlier place of
      that kind. */
  lemma CompressesWhenever(b: Buf, strings: seq<bytes>, c: nat)
    requires b.Valid() && strings != [] && |strings[0]| <= 63 && c + 1 + |strings[0]| <= b.index && b.index + 2 <= MAX_PACKET_SIZE
    requires b.data[c] == |strings[0]| && b.data[c + 1..c + 1 + |strings[0]|] == strings[0]
    requires var read := Decode(b.data, c, c, NO_NAME);
             && read.Some? && |read.value.1.labels| == |strings|
             && forall i :: 0 <= i < |strings| ==>
                  |strings[i]| == |read.value.1.labels[i]|
                  && forall j :: 0 <= j < |strings[i]| ==> Lower(strings[i][j]) == Lower(read.value.1.labels[i][j])
    ensures var s := AppendName(b, strings);
            && s.written == 2 && s.buf.index == b.index + 2 && b.index + 1 < |s.buf.data|
            && s.buf.data[b.index] >= 0xC0 && Target(s.buf.data, b.index) <= c
            && Matches(b.data, Target(s.buf.data, b.index), strings)
  {
    hide Decode, AppendName, Matches, FirstMatch, Put;
    IsMatch(b.data, c, strings);
    FirstMatchIsFirst(b.data, b.index, strings, 0, c);
    PointerIs(b, strings);
    var at := FirstMatch(b.data, b.index, strings, 0).value;
    PutBytesAt(b, U16(NAME_REF + at));
    NetworkOrder(NAME_REF + at);
    var data := AppendName(b, strings).buf.data;
    assert data[b.index + 0] == U16(NAME_REF + at)[0] && data[b.index + 1] == U16(NAME_REF + at)[1];
  }

  lemma IsMatch(data: bytes, c: nat, strings: seq<bytes>)
    requires strings != [] && |strings[0]| <= 63 && c + 1 + |strings[0]| <= |data|
    requires data[c] == |strings[0]| && data[c + 1..c + 1 + |strings[0]|] == strings[0]
    requires var read := Decode(data, c, c, NO_NAME);
             && read.Some? && |read.value.1.labels| == |strings|
             && forall i :: 0 <= i < |strings| ==>
                  |strings[i]| == |read.value.1.labels[i]|
                  && forall j :: 0 <= j < |strings[i]| ==> Lower(strings[i][j]) == Lower(read.value.1.labels[i][j])
    ensures Matches(data, c, strings)
  {
    hide Decode;
    assert strings[0][..|strings[0]|] == strings[0];
  }

  lemma PointerIs(b: Buf, strings: seq<bytes>)
    requires b.Valid() && strings != [] && FirstMatch(b.data, b.index, strings, 0).Some? && b.index + 2 <= MAX_PACKET_SIZE
    ensures AppendName(b, strings) == Step(Put(b, U16(NAME_REF + FirstMatch(b.data, b.index, strings, 0).value)), 2)
  {}
}
