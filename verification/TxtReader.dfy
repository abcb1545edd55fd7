/** result_txt_create and its helpers (mdns_receive.c), and the round trip of TXT data
    (section 6 of RFC 6763) with its exact limit. */
module TxtReader {
  import opened Bytes
  import opened RecordWriter

  datatype Entry = Entry(key: bytes, value: Option<bytes>)

  // ---------------------------------------------------------------- the parser

  /** The loop of get_txt_items_count; None is its -1. */
  function CountFrom(data: bytes, i: nat): (r: Option<nat>)
    decreases |data| - i
  {
    if i >= |data| || data[i] == 0 then Some(0)
    else if i + 1 + data[i] > |data| then None
    else
      var rest := CountFrom(data, i + 1 + data[i]);
      if rest == None then None else Some(1 + rest.value)
  }

  function ItemCount(data: bytes): Option<nat> {
    if |data| == 1 then Some(0) else CountFrom(data, 0)
  }

  /** Where the first '=' is, or the length of the text. */
  function FirstEquals(text: bytes): (n: nat)
    ensures n <= |text|
  {
    if text == [] || text[0] == EQUALS then 0 else 1 + FirstEquals(text[1..])
  }

  /** get_txt_item_len; None is its -1. */
  function KeyLen(text: bytes): Option<nat>
    requires text != []
  {
    if text[0] == EQUALS then None else Some(FirstEquals(text))
  }

  /** One item of the loop in result_txt_create: the entry, if any, and where the loop goes
      on.  The step behind the key is taken whether or not there is a '='. */
  function ItemAt(data: bytes, i: nat): (r: (Option<Entry>, nat))
    requires i < |data| && 0 < data[i] && i + 1 + data[i] <= |data|
    ensures i < r.1 <= i + 2 + data[i]
  {
    var text := data[i + 1..i + 1 + data[i]];
    match KeyLen(text)
    case None => (None, i + 1 + |text|)
    case Some(n) =>
      if |text| > n + 1 then (Some(Entry(text[..n], Some(text[n + 1..]))), i + 1 + |text|)
      else (Some(Entry(text[..n], Option.None)), i + 2 + n)
  }

  /** The loop of result_txt_create with room for left more entries; None on a bad length. */
  function ParseFrom(data: bytes, i: nat, left: nat): (r: Option<seq<Entry>>)
    decreases |data| - i
  {
    if i >= |data| || left == 0 || data[i] == 0 then Some([])
    else if i + 1 + data[i] > |data| then None
    else
      var item := ItemAt(data, i);
      var rest := ParseFrom(data, item.1, if item.0 == None then left else left - 1);
      if rest == None then None
      else if item.0 == None then rest
      else Some([item.0.value] + rest.value)
  }

  function ParseTxt(data: bytes): seq<Entry> {
    match ItemCount(data)
    case None => []
    case Some(n) =>
      match ParseFrom(data, 0, n)
      case None => []
      case Some(entries) => entries
  }

  method CountItems(data: bytes) returns (count: Option<nat>)
    ensures count == ItemCount(data)
  {
    if |data| == 1 {
      return Some(0);
    }
    var n: nat, i: nat := 0, 0;
    while i < |data|
      invariant CountFrom(data, 0) == (if CountFrom(data, i) == None then None else Some(n + CountFrom(data, i).value))
      decreases |data| - i
    {
      var partLen := data[i];
      i := i + 1;
      if partLen == 0 {
        break;
      }
      if i + partLen > |data| {
        return None;
      }
      i := i + partLen;
      n := n + 1;
    }
    count := Some(n);
  }

  method ResultTxtCreate(data: bytes) returns (entries: seq<Entry>)
    ensures entries == ParseTxt(data)
  {
    var count := CountItems(data);
    if count == None || count.value == 0 {
      return [];
    }
    entries := [];
    var i: nat := 0;
    ghost var result := ParseFrom(data, 0, count.value);
    assert result.Some? ==> [] + result.value == result.value;
    while i < |data| && |entries| < count.value
      invariant |entries| <= count.value
      invariant result == Behind(entries, ParseFrom(data, i, count.value - |entries|))
      decreases |data| - i
    {
      var partLen := data[i];
      if partLen == 0 {
        break;
      }
      if i + 1 + partLen > |data| {
        return [];
      }
      var item := ItemAt(data, i);
      if item.0.Some? {
        BehindOne(entries, item.0.value, ParseFrom(data, item.1, count.value - |entries| - 1));
        entries := entries + [item.0.value];
      }
      i := item.1;
    }
    assert entries + [] == entries;
  }

  ghost function Behind(done: seq<Entry>, rest: Option<seq<Entry>>): Option<seq<Entry>> {
    if rest == None then None else Some(done + rest.value)
  }

  lemma BehindOne(done: seq<Entry>, e: Entry, rest: Option<seq<Entry>>)
    ensures Behind(done + [e], rest) == Behind(done, if rest == None then None else Some([e] + rest.value))
  {
    if rest.Some? {
      assert done + [e] + rest.value == done + ([e] + rest.value);
    }
  }

  // ---------------------------------------------------------------- the round trip

  /** An item that section 6.4 of RFC 6763 allows: a non-empty key without '=', and a text that
      fits its length byte. */
  predicate Proper(item: TxtItem) {
    item.key != [] && EQUALS !in item.key && |TxtText(item)| <= 255
  }

  predicate AllProper(items: seq<TxtItem>) {
    forall i :: 0 <= i < |items| ==> Proper(items[i])
  }

  /** What comes back for an item: an empty value is no value. */
  function Received(item: TxtItem): Entry {
    Entry(item.key, if item.value == None || item.value.value == [] then None else item.value)
  }

  function AllReceived(items: seq<TxtItem>): (r: seq<Entry>)
    ensures |r| == |items|
  {
    if items == [] then [] else [Received(items[0])] + AllReceived(items[1..])
  }

  /** The parser finds the items from offset i on. */
  ghost predicate Recovers(data: bytes, i: nat, items: seq<TxtItem>) {
    ParseFrom(data, i, |items|) == Some(AllReceived(items))
  }

  /** Where the parser goes on behind an item: one byte late if the item has no '='. */
  function Resume(i: nat, item: TxtItem): nat {
    i + |TxtEntry(item)| + if item.value == None then 1 else 0
  }

  /** Only the last item may lack a value. */
  predicate ValuesBeforeLast(items: seq<TxtItem>) {
    forall i :: 0 <= i < |items| - 1 ==> items[i].value.Some?
  }

  /** The bytes of append_txt_record: a single zero stands for no items. */
  function TxtWire(items: seq<TxtItem>): bytes {
    if items == [] then [0] else TxtEntries(items)
  }

  lemma FirstEqualsOfText(key: bytes, rest: bytes)
    requires EQUALS !in key && (rest == [] || rest[0] == EQUALS)
    ensures FirstEquals(key + rest) == |key|
  {
    if key == [] {
      assert key + rest == rest;
    } else {
      TailOfText(key, rest);
      FirstEqualsOfText(key[1..], rest);
    }
  }

  lemma TailOfText(key: bytes, rest: bytes)
    requires key != []
    ensures (key + rest)[1..] == key[1..] + rest && (key + rest)[0] == key[0]
  {
  }

  lemma KeyOfText(item: TxtItem)
    requires Proper(item)
    ensures KeyLen(TxtText(item)) == Some(|item.key|) && TxtText(item)[..|item.key|] == item.key
    ensures item.value.Some? ==> TxtText(item)[|item.key| + 1..] == item.value.value
  {
    var rest := if item.value == None then [] else [EQUALS] + item.value.value;
    assert TxtText(item) == item.key + rest;
    FirstEqualsOfText(item.key, rest);
    assert TxtText(item)[0] == item.key[0] && item.key[0] in item.key;
  }

  /** The parser at the place where an entry was written. */
  lemma ItemReads(data: bytes, i: nat, item: TxtItem)
    requires Proper(item) && i + |TxtEntry(item)| <= |data|
    requires data[i..i + |TxtEntry(item)|] == TxtEntry(item)
    ensures data[i] == |TxtText(item)| > 0 && i + 1 + data[i] <= |data|
    ensures ItemAt(data, i) == (Some(Received(item)), Resume(i, item))
  {
    var text := TxtText(item);
    assert data[i] == data[i..i + |TxtEntry(item)|][0];
    assert data[i + 1..i + 1 + |text|] == data[i..i + |TxtEntry(item)|][1..] == text;
    KeyOfText(item);
  }

  lemma EntriesSplit(items: seq<TxtItem>)
    requires items != []
    ensures TxtEntries(items) == TxtEntry(items[0]) + TxtEntries(items[1..])
  {
  }

  /** The parser at a boundary between entries. */
  lemma AtEntry(data: bytes, i: nat, items: seq<TxtItem>)
    requires AllProper(items) && items != [] && i <= |data| && data[i..] == TxtEntries(items)
    ensures var next := i + |TxtEntry(items[0])|;
            && i < |data| && data[i] > 0 && i + 1 + data[i] == next <= |data|
            && data[next..] == TxtEntries(items[1..])
            && ItemAt(data, i) == (Some(Received(items[0])), Resume(i, items[0]))
  {
    var e := TxtEntry(items[0]);
    EntriesSplit(items);
    assert data[i..][..|e|] == e;
    assert data[i..][|e|..] == TxtEntries(items[1..]);
    ItemReads(data, i, items[0]);
  }

  /** The boundary behind the first entry. */
  lemma AtNext(data: bytes, i: nat, items: seq<TxtItem>) returns (next: nat)
    requires AllProper(items) && items != [] && i <= |data| && data[i..] == TxtEntries(items)
    ensures next <= |data| && data[next..] == TxtEntries(items[1..]) && AllProper(items[1..])
    ensures i < |data| && data[i] > 0 && next == i + 1 + data[i]
    ensures Resume(i, items[0]) == if items[0].value == None then next + 1 else next
  {
    AtEntry(data, i, items);
    next := i + |TxtEntry(items[0])|;
  }

  lemma CountStep(data: bytes, i: nat, next: nat, n: nat)
    requires i < |data| && data[i] > 0 && i + 1 + data[i] == next <= |data|
    requires CountFrom(data, next) == Some(n)
    ensures CountFrom(data, i) == Some(n + 1)
  {
  }

  /** Counting the entries from any boundary on. */
  lemma {:induction false} CountReads(data: bytes, i: nat, items: seq<TxtItem>)
    requires AllProper(items) && i <= |data| && data[i..] == TxtEntries(items)
    ensures CountFrom(data, i) == Some(|items|)
    decreases |items|
  {
    if items != [] {
      var next := AtNext(data, i, items);
      CountReads(data, next, items[1..]);
      CountStep(data, i, next, |items| - 1);
    }
  }

  lemma NoneToRecover(data: bytes, i: nat)
    ensures Recovers(data, i, [])
  {}

  lemma {:induction false} ParseReads(data: bytes, i: nat, items: seq<TxtItem>)
    requires AllProper(items) && ValuesBeforeLast(items) && i <= |data| && data[i..] == TxtEntries(items)
    ensures Recovers(data, i, items)
    decreases |items|
  {
    hide TxtEntries, TxtEntry, ItemAt, Proper, Recovers;
    if items == [] {
      NoneToRecover(data, i);
    } else {
      AtEntry(data, i, items);
      ParseStep(data, i, items);
      if |items| > 1 {
        assert forall k :: 0 <= k < |items[1..]| - 1 ==> items[1..][k] == items[k + 1];
        ParseReads(data, Resume(i, items[0]), items[1..]);
      } else {
        assert items[1..] == [];
        NoneToRecover(data, Resume(i, items[0]));
      }
    }
  }

  lemma CountOfWire(items: seq<TxtItem>)
    requires AllProper(items) && items != []
    ensures ItemCount(TxtEntries(items)) == Some(|items|)
  {
    var data := TxtEntries(items);
    assert data[0..] == data;
    CountReads(data, 0, items);
    assert Proper(items[0]);
    EntriesSplit(items);
  }

  // ---------------------------------------------------------------- the other direction

  /** Fewer bytes than the entries need: the entries cannot all come out. */
  lemma {:induction false} TooFewBytes(data: bytes, i: nat, items: seq<TxtItem>)
    requires AllProper(items) && items != []
    requires i + |TxtEntries(items)| > |data|
    requires LastEquals(items) ==> data != [] && data[|data| - 1] == EQUALS
    ensures !Recovers(data, i, items)
    decreases |data| - i
  {
    if i < |data| && data[i] != 0 && i + 1 + data[i] <= |data| && Recovers(data, i, items) {
      var item := ItemAt(data, i);
      if item.0 == None {
        TooFewBytes(data, item.1, items);
      } else {
        assert item.0.value == Received(items[0]) by {
          assert AllReceived(items)[0] == Received(items[0]);
        }
        StepIsEnough(data, i, items[0]);
        EntriesSplit(items);
        assert AllReceived(items)[1..] == AllReceived(items[1..]);
        if |items| > 1 {
          TooFewBytes(data, item.1, items[1..]);
        } else {
          assert items[1..] == [] && TxtEntries(items[1..]) == [];
          LastStep(data, i, items[0]);
        }
      }
    }
  }

  /** The last item is a key with an empty value. */
  predicate LastEquals(items: seq<TxtItem>) {
    items != [] && items[|items| - 1].value == Some([])
  }

  /** The parser steps over at least as many bytes as the entry it found takes. */
  lemma StepIsEnough(data: bytes, i: nat, item: TxtItem)
    requires Proper(item) && i < |data| && 0 < data[i] && i + 1 + data[i] <= |data|
    requires ItemAt(data, i).0 == Some(Received(item))
    ensures ItemAt(data, i).1 >= i + |TxtEntry(item)|
  {
  }

  /** There is no way to find the last entry in a space smaller than its own. */
  lemma LastStep(data: bytes, i: nat, item: TxtItem)
    requires Proper(item) && i < |data| && 0 < data[i] && i + 1 + data[i] <= |data|
    requires i + |TxtEntry(item)| > |data|
    requires item.value == Some([]) ==> data[|data| - 1] == EQUALS
    ensures ItemAt(data, i).0 != Some(Received(item))
  {}

  lemma {:induction false} LastByte(items: seq<TxtItem>)
    requires LastEquals(items)
    ensures TxtEntries(items) != [] && TxtEntries(items)[|TxtEntries(items)| - 1] == EQUALS
    decreases |items|
  {
    if |items| == 1 {
      assert TxtEntries(items[1..]) == [];
      assert TxtEntries(items) == TxtEntry(items[0]);
    } else {
      LastByte(items[1..]);
      EntriesSplit(items);
    }
  }

  /** One entry that reads back leaves the rest of the data to the rest of the items. */
  lemma ParseStep(data: bytes, i: nat, items: seq<TxtItem>)
    requires AllProper(items) && items != [] && i <= |data| && data[i..] == TxtEntries(items)
    ensures Recovers(data, i, items) <==> Recovers(data, Resume(i, items[0]), items[1..])
  {
    AtEntry(data, i, items);
    assert AllReceived(items)[1..] == AllReceived(items[1..]);
  }

  lemma LostByOneByte(data: bytes, at: nat, items: seq<TxtItem>)
    requires AllProper(items) && items != [] && at <= |data| && data[at..] == TxtEntries(items)
    ensures !Recovers(data, at + 1, items)
  {
    LastByteOfData(data, at, items);
    TooFewBytes(data, at + 1, items);
  }

  lemma ProperTail(items: seq<TxtItem>)
    requires AllProper(items) && items != []
    ensures AllProper(items[1..]) && Proper(items[0])
  {
  }

  lemma LostBehindKey(data: bytes, i: nat, items: seq<TxtItem>)
    requires AllProper(items) && |items| > 1 && items[0].value == None
    requires i <= |data| && data[i..] == TxtEntries(items)
    ensures !Recovers(data, i, items)
  {
    hide Recovers, TxtEntries, TxtEntry;
    var next := AtNext(data, i, items);
    LostByOneByte(data, next, items[1..]);
    LostBefore(data, i, items);
  }

  lemma LostBefore(data: bytes, i: nat, items: seq<TxtItem>)
    requires AllProper(items) && items != [] && i <= |data| && data[i..] == TxtEntries(items)
    requires !Recovers(data, Resume(i, items[0]), items[1..])
    ensures !Recovers(data, i, items)
  {
    ParseStep(data, i, items);
  }

  lemma LastByteOfData(data: bytes, at: nat, items: seq<TxtItem>)
    requires at <= |data| && data[at..] == TxtEntries(items)
    ensures LastEquals(items) ==> data != [] && data[|data| - 1] == EQUALS
  {
    if LastEquals(items) {
      LastByte(items);
      assert data[|data| - 1] == data[at..][|data| - 1 - at];
    }
  }

  /** A key without a value, anywhere but at the end, makes the parser lose its place. */
  lemma {:induction false} ParseLosesItsPlace(data: bytes, i: nat, items: seq<TxtItem>)
    requires AllProper(items) && !ValuesBeforeLast(items) && i <= |data| && data[i..] == TxtEntries(items)
    ensures !Recovers(data, i, items)
    decreases |items|
  {
    if items[0].value == None {
      LostBehindKey(data, i, items);
    } else {
      var next := AtNext(data, i, items);
      var k :| 0 <= k < |items| - 1 && items[k].value == None;
      assert items[1..][k - 1] == items[k];
      ParseLosesItsPlace(data, next, items[1..]);
      LostBefore(data, i, items);
    }
  }

  /** What a peer reads from our TXT data is what we put in, exactly when no key without a
      value stands before the last item. */
  lemma TxtRoundTrip(items: seq<TxtItem>)
    requires AllProper(items)
    ensures ParseTxt(TxtWire(items)) == AllReceived(items) <==> ValuesBeforeLast(items)
  {
    if items != [] {
      var data := TxtEntries(items);
      CountOfWire(items);
      assert data[0..] == data;
      if ValuesBeforeLast(items) {
        ParseReads(data, 0, items);
      } else {
        ParseLosesItsPlace(data, 0, items);
      }
    }
  }

  // ---------------------------------------------------------------- what is no proper list

  /** The entries end behind the data, or at a zero length. */
  ghost predicate Overruns(data: bytes, i: nat)
    decreases |data| - i
  {
    i < |data| && data[i] != 0 && (i + 1 + data[i] > |data| || Overruns(data, i + 1 + data[i]))
  }

  lemma {:induction false} CountOverruns(data: bytes, i: nat)
    ensures CountFrom(data, i) == None <==> Overruns(data, i)
    decreases |data| - i
  {
    if i < |data| && data[i] != 0 && i + 1 + data[i] <= |data| {
      CountOverruns(data, i + 1 + data[i]);
    }
  }

  /** Data whose last length leads beyond the end gives nothing, and so does a single byte. */
  lemma OverrunGivesNothing(data: bytes)
    requires |data| == 1 || Overruns(data, 0)
    ensures ParseTxt(data) == []
  {
    CountOverruns(data, 0);
  }

  /** An entry that begins with an equals sign is passed over. */
  lemma NamelessIsPassedOver(data: bytes, i: nat, left: nat)
    requires i < |data| && left > 0 && data[i] != 0 && i + 1 + data[i] <= |data| && data[i + 1] == EQUALS
    ensures ParseFrom(data, i, left) == ParseFrom(data, i + 1 + data[i], left)
  {
    assert data[i + 1..i + 1 + data[i]][0] == EQUALS;
  }
}
