/** The list of networks the configuration page shows (wifi_manager.c): a text in a buffer of
    fixed size, read back by an independent reader. */
module ScanList {
  import opened Bytes
  import opened Rename

  const JSON_SIZE := 2048
  const GUARD := 96
  const MAX_RECORDS := 20

  const QUOTE: byte := 34
  const COMMA: byte := 44
  const OPEN_BRACKET: byte := 91
  const BACKSLASH: byte := 92
  const CLOSE_BRACKET: byte := 93
  const CLOSE_BRACE: byte := 125

  const SSID_KEY: bytes := [123, 34, 115, 115, 105, 100, 34, 58, 34]
  const RSSI_KEY: bytes := [44, 34, 114, 115, 115, 105, 34, 58]
  const OPEN_KEY: bytes := [44, 34, 111, 112, 101, 110, 34, 58]
  const TRUE_TEXT: bytes := [116, 114, 117, 101]
  const FALSE_TEXT: bytes := [102, 97, 108, 115, 101]

  /** wifi_ap_record_t: the text of the SSID, the signal strength (int8_t), and whether there is
      no password. */
  datatype AccessPoint = AccessPoint(ssid: bytes, rssi: int, open: bool) {
    predicate Valid() {
      |ssid| <= 32 && 0 !in ssid && -128 <= rssi <= 127
    }
  }

  // ---------------------------------------------------------------- the text

  predicate Shown(b: byte) {
    b >= 0x20
  }

  /** The SSID without control characters. */
  function Visible(s: bytes): (r: bytes)
    ensures |r| <= |s|
  {
    if s == [] then []
    else Visible(s[..|s| - 1]) + ShowOne(s[|s| - 1])
  }

  function ShowOne(c: byte): bytes {
    if Shown(c) then [c] else []
  }

  function Escape(s: bytes): (r: bytes)
    ensures |r| <= 2 * |s|
  {
    if s == [] then []
    else
      var c := s[|s| - 1];
      Escape(s[..|s| - 1]) + EscapeOne(c)
  }

  function EscapeOne(c: byte): bytes {
    if c == BACKSLASH || c == QUOTE then [BACKSLASH, c] else if Shown(c) then [c] else []
  }

  /** printf("%d"). */
  function Signed(n: int): (r: bytes)
    ensures -128 <= n <= 127 ==> 1 <= |r| <= 4
  {
    SmallDecimal(n);
    if n < 0 then [45] + Decimal(-n) else Decimal(n)
  }

  lemma SmallDecimal(n: int)
    ensures 0 <= n <= 128 ==> |Decimal(n)| <= 3
    ensures -128 <= n < 0 ==> |Decimal(-n)| <= 3
  {
    var m := if n < 0 then -n else n;
    if m <= 128 {
      assert |Decimal(m / 10 / 10)| == 1;
      assert |Decimal(m / 10)| <= 2;
    }
  }

  /** The format of one entry, and what follows it. */
  function Formatted(ssid: bytes, rssi: int, open: bool, tail: bytes): (r: bytes)
    ensures -128 <= rssi <= 127 ==> 1 <= |r| <= 36 + |ssid| + |tail|
  {
    SSID_KEY + (ssid + ([QUOTE] + (RSSI_KEY + (Signed(rssi) + (OPEN_KEY + (Flag(open) + ([CLOSE_BRACE] + tail)))))))
  }

  function Flag(open: bool): (r: bytes)
    ensures 4 <= |r| <= 5
  {
    if open then TRUE_TEXT else FALSE_TEXT
  }

  function Entry(a: AccessPoint): (r: bytes)
    ensures a.Valid() ==> 1 <= |r| <= 100
  {
    Formatted(Escape(a.ssid), a.rssi, a.open, [])
  }

  lemma Joined(a: bytes, b: bytes, c: bytes)
    ensures (a + b) + c == a + (b + c)
  {}

  lemma EntryWithTail(a: AccessPoint, tail: bytes)
    ensures Entry(a) + tail == Formatted(Escape(a.ssid), a.rssi, a.open, tail)
  {
    hide Escape, Signed, Flag;
    var t0: bytes := [CLOSE_BRACE] + [];
    var t1 := Flag(a.open) + t0;
    var t2 := OPEN_KEY + t1;
    var t3 := Signed(a.rssi) + t2;
    var t4 := RSSI_KEY + t3;
    var t5 := [QUOTE] + t4;
    var t6 := Escape(a.ssid) + t5;
    Joined(SSID_KEY, t6, tail);
    Joined(Escape(a.ssid), t5, tail);
    Joined([QUOTE], t4, tail);
    Joined(RSSI_KEY, t3, tail);
    Joined(Signed(a.rssi), t2, tail);
    Joined(OPEN_KEY, t1, tail);
    Joined(Flag(a.open), t0, tail);
    assert t0 + tail == [CLOSE_BRACE] + tail;
  }

  function Entries(list: seq<AccessPoint>): bytes {
    if list == [] then []
    else Entries(list[..|list| - 1]) + (if |list| > 1 then [COMMA] else []) + Entry(list[|list| - 1])
  }

  function Text(list: seq<AccessPoint>): bytes {
    [OPEN_BRACKET] + Entries(list) + [CLOSE_BRACKET]
  }

  /** The access points shown, of the first n: hidden ones are left out, and so are those whose
      SSID occurred before. */
  function Listed(aps: seq<AccessPoint>, n: nat): (r: seq<AccessPoint>)
    requires n <= |aps|
    ensures |r| <= n
  {
    if n == 0 then []
    else Listed(aps, n - 1) + if aps[n - 1].ssid == [] || Earlier(aps, n - 1) then [] else [aps[n - 1]]
  }

  predicate Earlier(aps: seq<AccessPoint>, i: nat)
    requires i < |aps|
  {
    exists j :: 0 <= j < i && aps[j].ssid == aps[i].ssid
  }

  // ---------------------------------------------------------------- what is listed

  /** Every SSID that is not empty is listed once, namely by the access point that has it first. */
  lemma {:induction false} EachOnce(aps: seq<AccessPoint>, n: nat)
    requires n <= |aps|
    ensures forall a :: a in Listed(aps, n) <==> exists i :: 0 <= i < n && aps[i] == a && a.ssid != [] && !Earlier(aps, i)
    ensures forall x, y :: 0 <= x < y < |Listed(aps, n)| ==> Listed(aps, n)[x].ssid != Listed(aps, n)[y].ssid
  {
    if n > 0 {
      EachOnce(aps, n - 1);
      var before, now := Listed(aps, n - 1), Listed(aps, n);
      forall a
        ensures a in now <==> exists i :: 0 <= i < n && aps[i] == a && a.ssid != [] && !Earlier(aps, i)
      {
        if a in before {
          var i :| 0 <= i < n - 1 && aps[i] == a && a.ssid != [] && !Earlier(aps, i);
        }
      }
      if now != before {
        forall x | 0 <= x < |before|
          ensures now[x].ssid != aps[n - 1].ssid
        {
          assert now[x] == before[x] && before[x] in before;
        }
      }
    }
  }

  /** No SSID is forgotten. */
  lemma {:induction false} NoneForgotten(aps: seq<AccessPoint>, i: nat)
    requires i < |aps| && aps[i].ssid != []
    ensures exists a :: a in Listed(aps, |aps|) && a.ssid == aps[i].ssid
    decreases i
  {
    if Earlier(aps, i) {
      var j :| 0 <= j < i && aps[j].ssid == aps[i].ssid;
      NoneForgotten(aps, j);
    } else {
      EachOnce(aps, |aps|);
      assert aps[i] in Listed(aps, |aps|);
    }
  }

  predicate AllValid(list: seq<AccessPoint>) {
    forall i :: 0 <= i < |list| ==> list[i].Valid()
  }

  lemma {:induction false} EntriesFit(list: seq<AccessPoint>)
    requires AllValid(list)
    ensures |Entries(list)| <= if list == [] then 0 else 101 * |list| - 1
  {
    if list != [] {
      EntriesFit(list[..|list| - 1]);
    }
  }

  /** The text never reaches the end of its buffer. */
  lemma TextFits(aps: seq<AccessPoint>)
    requires |aps| <= MAX_RECORDS && AllValid(aps)
    ensures |Text(Listed(aps, |aps|))| <= 2021
  {
    ListedValid(aps, |aps|);
    EntriesFit(Listed(aps, |aps|));
  }

  lemma {:induction false} ListedValid(aps: seq<AccessPoint>, n: nat)
    requires n <= |aps| && AllValid(aps)
    ensures AllValid(Listed(aps, n))
  {
    if n > 0 {
      ListedValid(aps, n - 1);
    }
  }

  // ---------------------------------------------------------------- in place

  /** snprintf at the end of the text: what does not fit is cut off. */
  method Print(json: array<byte>, pos: nat, text: bytes) returns (n: nat)
    requires pos < json.Length
    modifies json
    ensures n == |text| && json[..pos] == old(json[..pos])
    ensures pos + |text| < json.Length ==> json[..pos + |text|] == old(json[..pos]) + text && json[pos + |text|] == 0
  {
    var fits := if pos + |text| < json.Length then |text| else json.Length - 1 - pos;
    for i := 0 to fits
      invariant json[..pos] == old(json[..pos]) && json[pos..pos + i] == text[..i]
    {
      json[pos + i] := text[i];
    }
    json[pos + fits] := 0;
    n := |text|;
  }

  /** The inner loop over one SSID; its buffer of 96 characters is never full. */
  method EscapeSsid(ssid: bytes) returns (text: bytes)
    requires |ssid| <= 32
    ensures text == Escape(ssid)
  {
    var buffer := new byte[96];
    var k, out := 0, 0;
    while k < |ssid| && out < buffer.Length - 3
      invariant 0 <= k <= |ssid| && out <= 2 * k && out + 3 <= buffer.Length
      invariant buffer[..out] == Escape(ssid[..k])
    {
      assert ssid[..k + 1][..k] == ssid[..k];
      ghost var before := buffer[..out];
      var ch := ssid[k];
      if ch == BACKSLASH || ch == QUOTE {
        buffer[out] := BACKSLASH;
        buffer[out + 1] := ch;
        out := out + 2;
        assert buffer[..out] == before + [BACKSLASH, ch];
      } else if ch >= 0x20 {
        buffer[out] := ch;
        out := out + 1;
        assert buffer[..out] == before + [ch];
      }
      k := k + 1;
    }
    assert ssid[..k] == ssid;
    text := buffer[..out];
  }

  method IsDuplicate(aps: seq<AccessPoint>, i: nat) returns (dup: bool)
    requires i < |aps|
    ensures dup == Earlier(aps, i)
  {
    for j := 0 to i
      invariant forall k :: 0 <= k < j ==> aps[k].ssid != aps[i].ssid
    {
      if aps[j].ssid == aps[i].ssid {
        return true;
      }
    }
    dup := false;
  }

  lemma EntriesGrow(list: seq<AccessPoint>, a: AccessPoint)
    ensures Entries(list + [a]) == Entries(list) + (if list == [] then [] else [COMMA]) + Entry(a)
  {}

  /** The text so far, up to position pos. */
  ghost predicate Written(json: array<byte>, pos: nat, list: seq<AccessPoint>)
    reads json
  {
    pos == 1 + |Entries(list)| && pos < json.Length && json[..pos] == [OPEN_BRACKET] + Entries(list) && AllValid(list)
  }

  /** The comma, if one is due, and the entry. */
  method AppendEntry(json: array<byte>, at: nat, a: AccessPoint, first: bool, ghost list: seq<AccessPoint>) returns (pos: nat)
    requires a.Valid() && first == (list == []) && at + 101 < json.Length && Written(json, at, list)
    modifies json
    ensures at < pos <= at + 101 && Written(json, pos, list + [a])
  {
    hide Formatted, Entries;
    EntriesGrow(list, a);
    var ssid := EscapeSsid(a.ssid);
    pos := at;
    if !first {
      var n := Print(json, pos, [COMMA]);
      pos := pos + n;
    }
    var text := Formatted(ssid, a.rssi, a.open, []);
    ghost var before := json[..pos];
    assert before == [OPEN_BRACKET] + Entries(list) + if first then [] else [COMMA];
    var n := Print(json, pos, text);
    pos := pos + n;
  }

  lemma NoneListed(aps: seq<AccessPoint>)
    ensures Listed(aps, 0) == []
  {}

  lemma ListedStep(aps: seq<AccessPoint>, i: nat)
    requires i < |aps|
    ensures Listed(aps, i + 1) == Listed(aps, i) + if aps[i].ssid == [] || Earlier(aps, i) then [] else [aps[i]]
  {}

  /** The loop of update_scan_cache: neither its guard nor the size of the buffer ever leaves an
      entry out. */
  method WriteList(aps: seq<AccessPoint>, json: array<byte>)
    requires |aps| <= MAX_RECORDS && AllValid(aps) && json.Length == JSON_SIZE
    modifies json
    ensures HasText(json, Listed(aps, |aps|))
  {
    hide Listed, Written, Earlier, HasText, AccessPoint.Valid;
    NoneListed(aps);
    ghost var list: seq<AccessPoint> := [];
    var pos := StartText(json);
    var first := true;
    var i := 0;
    while i < |aps| && pos < JSON_SIZE - GUARD
      invariant 0 <= i <= |aps|
      invariant list == Listed(aps, i) && first == (list == [])
      invariant 1 <= pos <= 1 + 101 * i && Written(json, pos, list)
    {
      ListedStep(aps, i);
      if aps[i].ssid != [] {
        var dup := IsDuplicate(aps, i);
        if !dup {
          pos := AppendEntry(json, pos, aps[i], first, list);
          first := false;
          list := list + [aps[i]];
        }
      }
      i := i + 1;
    }
    EndText(json, pos, list);
  }

  /** The buffer holds the text of the list, and its NUL. */
  ghost predicate HasText(json: array<byte>, list: seq<AccessPoint>)
    reads json
  {
    |Text(list)| < json.Length && json[..|Text(list)|] == Text(list) && json[|Text(list)|] == 0
  }

  /** update_scan_cache for the records the driver has found: at most 20 of them are used. */
  method UpdateScanCache(found: seq<AccessPoint>, json: array<byte>)
    requires AllValid(found) && json.Length == JSON_SIZE
    modifies json
    ensures var aps := if |found| > MAX_RECORDS then found[..MAX_RECORDS] else found;
            HasText(json, Listed(aps, |aps|))
  {
    WriteList(if |found| > MAX_RECORDS then found[..MAX_RECORDS] else found, json);
  }

  method StartText(json: array<byte>) returns (pos: nat)
    requires json.Length == JSON_SIZE
    modifies json
    ensures pos == 1 && Written(json, pos, [])
  {
    pos := Print(json, 0, [OPEN_BRACKET]);
  }

  method EndText(json: array<byte>, pos: nat, ghost list: seq<AccessPoint>)
    requires json.Length == JSON_SIZE && Written(json, pos, list) && pos + 1 < JSON_SIZE
    modifies json
    ensures HasText(json, list)
  {
    var _ := Print(json, pos, [CLOSE_BRACKET]);
    assert [OPEN_BRACKET] + Entries(list) + [CLOSE_BRACKET] == Text(list);
  }

  // ---------------------------------------------------------------- reading it back

  datatype Row = Row(ssid: bytes, rssi: int, open: bool)

  /** A string up to its closing quote: a backslash stands for the character behind it. */
  function ReadString(t: bytes): Option<(bytes, bytes)> {
    if t == [] then None
    else if t[0] == QUOTE then Some(([], t[1..]))
    else if t[0] == BACKSLASH then
      if |t| == 1 then None
      else
        match ReadString(t[2..])
        case None => None
        case Some(r) => Some(([t[1]] + r.0, r.1))
    else
      match ReadString(t[1..])
      case None => None
      case Some(r) => Some(([t[0]] + r.0, r.1))
  }

  function Expect(t: bytes, key: bytes): Option<bytes> {
    if key <= t then Some(t[|key|..]) else None
  }

  function ReadNumber(t: bytes): Option<(int, bytes)> {
    var negative := t != [] && t[0] == 45;
    var u := if negative then t[1..] else t;
    var n := DigitCount(u);
    if n == 0 then None
    else
      var v: int := Value(u[..n]);
      Some((if negative then -v else v, u[n..]))
  }

  function ReadFlag(t: bytes): Option<(bool, bytes)> {
    if TRUE_TEXT <= t then Some((true, t[|TRUE_TEXT|..]))
    else if FALSE_TEXT <= t then Some((false, t[|FALSE_TEXT|..]))
    else None
  }

  /** One entry: key, string, key, number, key, flag, brace. */
  function ReadEntry(t: bytes): Option<(Row, bytes)> {
    match Expect(t, SSID_KEY)
    case None => None
    case Some(t1) =>
      match ReadString(t1)
      case None => None
      case Some(ssid) =>
        match Expect(ssid.1, RSSI_KEY)
        case None => None
        case Some(t2) =>
          match ReadNumber(t2)
          case None => None
          case Some(rssi) =>
            match Expect(rssi.1, OPEN_KEY)
            case None => None
            case Some(t3) =>
              match ReadFlag(t3)
              case None => None
              case Some(open) =>
                match Expect(open.1, [CLOSE_BRACE])
                case None => None
                case Some(t4) => Some((Row(ssid.0, rssi.0, open.0), t4))
  }

  /** Further entries up to the closing bracket, each behind a comma. */
  function ReadMore(t: bytes, count: nat): Option<seq<Row>>
    decreases count
  {
    if t == [CLOSE_BRACKET] then Some([])
    else if count == 0 then None
    else
      match Expect(t, [COMMA])
      case None => None
      case Some(rest) =>
        match ReadEntry(rest)
        case None => None
        case Some(e) =>
          match ReadMore(e.1, count - 1)
          case None => None
          case Some(rows) => Some([e.0] + rows)
  }

  function ReadList(t: bytes): Option<seq<Row>> {
    match Expect(t, [OPEN_BRACKET])
    case None => None
    case Some(t1) =>
      if t1 == [CLOSE_BRACKET] then Some([])
      else
        match ReadEntry(t1)
        case None => None
        case Some(e) =>
          match ReadMore(e.1, |t|)
          case None => None
          case Some(rows) => Some([e.0] + rows)
  }

  lemma {:induction false} ReadsEscaped(s: bytes, tail: bytes)
    requires ReadString(tail).Some?
    ensures ReadString(Escape(s) + tail) == Some((Visible(s) + ReadString(tail).value.0, ReadString(tail).value.1))
    decreases |s|
  {
    hide ReadString;
    if s == [] {
      assert [] + tail == tail && [] + ReadString(tail).value.0 == ReadString(tail).value.0;
    } else {
      var c := s[|s| - 1];
      var front := s[..|s| - 1];
      ReadsOne(c, tail);
      ReadsEscaped(front, EscapeOne(c) + tail);
      Joined(Escape(front), EscapeOne(c), tail);
      Joined(Visible(front), ShowOne(c), ReadString(tail).value.0);
    }
  }

  lemma ReadsOne(c: byte, tail: bytes)
    requires ReadString(tail).Some?
    ensures ReadString(EscapeOne(c) + tail) == Some((ShowOne(c) + ReadString(tail).value.0, ReadString(tail).value.1))
  {
    if c == BACKSLASH || c == QUOTE {
      assert ([BACKSLASH, c] + tail)[2..] == tail;
    } else if Shown(c) {
      assert ([c] + tail)[1..] == tail;
    } else {
      assert [] + tail == tail && [] + ReadString(tail).value.0 == ReadString(tail).value.0;
    }
  }

  lemma {:induction false} CountsDigits(d: bytes, tail: bytes)
    requires AllDigits(d) && (tail == [] || !IsDigit(tail[0]))
    ensures DigitCount(d + tail) == |d|
    decreases |d|
  {
    if d != [] {
      assert (d + tail)[1..] == d[1..] + tail;
      CountsDigits(d[1..], tail);
    } else {
      assert d + tail == tail;
    }
  }

  lemma ReadsNumber(n: int, tail: bytes)
    requires tail != [] && !IsDigit(tail[0])
    ensures ReadNumber(Signed(n) + tail) == Some((n, tail))
  {
    var d := Decimal(if n < 0 then -n else n);
    CountsDigits(d, tail);
    ValueOfDecimal(if n < 0 then -n else n);
    assert (d + tail)[..|d|] == d && (d + tail)[|d|..] == tail;
    if n < 0 {
      assert (Signed(n) + tail)[1..] == d + tail;
    }
  }

  function RowOf(a: AccessPoint): Row {
    Row(Visible(a.ssid), a.rssi, a.open)
  }

  lemma ReadsEntry(a: AccessPoint, tail: bytes)
    ensures ReadEntry(Entry(a) + tail) == Some((RowOf(a), tail))
  {
    hide Expect, ReadString, ReadNumber, ReadFlag, Entry, Escape, Signed, Flag, Visible;
    var t4 := [CLOSE_BRACE] + tail;
    var t3 := Flag(a.open) + t4;
    var afterNumber := OPEN_KEY + t3;
    var t2 := Signed(a.rssi) + afterNumber;
    var afterString := RSSI_KEY + t2;
    var t1 := Escape(a.ssid) + ([QUOTE] + afterString);
    EntryWithTail(a, tail);
    Expected(SSID_KEY, t1);
    ReadsSsid(a.ssid, afterString);
    Expected(RSSI_KEY, t2);
    ReadsNumber(a.rssi, afterNumber);
    Expected(OPEN_KEY, t3);
    ReadsFlag(a.open, t4);
    Expected([CLOSE_BRACE], tail);
  }

  lemma Expected(key: bytes, tail: bytes)
    ensures Expect(key + tail, key) == Some(tail)
  {}

  lemma ReadsSsid(s: bytes, tail: bytes)
    ensures ReadString(Escape(s) + ([QUOTE] + tail)) == Some((Visible(s), tail))
  {
    assert ([QUOTE] + tail)[1..] == tail;
    ReadsEscaped(s, [QUOTE] + tail);
    assert Visible(s) + [] == Visible(s);
  }

  lemma ReadsFlag(open: bool, tail: bytes)
    ensures ReadFlag(Flag(open) + tail) == Some((open, tail))
  {
    var t := Flag(open) + tail;
    assert t[0] == (if open then 116 else 102);
    assert t[|Flag(open)|..] == tail;
  }

  // ---------------------------------------------------------------- the round trip

  function Rows(list: seq<AccessPoint>): seq<Row> {
    if list == [] then [] else [RowOf(list[0])] + Rows(list[1..])
  }

  function MoreEntries(list: seq<AccessPoint>, tail: bytes): (r: bytes)
    ensures |r| >= |list| + |tail|
  {
    if list == [] then tail else [COMMA] + (Entry(list[0]) + MoreEntries(list[1..], tail))
  }

  lemma {:induction false} EntriesFromFront(a: AccessPoint, list: seq<AccessPoint>, tail: bytes)
    ensures Entries([a] + list) + tail == Entry(a) + MoreEntries(list, tail)
    decreases |list|
  {
    hide Entry;
    var all := [a] + list;
    if list == [] {
      EntriesGrow([], a);
      NothingBefore(a, tail);
    } else {
      var last := list[|list| - 1];
      var front := list[..|list| - 1];
      assert all == [a] + front + [last];
      EntriesGrow([a] + front, last);
      EntriesFromFront(a, front, [COMMA] + (Entry(last) + tail));
      Joined(Entries([a] + front), [COMMA], Entry(last));
      Joined(Entries([a] + front), [COMMA] + Entry(last), tail);
      Joined([COMMA], Entry(last), tail);
      MoreAtEnd(front, last, tail);
      assert front + [last] == list;
    }
  }

  lemma NothingBefore(a: AccessPoint, tail: bytes)
    ensures Entries([]) + [] + Entry(a) == Entry(a) && [] + [a] == [a] && [a] + [] == [a]
    ensures MoreEntries([], tail) == tail
  {}

  lemma {:induction false} MoreAtEnd(list: seq<AccessPoint>, last: AccessPoint, tail: bytes)
    ensures MoreEntries(list + [last], tail) == MoreEntries(list, [COMMA] + (Entry(last) + tail))
    decreases |list|
  {
    hide Entry;
    if list == [] {
      assert [] + [last] == [last] && [last][1..] == [];
    } else {
      MoreAtEnd(list[1..], last, tail);
      assert (list + [last])[1..] == list[1..] + [last];
    }
  }

  lemma {:induction false} ReadsMore(list: seq<AccessPoint>, count: nat)
    requires count >= |list|
    ensures ReadMore(MoreEntries(list, [CLOSE_BRACKET]), count) == Some(Rows(list))
    decreases |list|
  {
    hide Entry, ReadEntry, Expect;
    if list != [] {
      var rest := MoreEntries(list[1..], [CLOSE_BRACKET]);
      Expected([COMMA], Entry(list[0]) + rest);
      ReadsEntry(list[0], rest);
      ReadsMore(list[1..], count - 1);
      assert ([COMMA] + (Entry(list[0]) + rest))[0] == COMMA;
    }
  }

  /** Reading the text back yields the listed access points, in order, each SSID without its
      control characters. */
  lemma ListRoundTrip(list: seq<AccessPoint>)
    ensures ReadList(Text(list)) == Some(Rows(list))
  {
    hide Entry, ReadEntry, Expect, ReadMore, Entries;
    Joined([OPEN_BRACKET], Entries(list), [CLOSE_BRACKET]);
    Expected([OPEN_BRACKET], Entries(list) + [CLOSE_BRACKET]);
    if list == [] {
      NoEntries();
      assert [] + [CLOSE_BRACKET] == [CLOSE_BRACKET];
    } else {
      var rest := list[1..];
      assert [list[0]] + rest == list;
      EntriesFromFront(list[0], rest, [CLOSE_BRACKET]);
      ReadsEntry(list[0], MoreEntries(rest, [CLOSE_BRACKET]));
      EntryIsLong(list[0], MoreEntries(rest, [CLOSE_BRACKET]));
      ReadsMore(rest, |Text(list)|);
    }
  }

  lemma NoEntries()
    ensures Entries([]) == []
  {}

  lemma EntryIsLong(a: AccessPoint, tail: bytes)
    ensures |Entry(a) + tail| > |tail| + 1
  {}

  /** What the page shows for what the driver found: each SSID that is not hidden, once. */
  lemma PageShowsEachOnce(aps: seq<AccessPoint>)
    requires |aps| <= MAX_RECORDS && AllValid(aps)
    ensures var list := Listed(aps, |aps|);
            && ReadList(Text(list)) == Some(Rows(list)) && |Text(list)| <= 2021
            && (forall x, y :: 0 <= x < y < |list| ==> list[x].ssid != list[y].ssid)
            && (forall i :: 0 <= i < |aps| && aps[i].ssid != [] ==> exists a :: a in list && a.ssid == aps[i].ssid)
  {
    ListRoundTrip(Listed(aps, |aps|));
    TextFits(aps);
    EachOnce(aps, |aps|);
    forall i | 0 <= i < |aps| && aps[i].ssid != []
      ensures exists a :: a in Listed(aps, |aps|) && a.ssid == aps[i].ssid
    {
      NoneForgotten(aps, i);
    }
  }
}
