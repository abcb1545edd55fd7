/** The form decoder of the configuration page (web_server.c). */
module Form {
  import opened Bytes

  const PERCENT: byte := 37
  const AMPERSAND: byte := 38
  const PLUS: byte := 43
  const MINUS: byte := 45
  const EQUALS: byte := 61
  const SPACE: byte := 32

  // ---------------------------------------------------------------- percent decoding

  function HexValue(b: byte): (v: Option<nat>)
    ensures v.Some? ==> v.value < 16
  {
    if 48 <= b <= 57 then Some(b - 48)
    else if 65 <= b <= 70 then Some(b - 55)
    else if 97 <= b <= 102 then Some(b - 87)
    else None
  }

  /** What strtol(hex, &end, 16) makes of two characters if it takes both: a blank or a sign is as
      good as a first digit. */
  function HexPair(a: byte, b: byte): Option<byte> {
    match HexValue(b)
    case None => None
    case Some(low) =>
      match HexValue(a)
      case Some(high) => Some(16 * high + low)
      case None =>
        if a == SPACE || 9 <= a <= 13 || a == PLUS then Some(low)
        else if a == MINUS then Some(if low == 0 then 0 else 256 - low)
        else None
  }

  /** url_decode from position at, with room for so many characters. */
  function Decode(src: bytes, at: nat, room: nat): (r: bytes)
    ensures |r| <= room
    decreases |src| - at
  {
    if at >= |src| || room == 0 then []
    else if src[at] == PERCENT && at + 2 < |src| && HexPair(src[at + 1], src[at + 2]).Some? then
      [HexPair(src[at + 1], src[at + 2]).value] + Decode(src, at + 3, room - 1)
    else if src[at] == PLUS then [SPACE] + Decode(src, at + 1, room - 1)
    else [src[at]] + Decode(src, at + 1, room - 1)
  }

  /** The character url_decode writes next, and how many it reads for it. */
  function NextChar(src: bytes, at: nat): (r: (byte, nat))
    requires at < |src|
  {
    if src[at] == PERCENT && at + 2 < |src| && HexPair(src[at + 1], src[at + 2]).Some? then
      (HexPair(src[at + 1], src[at + 2]).value, 3)
    else if src[at] == PLUS then (SPACE, 1)
    else (src[at], 1)
  }

  lemma DecodeStep(src: bytes, at: nat, room: nat)
    requires at < |src| && room > 0
    ensures Decode(src, at, room) == [NextChar(src, at).0] + Decode(src, at + NextChar(src, at).1, room - 1)
  {}

  lemma DecodeEnds(src: bytes, at: nat, room: nat)
    requires at >= |src| || room == 0
    ensures Decode(src, at, room) == []
  {}

  /** url_decode: never more than dst.Length - 1 characters and the NUL behind them. */
  method UrlDecode(src: bytes, dst: array<byte>) returns (written: nat)
    requires dst.Length > 0
    modifies dst
    ensures written < dst.Length && dst[written] == 0
    ensures dst[..written] == Decode(src, 0, dst.Length - 1)
    ensures forall i :: written < i < dst.Length ==> dst[i] == old(dst[i])
  {
    hide Decode, HexPair;
    var si, di := 0, 0;
    assert dst[..0] + Decode(src, 0, dst.Length - 1) == Decode(src, 0, dst.Length - 1);
    while si < |src| && di < dst.Length - 1
      invariant 0 <= di <= dst.Length - 1 && 0 <= si
      invariant dst[..di] + Decode(src, si, dst.Length - 1 - di) == Decode(src, 0, dst.Length - 1)
      invariant forall i :: di <= i < dst.Length ==> dst[i] == old(dst[i])
      decreases |src| - si
    {
      ghost var before, start := dst[..di], si;
      DecodeStep(src, si, dst.Length - 1 - di);
      if src[si] == PERCENT && si + 2 < |src| {
        var pair := HexPair(src[si + 1], src[si + 2]);
        if pair.Some? {
          dst[di] := pair.value;
          si := si + 2;
        } else {
          dst[di] := src[si];
        }
      } else if src[si] == PLUS {
        dst[di] := SPACE;
      } else {
        dst[di] := src[si];
      }
      si := si + 1;
      assert dst[di] == NextChar(src, start).0 && si == start + NextChar(src, start).1;
      assert dst[..di + 1] == before + [dst[di]];
      di := di + 1;
    }
    DecodeEnds(src, si, dst.Length - 1 - di);
    assert dst[..di] + [] == dst[..di];
    dst[di] := 0;
    written := di;
  }

  // ---------------------------------------------------------------- any proper encoding

  predicate Special(b: byte) {
    b == PERCENT || b == AMPERSAND || b == PLUS || b == EQUALS || b == 0
  }

  /** e is an encoding of v: a character stands for itself unless it is special, a blank may be a
      plus sign, and any character may be written as % and two hexadecimal digits. */
  predicate Encodes(e: bytes, v: bytes)
    decreases |v|
  {
    if v == [] then e == []
    else
      e != [] && v[0] != 0
      && (|| (!Special(v[0]) && e[0] == v[0] && Encodes(e[1..], v[1..]))
          || (v[0] == SPACE && e[0] == PLUS && Encodes(e[1..], v[1..]))
          || (&& e[0] == PERCENT && |e| >= 3 && HexValue(e[1]).Some? && HexValue(e[2]).Some?
              && 16 * HexValue(e[1]).value + HexValue(e[2]).value == v[0] as int && Encodes(e[3..], v[1..])))
  }

  lemma {:induction false} DecodesWhatIsEncoded(src: bytes, at: nat, v: bytes, room: nat)
    requires at <= |src| && Encodes(src[at..], v)
    ensures Decode(src, at, room) == if |v| <= room then v else v[..room]
    decreases |v|
  {
    hide Decode, NextChar, Encodes;
    if v == [] || room == 0 {
      NothingToDecode(src, at, v, room);
    } else {
      EncodedStep(src, at, v);
      DecodeStep(src, at, room);
      DecodesWhatIsEncoded(src, at + NextChar(src, at).1, v[1..], room - 1);
    }
  }

  lemma NothingToDecode(src: bytes, at: nat, v: bytes, room: nat)
    requires at <= |src| && Encodes(src[at..], v) && (v == [] || room == 0)
    ensures Decode(src, at, room) == []
  {}

  /** The first character of an encoding, and the rest of it. */
  lemma EncodedStep(src: bytes, at: nat, v: bytes)
    requires at <= |src| && v != [] && Encodes(src[at..], v)
    ensures at < |src| && NextChar(src, at).0 == v[0] && at + NextChar(src, at).1 <= |src|
    ensures Encodes(src[at + NextChar(src, at).1..], v[1..])
  {}

  /** An encoding has neither of the characters that structure a form, and no NUL. */
  predicate Plain(e: bytes) {
    forall i :: 0 <= i < |e| ==> e[i] != AMPERSAND && e[i] != EQUALS && e[i] != 0
  }

  lemma {:induction false} EncodingIsPlain(e: bytes, v: bytes)
    requires Encodes(e, v)
    ensures Plain(e)
    decreases |v|
  {
    if v != [] {
      var n := if e[0] == PERCENT then 3 else 1;
      if e[0] == PERCENT {
        EncodingIsPlain(e[3..], v[1..]);
      } else {
        EncodingIsPlain(e[1..], v[1..]);
      }
      forall i | 0 <= i < |e|
        ensures e[i] != AMPERSAND && e[i] != EQUALS && e[i] != 0
      {
        if i >= n {
          assert e[i] == e[n..][i - n];
        }
      }
    }
  }

  // ---------------------------------------------------------------- finding a field

  /** strstr. */
  function Strstr(b: bytes, key: bytes): (r: Option<nat>)
    ensures r.Some? ==> r.value + |key| <= |b|
    decreases |b|
  {
    if key <= b then Some(0)
    else if b == [] then None
    else
      var rest := Strstr(b[1..], key);
      if rest == None then None else Some(rest.value + 1)
  }

  /** Everything before the first ampersand. */
  function UpToAmpersand(b: bytes): (r: bytes)
    ensures r <= b
  {
    if b == [] || b[0] == AMPERSAND then [] else [b[0]] + UpToAmpersand(b[1..])
  }

  /** The raw value extract_field decodes. */
  function RawField(body: bytes, field: bytes): Option<bytes> {
    match Strstr(body, field + [EQUALS])
    case None => None
    case Some(at) => Some(UpToAmpersand(body[at + |field| + 1..]))
  }

  /** extract_field; names longer than 30 characters would not fit its key. */
  method ExtractField(body: bytes, field: bytes, dst: array<byte>) returns (found: bool)
    requires dst.Length > 0 && |field| <= 30
    modifies dst
    ensures found == RawField(body, field).Some?
    ensures found ==> var v := Decode(RawField(body, field).value, 0, dst.Length - 1);
                      dst[..|v|] == v && dst[|v|] == 0
    ensures !found ==> dst[..] == old(dst[..])
  {
    var raw := RawField(body, field);
    if raw == None {
      return false;
    }
    var n := UrlDecode(raw.value, dst);
    found := true;
  }

  /** A form: names and raw values. */
  datatype Field = Field(name: bytes, raw: bytes)

  predicate PlainForm(fields: seq<Field>) {
    forall i :: 0 <= i < |fields| ==> Plain(fields[i].name) && Plain(fields[i].raw)
  }

  function Body(fields: seq<Field>): bytes {
    if fields == [] then []
    else
      fields[0].name + [EQUALS] + fields[0].raw
      + if |fields| == 1 then [] else [AMPERSAND] + Body(fields[1..])
  }

  predicate EndsWith(name: bytes, key: bytes) {
    |key| <= |name| && name[|name| - |key|..] == key
  }

  /** The first field whose name ends with the key. */
  function FirstEnding(fields: seq<Field>, key: bytes): (n: nat)
    ensures n <= |fields|
  {
    if fields == [] then 0
    else if EndsWith(fields[0].name, key) then 0
    else 1 + FirstEnding(fields[1..], key)
  }

  function ValueFound(fields: seq<Field>, key: bytes): Option<bytes> {
    var n := FirstEnding(fields, key);
    if n < |fields| then Some(fields[n].raw) else None
  }

  /** The key stands at position i. */
  predicate Match(b: bytes, i: nat, key: bytes) {
    i <= |b| && key <= b[i..]
  }

  predicate NotBefore(b: bytes, n: nat, key: bytes) {
    forall i :: 0 <= i < n ==> !Match(b, i, key)
  }

  function Shifted(r: Option<nat>, n: nat): Option<nat> {
    if r == None then None else Some(r.value + n)
  }

  lemma MatchBehindHead(b: bytes, i: nat, key: bytes)
    requires b != []
    ensures Match(b[1..], i, key) <==> Match(b, i + 1, key)
  {}

  lemma StrstrStep(b: bytes, key: bytes)
    requires b != [] && !Match(b, 0, key)
    ensures Strstr(b, key) == Shifted(Strstr(b[1..], key), 1)
  {}

  lemma {:induction false} StrstrSkips(b: bytes, n: nat, key: bytes)
    requires n <= |b| && NotBefore(b, n, key)
    ensures Strstr(b, key) == Shifted(Strstr(b[n..], key), n)
    decreases n
  {
    hide Match, Strstr;
    if n == 0 {
      assert b[0..] == b;
    } else {
      StrstrStep(b, key);
      forall i | 0 <= i < n - 1
        ensures !Match(b[1..], i, key)
      {
        MatchBehindHead(b, i, key);
      }
      StrstrSkips(b[1..], n - 1, key);
      assert b[1..][n - 1..] == b[n..];
    }
  }

  /** A match of key= ends with an equals sign, and has none and no ampersand before it. */
  lemma MatchShape(b: bytes, i: nat, key: bytes)
    requires Plain(key) && Match(b, i, key + [EQUALS])
    ensures i + |key| < |b| && b[i + |key|] == EQUALS && b[i..i + |key|] == key
    ensures forall j :: i <= j < i + |key| ==> b[j] != EQUALS && b[j] != AMPERSAND
  {}

  /** No match starts so early that its equals sign would come before the one of the first field. */
  lemma NoEarlierMatch(name: bytes, tail: bytes, key: bytes)
    requires Plain(name) && Plain(key) && |key| <= |name|
    ensures NotBefore(name + [EQUALS] + tail, |name| - |key|, key + [EQUALS])
  {
    var b := name + [EQUALS] + tail;
    assert forall j :: 0 <= j < |name| ==> b[j] == name[j] && b[j] != EQUALS;
    forall i | 0 <= i < |name| - |key|
      ensures !Match(b, i, key + [EQUALS])
    {
      if Match(b, i, key + [EQUALS]) {
        MatchShape(b, i, key);
      }
    }
  }

  /** A field whose name does not end with the key has no match in it. */
  lemma NoMatchInField(f: Field, tail: bytes, key: bytes)
    requires Plain(f.name) && Plain(f.raw) && Plain(key) && !EndsWith(f.name, key)
    ensures var b := f.name + [EQUALS] + f.raw + tail;
            tail == [] ==> NotBefore(b, |b|, key + [EQUALS])
    ensures var b := f.name + [EQUALS] + f.raw + tail;
            tail != [] && tail[0] == AMPERSAND ==> NotBefore(b, |f.name| + 1 + |f.raw| + 1, key + [EQUALS])
  {
    var b := f.name + [EQUALS] + f.raw + tail;
    var n := |f.name| + 1 + |f.raw|;
    assert forall j :: 0 <= j < |f.name| ==> b[j] == f.name[j] && b[j] != EQUALS;
    assert forall j :: |f.name| < j < n ==> b[j] == f.raw[j - |f.name| - 1] && b[j] != EQUALS;
    assert forall i :: 0 <= i <= |f.name| ==> b[i..|f.name|] == f.name[i..];
    assert tail != [] ==> b[n] == tail[0];
    forall i | 0 <= i < |b| && (i <= n || tail == []) && (tail != [] ==> tail[0] == AMPERSAND)
      ensures !Match(b, i, key + [EQUALS])
    {
      if Match(b, i, key + [EQUALS]) {
        MatchShape(b, i, key);
      }
    }
  }

  lemma {:induction false} UpToAmpersandOf(raw: bytes, tail: bytes)
    requires Plain(raw) && (tail == [] || tail[0] == AMPERSAND)
    ensures UpToAmpersand(raw + tail) == raw
    decreases |raw|
  {
    if raw != [] {
      assert (raw + tail)[1..] == raw[1..] + tail;
      UpToAmpersandOf(raw[1..], tail);
    } else {
      assert raw + tail == tail;
    }
  }

  lemma FoundAt(b: bytes, at: nat, key: bytes, raw: bytes, tail: bytes)
    requires at <= |b| && b[at..] == key + [EQUALS] + (raw + tail) && Strstr(b, key + [EQUALS]) == Some(at)
    requires Plain(raw) && (tail == [] || tail[0] == AMPERSAND)
    ensures RawField(b, key) == Some(raw)
  {
    hide Strstr, Plain, UpToAmpersand, RawField;
    BehindKey(b, at, key, raw + tail);
    RawFieldAt(b, key, at);
    UpToAmpersandOf(raw, tail);
  }

  lemma RawFieldAt(b: bytes, key: bytes, at: nat)
    requires Strstr(b, key + [EQUALS]) == Some(at)
    ensures at + |key| + 1 <= |b| && RawField(b, key) == Some(UpToAmpersand(b[at + |key| + 1..]))
  {}

  lemma RawFieldNowhere(b: bytes, key: bytes)
    requires Strstr(b, key + [EQUALS]) == None
    ensures RawField(b, key) == None
  {}

  lemma SliceOfSlice(b: bytes, n: nat, m: nat)
    requires n + m <= |b|
    ensures b[n..][m..] == b[n + m..]
  {}

  lemma BehindKey(b: bytes, at: nat, key: bytes, tail: bytes)
    requires at <= |b| && b[at..] == key + [EQUALS] + tail
    ensures at + |key| + 1 <= |b| && b[at + |key| + 1..] == tail
  {}

  lemma FoundInFirst(f: Field, tail: bytes, key: bytes)
    requires Plain(f.name) && Plain(f.raw) && Plain(key) && EndsWith(f.name, key) && (tail == [] || tail[0] == AMPERSAND)
    ensures RawField(f.name + [EQUALS] + f.raw + tail, key) == Some(f.raw)
  {
    hide NotBefore, RawField, Plain;
    var b := f.name + [EQUALS] + f.raw + tail;
    var n := |f.name| - |key|;
    NoEarlierMatch(f.name, f.raw + tail, key);
    assert b == f.name + [EQUALS] + (f.raw + tail);
    StrstrSkips(b, n, key + [EQUALS]);
    EndOfName(f.name, f.raw + tail, key);
    FoundAt(b, n, key, f.raw, tail);
  }

  lemma EndOfName(name: bytes, tail: bytes, key: bytes)
    requires EndsWith(name, key)
    ensures (name + [EQUALS] + tail)[|name| - |key|..] == key + [EQUALS] + tail
    ensures Strstr(key + [EQUALS] + tail, key + [EQUALS]) == Some(0)
  {}

  lemma NotFoundInFirst(f: Field, tail: bytes, key: bytes)
    requires Plain(f.name) && Plain(f.raw) && Plain(key) && !EndsWith(f.name, key) && (tail == [] || tail[0] == AMPERSAND)
    ensures RawField(f.name + [EQUALS] + f.raw + tail, key) == if tail == [] then None else RawField(tail[1..], key)
  {
    hide NotBefore, RawField, Plain, EndsWith;
    var b := f.name + [EQUALS] + f.raw + tail;
    NoMatchInField(f, tail, key);
    var n := if tail == [] then |b| else |f.name| + 1 + |f.raw| + 1;
    StrstrSkips(b, n, key + [EQUALS]);
    assert b[n..] == if tail == [] then [] else tail[1..];
    FoundBehind(b, n, key);
    if tail == [] {
      NothingInNothing(key);
    }
  }

  lemma FoundBehind(b: bytes, n: nat, key: bytes)
    requires n <= |b| && Strstr(b, key + [EQUALS]) == Shifted(Strstr(b[n..], key + [EQUALS]), n)
    ensures RawField(b, key) == RawField(b[n..], key)
  {
    hide Strstr, RawField, UpToAmpersand;
    var rest := Strstr(b[n..], key + [EQUALS]);
    if rest == None {
      RawFieldNowhere(b, key);
      RawFieldNowhere(b[n..], key);
    } else {
      RawFieldAt(b[n..], key, rest.value);
      RawFieldAt(b, key, rest.value + n);
      SliceOfSlice(b, n, rest.value + |key| + 1);
    }
  }

  /** What extract_field finds in any form: the value of the first field whose name ends with the
      name asked for. */
  lemma {:induction false} FindsFirstEnding(fields: seq<Field>, key: bytes)
    requires PlainForm(fields) && Plain(key)
    ensures RawField(Body(fields), key) == ValueFound(fields, key)
    decreases |fields|
  {
    hide RawField, EndsWith;
    if fields == [] {
      NothingInNothing(key);
    } else {
      var f := fields[0];
      var tail := if |fields| == 1 then [] else [AMPERSAND] + Body(fields[1..]);
      FindsFirstEnding(fields[1..], key);
      if EndsWith(f.name, key) {
        FoundInFirst(f, tail, key);
      } else {
        NotFoundInFirst(f, tail, key);
      }
    }
  }

  lemma NothingInNothing(key: bytes)
    ensures RawField([], key) == None
  {}

  /** The field of that name is the one that is found if and only if no field before it has a
      name with the same ending. */
  lemma {:induction false} FindsTheField(fields: seq<Field>, key: bytes, n: nat)
    requires n < |fields| && fields[n].name == key
    ensures FirstEnding(fields, key) == n <==> forall i :: 0 <= i < n ==> !EndsWith(fields[i].name, key)
    decreases n
  {
    if n > 0 && !EndsWith(fields[0].name, key) {
      FindsTheField(fields[1..], key, n - 1);
      assert forall i :: 1 <= i < |fields| ==> fields[i] == fields[1..][i - 1];
    }
  }

  const NAME_S: bytes := [115]
  const NAME_P: bytes := [112]
  const NAME_O: bytes := [111]

  lemma OneValue(e: bytes, v: bytes, room: nat)
    requires Encodes(e, v) && |v| <= room
    ensures Plain(e) && Decode(e, 0, room) == v
  {
    EncodingIsPlain(e, v);
    assert e[0..] == e;
    DecodesWhatIsEncoded(e, 0, v, room);
  }

  lemma ThreeNames(f: seq<Field>)
    requires |f| == 3 && f[0].name == NAME_S && f[1].name == NAME_P && f[2].name == NAME_O
    ensures ValueFound(f, NAME_S) == Some(f[0].raw) && ValueFound(f, NAME_P) == Some(f[1].raw)
            && ValueFound(f, NAME_O) == Some(f[2].raw)
  {
    FindsTheField(f, NAME_S, 0);
    FindsTheField(f, NAME_P, 1);
    FindsTheField(f, NAME_O, 2);
  }

  /** The form of the page: whatever encoding the browser chooses, the three values come back. */
  lemma FormRoundTrip(s: bytes, p: bytes, o: bytes, form: seq<Field>, room: nat)
    requires |form| == 3 && form[0].name == NAME_S && form[1].name == NAME_P && form[2].name == NAME_O
    requires Encodes(form[0].raw, s) && Encodes(form[1].raw, p) && Encodes(form[2].raw, o)
    requires |s| <= room && |p| <= room && |o| <= room
    ensures Reads(Body(form), NAME_S, room, s) && Reads(Body(form), NAME_P, room, p) && Reads(Body(form), NAME_O, room, o)
  {
    hide Body, Encodes, ValueFound, Reads, PlainForm;
    ThreeNames(form);
    ThreePlain(form, s, p, o);
    OneField(form, NAME_S, form[0].raw, s, room);
    OneField(form, NAME_P, form[1].raw, p, room);
    OneField(form, NAME_O, form[2].raw, o, room);
  }

  lemma ThreePlain(form: seq<Field>, s: bytes, p: bytes, o: bytes)
    requires |form| == 3 && form[0].name == NAME_S && form[1].name == NAME_P && form[2].name == NAME_O
    requires Encodes(form[0].raw, s) && Encodes(form[1].raw, p) && Encodes(form[2].raw, o)
    ensures PlainForm(form) && Plain(NAME_S) && Plain(NAME_P) && Plain(NAME_O)
  {
    EncodingIsPlain(form[0].raw, s);
    EncodingIsPlain(form[1].raw, p);
    EncodingIsPlain(form[2].raw, o);
  }

  lemma OneField(form: seq<Field>, key: bytes, raw: bytes, value: bytes, room: nat)
    requires PlainForm(form) && Plain(key) && ValueFound(form, key) == Some(raw) && Encodes(raw, value) && |value| <= room
    ensures Reads(Body(form), key, room, value)
  {
    hide Body, RawField, Decode, ValueFound, Encodes;
    FindsFirstEnding(form, key);
    OneValue(raw, value, room);
  }

  /** Extracting a field from the body into a buffer with so much room yields this value. */
  predicate Reads(body: bytes, field: bytes, room: nat, value: bytes) {
    var raw := RawField(body, field);
    raw.Some? && Decode(raw.value, 0, room) == value
  }

  // ---------------------------------------------------------------- what is no proper encoding

  /** A percent sign that is not followed by two characters strtol takes stands for itself, and so
      does one at the end. */
  lemma OddPercentStays(src: bytes, at: nat, room: nat)
    requires at < |src| && src[at] == PERCENT && room > 0
    requires at + 2 >= |src| || HexValue(src[at + 2]) == None
             || !(HexValue(src[at + 1]).Some? || src[at + 1] in [SPACE, PLUS, MINUS] || 9 <= src[at + 1] <= 13)
    ensures Decode(src, at, room) == [PERCENT] + Decode(src, at + 1, room - 1)
  {}

  /** strtol takes a blank or a sign for the first digit. */
  lemma SignIsTaken(src: bytes, at: nat, room: nat, low: nat)
    requires at + 2 < |src| && src[at] == PERCENT && room > 0 && HexValue(src[at + 2]) == Some(low)
    ensures src[at + 1] in [SPACE, PLUS] ==> Decode(src, at, room) == [low] + Decode(src, at + 3, room - 1)
    ensures src[at + 1] == MINUS ==> Decode(src, at, room) == [(256 - low) % 256] + Decode(src, at + 3, room - 1)
  {}

  /** Hexadecimal digits, small and capital. */
  lemma HexDigits(d: nat)
    requires d < 16
    ensures d < 10 ==> HexValue(48 + d) == Some(d)
    ensures d >= 10 ==> HexValue(65 + d - 10) == HexValue(97 + d - 10) == Some(d)
  {}
}
