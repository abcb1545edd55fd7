/** mangle_name of mdns_receive.c: the next name to try after a lost conflict (section 9 of
    RFC 6762). */
module Rename {
  import opened Bytes

  const DASH: byte := 0x2d
  const ZERO: byte := 0x30
  const PLUS: byte := 0x2b
  const INT_MAX := 0x7fff_ffff

  // ---------------------------------------------------------------- decimal numbers

  predicate IsDigit(c: byte) {
    0x30 <= c <= 0x39
  }

  predicate IsSpace(c: byte) {
    c == 0x20 || 9 <= c <= 13
  }

  predicate AllDigits(s: bytes) {
    forall i :: 0 <= i < |s| ==> IsDigit(s[i])
  }

  /** printf("%d") of a number that is not negative. */
  function Decimal(n: nat): (s: bytes)
    ensures s != [] && AllDigits(s)
    decreases n
  {
    if n < 10 then [ZERO + n] else Decimal(n / 10) + [ZERO + n % 10]
  }

  function Value(s: bytes): nat
    requires AllDigits(s)
  {
    if s == [] then 0
    else Value(s[..|s| - 1]) * 10 + (s[|s| - 1] - ZERO) as nat
  }

  lemma {:induction false} ValueOfDecimal(n: nat)
    ensures Value(Decimal(n)) == n
    decreases n
  {
    var s := Decimal(n);
    if n < 10 {
      assert s[..0] == [];
    } else {
      ValueOfDecimal(n / 10);
      assert s[..|s| - 1] == Decimal(n / 10);
    }
  }

  /** A digit string is at least as long as the number it stands for. */
  lemma {:induction false} DecimalIsShortest(s: bytes)
    requires AllDigits(s) && s != []
    ensures |Decimal(Value(s))| <= |s|
    decreases |s|
  {
    if |s| > 1 {
      var front := s[..|s| - 1];
      DecimalIsShortest(front);
      var v := Value(s);
      assert v / 10 == Value(front);
    } else {
      assert s[..0] == [];
    }
  }

  /** Counting up adds at most one digit. */
  lemma {:induction false} DecimalOfNext(n: nat)
    ensures |Decimal(n)| <= |Decimal(n + 1)| <= |Decimal(n)| + 1
    decreases n
  {
    if n >= 9 {
      if (n + 1) % 10 == 0 {
        DecimalOfNext(n / 10);
        assert (n + 1) / 10 == n / 10 + 1;
      } else {
        assert (n + 1) / 10 == n / 10;
      }
    }
  }

  // ---------------------------------------------------------------- the C library

  /** strrchr(s, '-'). */
  function LastDash(s: bytes): (r: Option<nat>)
    ensures r.Some? ==> r.value < |s| && s[r.value] == DASH
    ensures r.Some? ==> forall i :: r.value < i < |s| ==> s[i] != DASH
    ensures r == None ==> DASH !in s
  {
    if s == [] then None
    else if s[|s| - 1] == DASH then Some(|s| - 1)
    else LastDash(s[..|s| - 1])
  }

  function SkipSpace(s: bytes): (n: nat)
    ensures n <= |s|
  {
    if s == [] || !IsSpace(s[0]) then 0 else 1 + SkipSpace(s[1..])
  }

  function DigitCount(s: bytes): (n: nat)
    ensures n <= |s| && AllDigits(s[..n])
  {
    if s == [] || !IsDigit(s[0]) then 0
    else
      assert s[..1 + DigitCount(s[1..])] == [s[0]] + s[1..][..DigitCount(s[1..])];
      1 + DigitCount(s[1..])
  }

  /** strtol(s, &end, 10) for a text without '-': the value, held at LONG_MAX, and end - s.
      Without any digit nothing is consumed. */
  function Strtol(s: bytes): (r: (nat, nat))
    ensures r.0 <= INT_MAX && r.1 <= |s|
  {
    var blank := SkipSpace(s);
    var sign := if blank < |s| && s[blank] == PLUS then 1 else 0;
    var at := blank + sign;
    var n := DigitCount(s[at..]);
    if n == 0 then (0, 0)
    else (Least(Value(s[at..][..n]), INT_MAX), at + n)
  }

  function Least(a: nat, b: nat): nat {
    if a < b then a else b
  }

  // ---------------------------------------------------------------- mangle_name

  /** The number behind the last dash, if there is nothing else behind it. */
  function Suffix(name: bytes): (r: Option<(bytes, nat)>) {
    match LastDash(name)
    case None => None
    case Some(p) =>
      var number := Strtol(name[p + 1..]);
      if number.1 == |name| - p - 1 then Some((name[..p], number.0)) else None
  }

  function Numbered(base: bytes, k: nat): bytes {
    base + [DASH] + Decimal(k)
  }

  function Mangle(name: bytes): bytes {
    match Suffix(name)
    case None => Numbered(name, 2)
    case Some((base, k)) => Numbered(base, k + 1)
  }

  /** memcpy of text to dst + at. */
  method Copy(dst: array<byte>, at: nat, text: bytes)
    requires at + |text| <= dst.Length
    modifies dst
    ensures dst[..at] == old(dst[..at])
    ensures dst[at..at + |text|] == text
    ensures dst[at + |text|..] == old(dst[at + |text|..])
  {
    var i := 0;
    while i < |text|
      invariant 0 <= i <= |text|
      invariant dst[..at] == old(dst[..at])
      invariant dst[at..at + i] == text[..i]
      invariant dst[at + |text|..] == old(dst[at + |text|..])
    {
      dst[at + i] := text[i];
      i := i + 1;
      assert text[..i] == text[..i - 1] + [text[i - 1]];
    }
  }

  /** sprintf of text to dst + at, with the closing NUL. */
  method Print(dst: array<byte>, at: nat, text: bytes)
    requires at + |text| < dst.Length && 0 !in text && 0 !in dst[..at]
    modifies dst
    ensures CStr(dst[..]) == old(dst[..at]) + text
  {
    Copy(dst, at, text);
    dst[at + |text|] := 0;
    assert dst[..at + |text|] == old(dst[..at]) + text;
    TextBeforeNul(dst[..], old(dst[..at]) + text);
  }

  lemma DigitsAreText(s: bytes)
    requires AllDigits(s)
    ensures 0 !in s
  {
  }

  /** "%s-2" in a buffer of strlen + 3. */
  method PrintSecond(name: bytes) returns (ret: array<byte>)
    requires 0 !in name
    ensures CStr(ret[..]) == Numbered(name, 2)
  {
    ret := new byte[|name| + 3];
    DigitsAreText(Decimal(2));
    assert |Decimal(2)| == 1;
    Print(ret, 0, Numbered(name, 2));
  }

  /** The old name with its suffix overwritten, in a buffer of strlen + 2. */
  method PrintNext(name: bytes, p: nat, k: nat) returns (ret: array<byte>)
    requires 0 !in name && p <= |name| && p + 1 + |Decimal(k)| + 1 <= |name| + 2
    ensures CStr(ret[..]) == Numbered(name[..p], k)
  {
    ret := new byte[|name| + 2];
    Copy(ret, 0, name);
    assert ret[..p] == ret[0..|name|][..p] == name[..p];
    DigitsAreText(Decimal(k));
    Print(ret, p, [DASH] + Decimal(k));
    assert name[..p] + ([DASH] + Decimal(k)) == Numbered(name[..p], k);
  }

  /** The buffers have the sizes the source allocates; every write is inside them. */
  method MangleName(name: bytes) returns (ret: array<byte>)
    requires 0 !in name
    requires Suffix(name).Some? ==> Suffix(name).value.1 < INT_MAX
    ensures CStr(ret[..]) == Mangle(name)
  {
    hide Strtol, LastDash, Decimal, CStr;
    var p := LastDash(name);
    var suffix: nat := 2;
    if p.Some? {
      var number := Strtol(name[p.value + 1..]);
      suffix := number.0;
      if number.1 != |name| - p.value - 1 {
        p := None;
      }
    }
    if p == None {
      ret := PrintSecond(name);
    } else {
      FitsAllocation(name);
      ret := PrintNext(name, p.value, suffix + 1);
    }
  }

  lemma {:induction false} TextBeforeNul(buffer: bytes, text: bytes)
    requires |text| < |buffer| && buffer[..|text|] == text && buffer[|text|] == 0 && 0 !in text
    ensures CStr(buffer) == text
    decreases |text|
  {}

  /** The digits of strtol. */
  function Digits(s: bytes): bytes {
    var blank := SkipSpace(s);
    var at := blank + if blank < |s| && s[blank] == PLUS then 1 else 0;
    s[at..][..DigitCount(s[at..])]
  }

  lemma NumberIsShort(s: bytes)
    requires Strtol(s).1 == |s| && s != []
    ensures |Decimal(Strtol(s).0)| <= |s|
  {
    var d := Digits(s);
    assert d != [] && Strtol(s).0 == Least(Value(d), INT_MAX) && |d| <= |s|;
    DecimalIsShortest(d);
    DecimalGrows(Strtol(s).0, Value(d));
  }

  /** One byte more than the old name and its NUL is enough for the next number. */
  lemma FitsAllocation(name: bytes)
    requires Suffix(name).Some?
    ensures |Mangle(name)| + 1 <= |name| + 2
  {
    var s := name[LastDash(name).value + 1..];
    if s != [] {
      NumberIsShort(s);
    }
    DecimalOfNext(Strtol(s).0);
    assert s == [] ==> |Decimal(1)| == 1;
  }

  lemma {:induction false} DecimalGrows(a: nat, b: nat)
    requires a <= b
    ensures |Decimal(a)| <= |Decimal(b)|
    decreases b
  {
    if a < b {
      DecimalGrows(a, b - 1);
      DecimalOfNext(b - 1);
    }
  }

  // ---------------------------------------------------------------- repeated conflicts

  function MangleTimes(name: bytes, n: nat): bytes
    decreases n
  {
    if n == 0 then name else Mangle(MangleTimes(name, n - 1))
  }

  lemma {:induction false} LastDashIs(base: bytes, digits: bytes)
    requires AllDigits(digits)
    ensures LastDash(base + [DASH] + digits) == Some(|base|)
    decreases |digits|
  {
    var s := base + [DASH] + digits;
    if digits == [] {
      assert s[|s| - 1] == DASH;
    } else {
      assert s[|s| - 1] == digits[|digits| - 1];
      assert s[..|s| - 1] == base + [DASH] + digits[..|digits| - 1];
      LastDashIs(base, digits[..|digits| - 1]);
    }
  }

  lemma StrtolOfDecimal(k: nat)
    requires k <= INT_MAX
    ensures Strtol(Decimal(k)) == (k, |Decimal(k)|)
  {
    var d := Decimal(k);
    assert IsDigit(d[0]);
    assert d[0..] == d;
    AllAreDigits(d);
    assert d[..|d|] == d;
    ValueOfDecimal(k);
  }

  lemma SuffixOfNumbered(base: bytes, k: nat)
    requires k <= INT_MAX
    ensures Suffix(Numbered(base, k)) == Some((base, k))
  {
    var name := Numbered(base, k);
    LastDashIs(base, Decimal(k));
    assert name[|base| + 1..] == Decimal(k) && name[..|base|] == base;
    StrtolOfDecimal(k);
  }

  lemma {:induction false} AllAreDigits(s: bytes)
    requires AllDigits(s)
    ensures DigitCount(s) == |s|
    decreases |s|
  {
    if s != [] {
      AllAreDigits(s[1..]);
    }
  }

  lemma NextNumber(base: bytes, k: nat)
    requires k <= INT_MAX
    ensures Mangle(Numbered(base, k)) == Numbered(base, k + 1)
  {
    SuffixOfNumbered(base, k);
  }

  /** Where the count starts. */
  function FirstNumber(name: bytes): nat {
    match Suffix(name)
    case None => 1
    case Some((_, k)) => k
  }

  function BaseOf(name: bytes): bytes {
    match Suffix(name)
    case None => name
    case Some((base, _)) => base
  }

  lemma FirstMangle(name: bytes)
    ensures Mangle(name) == Numbered(BaseOf(name), FirstNumber(name) + 1)
  {
  }

  /** What n lost conflicts make of a name: the number counts up by n, from the number the name
      ends in, or from 1 if it ends in none. */
  lemma {:induction false} MangledName(name: bytes, n: nat)
    requires 1 <= n && FirstNumber(name) + n <= INT_MAX
    ensures MangleTimes(name, n) == Numbered(BaseOf(name), FirstNumber(name) + n)
    decreases n
  {
    if n > 1 {
      hide FirstNumber, BaseOf, Numbered, Mangle;
      MangledName(name, n - 1);
      NextNumber(BaseOf(name), FirstNumber(name) + n - 1);
    } else {
      assert MangleTimes(name, 0) == name;
      FirstMangle(name);
    }
  }

  lemma SuffixAfter(name: bytes, n: nat)
    requires 1 <= n && FirstNumber(name) + n <= INT_MAX
    ensures Suffix(MangleTimes(name, n)) == Some((BaseOf(name), FirstNumber(name) + n))
  {
    hide FirstNumber, BaseOf, Numbered, Suffix, MangleTimes;
    MangledName(name, n);
    SuffixOfNumbered(BaseOf(name), FirstNumber(name) + n);
  }

  /** No name is tried twice. */
  lemma NamesNeverRepeat(name: bytes, i: nat, j: nat)
    requires i < j && FirstNumber(name) + j <= INT_MAX
    ensures MangleTimes(name, i) != MangleTimes(name, j)
  {
    assert MangleTimes(name, 0) == name;
    hide MangleTimes, LastDash, Strtol;
    SuffixAfter(name, j);
    if i > 0 {
      SuffixAfter(name, i);
    }
  }

  /** A name without a dash becomes the second of its name. */
  lemma SecondOfTheName(name: bytes)
    requires DASH !in name
    ensures Mangle(name) == name + [DASH, ZERO + 2]
  {
    assert Decimal(2) == [ZERO + 2];
  }

  /** A number behind the last dash counts up. */
  lemma NextOfTheName(base: bytes, digits: bytes)
    requires AllDigits(digits) && digits != [] && Value(digits) < INT_MAX
    ensures Mangle(base + [DASH] + digits) == base + [DASH] + Decimal(Value(digits) + 1)
    ensures Value(Decimal(Value(digits) + 1)) == Value(digits) + 1
  {
    hide LastDash, Strtol, Decimal, Value;
    var name := base + [DASH] + digits;
    LastDashIs(base, digits);
    assert name[|base| + 1..] == digits && name[..|base|] == base;
    StrtolOfDigits(digits);
    ValueOfDecimal(Value(digits) + 1);
  }

  lemma StrtolOfDigits(digits: bytes)
    requires AllDigits(digits) && digits != [] && Value(digits) < INT_MAX
    ensures Strtol(digits) == (Value(digits), |digits|)
  {
    hide Value;
    AllAreDigits(digits);
    assert SkipSpace(digits) == 0 && digits[0..] == digits && digits[..|digits|] == digits;
  }

  /** Anything else behind the last dash is part of the name. */
  lemma TextBehindDash(base: bytes, text: bytes)
    requires DASH !in text && text != [] && !IsDigit(text[0]) && !IsSpace(text[0]) && text[0] != PLUS
    ensures Mangle(base + [DASH] + text) == base + [DASH] + text + [DASH, ZERO + 2]
  {
    var name := base + [DASH] + text;
    DashBefore(base, text);
    assert name[|base| + 1..] == text && text[0..] == text;
    assert Decimal(2) == [ZERO + 2];
    assert name + [DASH] + [ZERO + 2] == name + [DASH, ZERO + 2];
  }

  lemma {:induction false} DashBefore(base: bytes, text: bytes)
    requires DASH !in text
    ensures LastDash(base + [DASH] + text) == Some(|base|)
    decreases |text|
  {
    var name := base + [DASH] + text;
    if text == [] {
      assert name[|name| - 1] == DASH;
    } else {
      var front := text[..|text| - 1];
      assert name[..|name| - 1] == base + [DASH] + front;
      assert name[|name| - 1] == text[|text| - 1] && text[|text| - 1] in text;
      DashBefore(base, front);
    }
  }
}
