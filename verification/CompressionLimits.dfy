/** The limits of append_fqdn.  Its search tests neither that an offset lies before the name
    nor the flags of what it decodes there.  The first matters for local.local and for labels
    that hide a later one, and for no other name; the second behind the owner of a subtype
    record.  In a packet where neither is the case every name reads back. */
module CompressionLimits {
  import opened Bytes
  import opened FqdnReader
  import opened FqdnFolding
  import opened FqdnWriter
  import opened Compression
  import opened CompressionTheorem

  /** Nothing of the packet before is left behind the write index. */
  predicate ZeroBehind(b: Buf)
    requires b.Valid()
  {
    forall i :: b.index <= i < MAX_PACKET_SIZE ==> b.data[i] == 0
  }

  /** The labels and the closing zero stand at offset c, without a pointer. */
  predicate Spells(data: bytes, c: nat, strings: seq<bytes>)
    decreases |strings|
  {
    if strings == [] then
      c < |data| && data[c] == 0
    else
      && c + 1 + |strings[0]| <= |data|
      && data[c] == |strings[0]| && data[c + 1..c + 1 + |strings[0]|] == strings[0]
      && Spells(data, c + 1 + |strings[0]|, strings[1..])
  }

  lemma {:induction false} SpelledOut(data: bytes, start: nat, c: nat, strings: seq<bytes>)
    requires start <= c && PlainLabels(strings) && Spells(data, c, strings)
    ensures WalkName(data, start, c) == Good(c + Size(strings), Labels(strings))
    ensures forall i: nat :: Touches(data, start, c, i) ==> c <= i < c + Size(strings)
    decreases |strings|
  {
    if strings != [] {
      assert strings[0] in strings;
      SpelledOut(data, start, c + 1 + |strings[0]|, strings[1..]);
      assert Labels(strings) == [Label(strings[0])] + Labels(strings[1..]);
    }
  }

  // ---------------------------------------------------------------- pointers lead back

  /** At offset c, before end, something starts like the label t behind its length byte; what
      the end cuts off counts as equal. */
  predicate Starts(data: bytes, c: nat, end: nat, t: bytes) {
    && c < end <= |data| && data[c] == |t|
    && forall i :: 0 <= i < |t| && c + 1 + i < end ==> data[c + 1 + i] == t[i]
  }

  /** Somewhere in the label s a copy of t with its length byte starts, or could start. */
  ghost predicate Hides(s: bytes, t: bytes) {
    exists i: nat :: Starts(s, i, |s|, t)
  }

  /** No label of the name hides a later one; none does that holds no byte equal to the length of
      a later label. */
  ghost predicate Unmistakable(strings: seq<bytes>) {
    forall j, k :: 0 <= j < k < |strings| ==> !Hides(strings[j], strings[k])
  }

  predicate Distinct(strings: seq<bytes>) {
    forall j, k :: 0 <= j < k < |strings| ==> strings[j] != strings[k]
  }

  /** A label without a byte equal to the length of t hides no t. */
  lemma NothingHidden(s: bytes, t: bytes)
    requires |t| !in s
    ensures !Hides(s, t)
  {}

  /** The labels stand one behind the other from offset c on. */
  predicate Laid(data: bytes, c: nat, strings: seq<bytes>)
    decreases |strings|
  {
    strings == [] || (LabelAt(data, c, strings[0]) && Laid(data, c + 1 + |strings[0]|, strings[1..]))
  }

  predicate LabelAt(data: bytes, c: nat, s: bytes) {
    c + 1 + |s| <= |data| && data[c] == |s| && data[c + 1..c + 1 + |s|] == s
  }

  lemma LabelStays(data: bytes, after: bytes, c: nat, s: bytes)
    requires LabelAt(data, c, s) && c + 1 + |s| <= |after|
    requires forall i :: c <= i < c + 1 + |s| ==> after[i] == data[i]
    ensures LabelAt(after, c, s)
  {
    assert after[c + 1..c + 1 + |s|] == data[c + 1..c + 1 + |s|];
  }

  lemma {:induction false} LaidIsSpelled(data: bytes, c: nat, strings: seq<bytes>)
    requires Laid(data, c, strings)
    requires c + Size(strings) <= |data| && data[c + Size(strings) - 1] == 0
    ensures Spells(data, c, strings)
    decreases |strings|
  {
    if strings != [] {
      LaidIsSpelled(data, c + 1 + |strings[0]|, strings[1..]);
    }
  }

  lemma LaidBehind(data: bytes, c: nat, s: bytes, more: seq<bytes>)
    requires LabelAt(data, c, s) && Laid(data, c + 1 + |s|, more)
    ensures Laid(data, c, [s] + more) && Size([s] + more) == 1 + |s| + Size(more)
  {
    hide LabelAt;
    var all := [s] + more;
    assert all[0] == s && all[1..] == more;
  }

  /** s holds the labels behind what b holds, and has nothing else new. */
  ghost predicate Lengthened(b: Buf, s: Buf, labels: seq<bytes>)
    requires b.Valid() && s.Valid()
  {
    && s.index == b.index + Size(labels) - 1 < MAX_PACKET_SIZE
    && Laid(s.data, b.index, labels)
    && forall i :: 0 <= i < b.index || s.index <= i < MAX_PACKET_SIZE ==> s.data[i] == b.data[i]
  }

  lemma LengthenedBehind(b: Buf, s: Buf, l: bytes, more: seq<bytes>)
    requires b.Valid() && s.Valid() && PlainLabel(l) && b.index + 1 + |l| < MAX_PACKET_SIZE
    requires Lengthened(AppendString(b, l).buf, s, more)
    ensures Lengthened(b, s, [l] + more)
  {
    hide Laid, Size;
    var first := AppendString(b, l).buf;
    LabelInPlace(b, l);
    SizeIsPositive(more);
    LabelStays(first.data, s.data, b.index, l);
    LaidBehind(s.data, b.index, l, more);
  }

  lemma SizeIsPositive(strings: seq<bytes>)
    ensures Size(strings) >= 1
  {}

  /** The buffer at the moment of the pointer: the spelled labels, and nothing else is new. */
  lemma {:induction false} AtPointerIsLaid(b: Buf, strings: seq<bytes>)
    requires Fits(b, strings) && PlainLabels(strings)
    ensures Lengthened(b, AtPointer(b, strings), strings[..Spelled(b, strings)])
    decreases |strings|
  {
    if strings != [] && FirstMatch(b.data, b.index, strings, 0) == None {
      hide Lengthened;
      var first := AppendString(b, strings[0]).buf;
      var k := Spelled(first, strings[1..]);
      assert PlainLabel(strings[0]);
      NameStep(b, strings);
      PointedStep(b, strings);
      AtPointerIsLaid(first, strings[1..]);
      LengthenedBehind(b, AtPointer(first, strings[1..]), strings[0], strings[1..][..k]);
      assert strings[..k + 1] == [strings[0]] + strings[1..][..k];
    } else {
      assert strings[..0] == [];
    }
  }

  /** An offset among laid labels at which t stands is where one of them begins, and that label
      is t, if none of them hides it. */
  lemma {:induction false} OwnOffset(data: bytes, at: nat, spelled: seq<bytes>, c: nat, t: bytes) returns (j: nat)
    requires Laid(data, at, spelled) && PlainLabels(spelled) && at <= c < at + Size(spelled) - 1
    requires at + Size(spelled) - 1 <= |data| && Starts(data, c, |data|, t) && c + 1 + |t| <= |data|
    requires forall s :: s in spelled ==> !Hides(s, t)
    ensures j < |spelled| && spelled[j] == t && Laid(data, c, spelled[j..])
    ensures c + Size(spelled[j..]) == at + Size(spelled)
    decreases |spelled|
  {
    var s := spelled[0];
    assert s in spelled;
    var next := at + 1 + |s|;
    if c == at {
      j := 0;
      assert s == t by {
        forall i | 0 <= i < |t|
          ensures s[i] == t[i]
        {
          assert data[at + 1..next][i] == data[c + 1 + i];
        }
      }
      assert spelled[0..] == spelled;
    } else if c < next {
      HiddenInside(data, at, s, c, |data|, t);
      assert false;
    } else {
      var i := OwnOffset(data, next, spelled[1..], c, t);
      j := i + 1;
      assert spelled[1..][i..] == spelled[j..];
    }
  }

  lemma HiddenInside(data: bytes, at: nat, s: bytes, c: nat, end: nat, t: bytes)
    requires at + 1 + |s| <= end <= |data| && LabelAt(data, at, s)
    requires at < c < at + 1 + |s| && Starts(data, c, end, t)
    ensures Hides(s, t)
  {
    var i: nat := c - at - 1;
    forall x | at + 1 <= x < at + 1 + |s|
      ensures data[x] == s[x - at - 1]
    {
      assert data[at + 1..at + 1 + |s|][x - at - 1] == data[x];
    }
    assert Starts(s, i, |s|, t);
  }

  /** Of the spelled labels of a standard name, those from j on are never what is wanted next,
      but for the name local.local. */
  lemma OwnLabelsDiffer(strings: seq<bytes>, j: nat, k: nat)
    requires Standard(strings) && j < k < |strings| && strings[j] == strings[k]
    requires var found := Fold(NO_NAME, Labels(strings[j..k])).labels;
             && |found| == |strings| - k
             && forall i :: 0 <= i < |found| ==> SameText(strings[k + i], found[i])
    ensures strings == [LOCAL, LOCAL]
  {
    hide Fold, Labels, SameText;
    if |strings| == 4 {
      OneLabel(strings, 1);
    }
    if j == 0 {
      FoldSpelled(strings, k);
      assert strings[0..k] == strings[..k];
      OwnPrefixDiffers(strings, k);
    } else {
      TypeIsNotLocal(strings, j);
    }
  }

  lemma OneLabel(strings: seq<bytes>, j: nat)
    requires Standard(strings) && j < |strings|
    ensures |Fold(NO_NAME, Labels(strings[j..j + 1])).labels| == 1
  {
    assert strings[j] in strings;
    CStrOfText(strings[j]);
    assert strings[j..j + 1] == [strings[j]];
    assert Labels([strings[j]])[1..] == [];
  }

  lemma OwnPrefixDiffers(strings: seq<bytes>, k: nat)
    requires Standard(strings) && 0 < k < |strings| && strings[0] == strings[k] && 2 * k == |strings|
    requires forall i :: 0 <= i < k ==> SameText(strings[k + i], strings[i])
    ensures strings == [LOCAL, LOCAL]
  {
    if k == 2 {
      TypeIsNotLocal(strings, 1);
    }
  }

  lemma TypeIsNotLocal(strings: seq<bytes>, j: nat)
    requires Standard(strings) && 1 <= j < |strings| - 1
    ensures strings[j] != LOCAL && !SameText(strings[j], LOCAL) && !SameText(LOCAL, strings[j])
  {}

  /** local.local when nothing before it can be pointed at. */
  predicate FoundEarlier(b: Buf)
    requires b.Valid()
  {
    || FirstMatch(b.data, b.index, [LOCAL, LOCAL], 0).Some?
    || exists c :: 0 <= c < b.index && Matches(AppendString(b, LOCAL).buf.data, c, [LOCAL])
  }

  /** Every pointer leads before its own name, with one exception: local.local, when neither
      it nor local has been written before. */
  lemma PointersLeadBack(b: Buf, strings: seq<bytes>)
    requires Fits(b, strings) && Standard(strings) && Unmistakable(strings)
    requires ZeroBehind(b) || Distinct(strings)
    ensures var c := Pointed(b, strings);
            c.Some? && c.value >= b.index <==> strings == [LOCAL, LOCAL] && !FoundEarlier(b)
  {
    if strings == [LOCAL, LOCAL] && !FoundEarlier(b) {
      PointsAtItself(b);
    } else if Pointed(b, strings).Some? && Pointed(b, strings).value >= b.index {
      OwnPointer(b, strings);
      PointsEarlier(b);
    }
  }

  lemma OwnPointer(b: Buf, strings: seq<bytes>)
    requires b.Valid() && Fits(b, strings) && Standard(strings) && Unmistakable(strings)
    requires ZeroBehind(b) || Distinct(strings)
    requires Pointed(b, strings).Some? && Pointed(b, strings).value >= b.index
    ensures strings == [LOCAL, LOCAL]
  {
    hide Standard, Fits, FirstMatch, Matches, WalkName, Pointed, Size;
    var s := AtPointer(b, strings);
    var c := Pointed(b, strings).value;
    var k := MatchedLabel(b, strings, c);
    var spelled := strings[..k];
    StandardLabels(strings);
    AtPointerIsLaid(b, strings);
    var j := OwnOffset(s.data, b.index, spelled, c, strings[k]);
    assert spelled[j] == strings[j] && spelled[j..] == strings[j..k];
    LaidIsSpelled(s.data, c, strings[j..k]);
    MatchOfSpelled(s.data, c, strings[j..k], strings[k..]);
    OwnLabelsDiffer(strings, j, k);
  }

  /** What a match at spelled labels says about them. */
  lemma MatchOfSpelled(data: bytes, c: nat, spelled: seq<bytes>, rest: seq<bytes>)
    requires c < |data| && rest != [] && PlainLabels(spelled) && Spells(data, c, spelled) && Matches(data, c, rest)
    ensures var found := Fold(NO_NAME, Labels(spelled)).labels;
            |found| == |rest| && forall i :: 0 <= i < |found| ==> SameText(rest[i], found[i])
  {
    SpelledOut(data, c, c, spelled);
  }

  lemma StandardLabels(strings: seq<bytes>)
    requires Standard(strings)
    ensures PlainLabels(strings)
  {}

  /** A match begins with the first label wanted. */
  lemma MatchStarts(data: bytes, c: nat, rest: seq<bytes>)
    requires c < |data| && rest != [] && PlainLabel(rest[0]) && Matches(data, c, rest)
    ensures Starts(data, c, |data|, rest[0]) && c + 1 + |rest[0]| <= |data|
  {
    var t := rest[0];
    forall i | 0 <= i < |t|
      ensures data[c + 1 + i] == t[i]
    {
      assert data[c + 1..c + 1 + |t|][i] == t[..|t|][i];
    }
  }

  lemma PointsEarlier(b: Buf)
    requires Fits(b, [LOCAL, LOCAL]) && Pointed(b, [LOCAL, LOCAL]).Some?
    ensures FoundEarlier(b) ==> Pointed(b, [LOCAL, LOCAL]).value < b.index
  {
    assert [LOCAL, LOCAL][1..] == [LOCAL] && [LOCAL][1..] == [];
    PointedStep(b, [LOCAL, LOCAL]);
    if FirstMatch(b.data, b.index, [LOCAL, LOCAL], 0) == None {
      var first := AppendString(b, LOCAL).buf;
      PointedStep(first, [LOCAL]);
      if FoundEarlier(b) {
        var c :| 0 <= c < b.index && Matches(first.data, c, [LOCAL]);
        FirstMatchIsFirst(first.data, first.index, [LOCAL], 0, c);
      }
    }
  }

  lemma PointsAtItself(b: Buf)
    requires Fits(b, [LOCAL, LOCAL]) && ZeroBehind(b) && !FoundEarlier(b)
    ensures Pointed(b, [LOCAL, LOCAL]) == Some(b.index)
  {
    assert [LOCAL, LOCAL][1..] == [LOCAL] && [LOCAL][1..] == [];
    PointedStep(b, [LOCAL, LOCAL]);
    var first := AppendString(b, LOCAL).buf;
    PointedStep(first, [LOCAL]);
    SelfMatch(b);
    FirstMatchIsFirst(first.data, first.index, [LOCAL], 0, b.index);
  }

  lemma SelfMatch(b: Buf)
    requires Fits(b, [LOCAL, LOCAL]) && ZeroBehind(b)
    ensures var first := AppendString(b, LOCAL).buf; Matches(first.data, b.index, [LOCAL])
  {
    assert PlainLabel(LOCAL);
    LabelInPlace(b, LOCAL);
    LocalMatches(AppendString(b, LOCAL).buf.data, b.index);
  }

  lemma LocalMatches(data: bytes, c: nat)
    requires c + 7 <= |data| && data[c] == 5 && data[c + 1..c + 6] == LOCAL && data[c + 6] == 0
    ensures Matches(data, c, [LOCAL])
  {
    assert PlainLabel(LOCAL);
    assert [LOCAL][1..] == [];
    SpelledOut(data, c, c, [LOCAL]);
    CStrOfText(LOCAL);
    var items := Labels([LOCAL]);
    assert items[1..] == [];
    assert Fold(NO_NAME, items) == Name([LOCAL], false, false);
  }

  /** Wherever the packet so far could be taken for a label of the name, the decode stays within
      what has been written; and if it succeeds it sets no flag. */
  ghost predicate Clean(b: Buf, strings: seq<bytes>)
    requires b.Valid()
  {
    forall c: nat, k :: c < b.index && 0 <= k < |strings| && b.data[c] == |strings[k]| ==>
      WithinWritten(b, c) && (WalkName(b.data, c, c).Good? ==> FlagsClear(b.data, c, |strings|))
  }

  /** What cannot be read does not become readable by what is written behind it. */
  lemma {:induction false} BadStays(b: Buf, q: bytes, start: nat, at: nat)
    requires b.Valid() && ZeroBehind(b) && |q| == MAX_PACKET_SIZE && start <= at
    requires forall i :: 0 <= i < b.index ==> q[i] == b.data[i]
    requires forall i: nat :: Touches(b.data, start, at, i) ==> i < b.index
    requires WalkName(b.data, start, at).Bad?
    ensures WalkName(q, start, at).Bad?
    decreases start, MAX_PACKET_SIZE - at
  {
    assert Touches(b.data, start, at, at);
    if b.data[at] < 0xC0 {
      var next := at + 1 + b.data[at];
      if b.data[at] <= 63 && next <= MAX_PACKET_SIZE {
        forall i: nat | Touches(b.data, start, next, i)
          ensures i < b.index
        {
          assert Touches(b.data, start, at, i);
        }
        BadStays(b, q, start, next);
      }
    } else if at + 1 < MAX_PACKET_SIZE && Target(b.data, at) < start {
      var target := Target(b.data, at);
      assert Touches(b.data, start, at, at + 1);
      forall i: nat | Touches(b.data, target, target, i)
        ensures i < b.index
      {
        assert Touches(b.data, start, at, i);
      }
      BadStays(b, q, target, target);
    }
  }

  /** In a clean packet every name reads back, with the one exception. */
  lemma CleanReadsBack(b: Buf, strings: seq<bytes>)
    requires Fits(b, strings) && Standard(strings) && Unmistakable(strings)
    requires ZeroBehind(b) && Clean(b, strings)
    ensures var r := AppendName(b, strings).buf;
            ReadsBack(r.data, b.index, r.index, strings) <==> !(strings == [LOCAL, LOCAL] && !FoundEarlier(b))
  {
    PointersLeadBack(b, strings);
    var c := Pointed(b, strings);
    if c.Some? && c.value < b.index {
      CleanOffset(b, strings, c.value);
    }
    CompressionIsSound(b, strings);
  }

  lemma CleanOffset(b: Buf, strings: seq<bytes>, c: nat)
    requires b.Valid() && Fits(b, strings) && Standard(strings) && ZeroBehind(b) && Clean(b, strings)
    requires Pointed(b, strings) == Some(c) && c < b.index
    ensures WithinWritten(AtPointer(b, strings), c) && FlagsClear(AtPointer(b, strings).data, c, |strings|)
  {
    hide Standard, Fits, FirstMatch, Pointed, FlagsClear, Laid, Size, WalkName, Touches;
    var s := AtPointer(b, strings);
    var k := MatchedLabel(b, strings, c);
    assert WithinWritten(b, c);
    if WalkName(b.data, c, c).Bad? {
      BadStays(b, s.data, c, c);
      assert false;
    }
    GoodStays(b, s, c, |strings|);
  }

  /** The label that was wanted when the offset was found. */
  lemma MatchedLabel(b: Buf, strings: seq<bytes>, c: nat) returns (k: nat)
    requires Fits(b, strings) && Standard(strings) && Pointed(b, strings) == Some(c)
    ensures k == Spelled(b, strings) < |strings| && PlainLabel(strings[k])
    ensures var s := AtPointer(b, strings);
            && b.index <= s.index < MAX_PACKET_SIZE && c < s.index
            && Starts(s.data, c, |s.data|, strings[k]) && c + 1 + |strings[k]| <= |s.data|
            && Matches(s.data, c, strings[k..]) && WalkName(s.data, c, c).Good?
            && forall i :: 0 <= i < b.index || s.index <= i < MAX_PACKET_SIZE ==> s.data[i] == b.data[i]
  {
    k := Spelled(b, strings);
    var s := AtPointer(b, strings);
    StandardLabels(strings);
    AtPointerIsLaid(b, strings);
    SizeIsPositive(strings[..k]);
    FirstMatchIsFirst(s.data, s.index, strings[k..], 0, 0);
    assert PlainLabel(strings[k]);
    MatchStarts(s.data, c, strings[k..]);
  }

  lemma GoodStays(b: Buf, s: Buf, c: nat, count: nat)
    requires b.Valid() && s.Valid() && b.index <= s.index && WithinWritten(b, c)
    requires forall i :: 0 <= i < b.index ==> s.data[i] == b.data[i]
    requires WalkName(b.data, c, c).Good? && FlagsClear(b.data, c, count)
    ensures WithinWritten(s, c) && FlagsClear(s.data, c, count)
  {
    hide FlagsClear;
    forall i: nat | Touches(b.data, c, c, i)
      ensures SameAt(b.data, s.data, i)
    {
    }
    DecodeIsStable(b.data, s.data, c, c);
    forall i: nat | Touches(s.data, c, c, i)
      ensures i < s.index
    {
      TouchesStable(b.data, s.data, c, c, i);
    }
    FlagsOfWalk(b.data, s.data, c, count);
  }

  lemma FlagsOfWalk(p: bytes, q: bytes, c: nat, count: nat)
    requires WalkName(q, c, c) == WalkName(p, c, c)
    ensures FlagsClear(q, c, count) == FlagsClear(p, c, count)
  {}

  /** A host name that ends in "local" behind its length byte. */
  predicate HoldsLocal(host: bytes) {
    PlainLabel(host) && |host| >= 6 && host[|host| - 6] == 5 && host[|host| - 5..] == LOCAL
  }

  /** What Unmistakable excludes does happen: such a host name is followed by a pointer into
      itself, if nothing before it can be pointed at. */
  lemma HostHoldingLocal(b: Buf, host: bytes)
    requires HoldsLocal(host) && Fits(b, [host, LOCAL]) && ZeroBehind(b)
    requires FirstMatch(b.data, b.index, [host, LOCAL], 0) == None
    requires forall c :: 0 <= c < b.index ==> !Matches(AppendString(b, host).buf.data, c, [LOCAL])
    ensures Standard([host, LOCAL]) && host != LOCAL
    ensures var c := Pointed(b, [host, LOCAL]); c.Some? && b.index <= c.value < AppendName(b, [host, LOCAL]).buf.index
    ensures var r := AppendName(b, [host, LOCAL]).buf; !ReadsBack(r.data, b.index, r.index, [host, LOCAL])
  {
    hide Matches, Checked, Fold, WalkName, Touches;
    var strings := [host, LOCAL];
    assert strings[1..] == [LOCAL] && [LOCAL][1..] == [];
    var first := AppendString(b, host).buf;
    PointedStep(b, strings);
    PointedStep(first, [LOCAL]);
    HiddenLocalMatches(b, host);
    FirstMatchIsFirst(first.data, first.index, [LOCAL], 0, first.index - 6);
    NotSub(host);
    assert Standard(strings);
    NameStep(b, strings);
    NameAtPointer(first, [LOCAL]);
    OwnPointerFails(b, strings);
  }

  lemma NotSub(host: bytes)
    requires |host| >= 6
    ensures !SameText(host, SUB)
  {}

  /** A pointer that does not lead before its name fails. */
  lemma OwnPointerFails(b: Buf, strings: seq<bytes>)
    requires Fits(b, strings) && Standard(strings)
    requires Pointed(b, strings).Some? && Pointed(b, strings).value >= b.index
    ensures var r := AppendName(b, strings).buf; !ReadsBack(r.data, b.index, r.index, strings)
  {
    CompressionIsSound(b, strings);
  }

  lemma HiddenLocalMatches(b: Buf, host: bytes)
    requires HoldsLocal(host) && Fits(b, [host, LOCAL]) && ZeroBehind(b)
    ensures var first := AppendString(b, host).buf;
            first.index == b.index + 1 + |host| && Matches(first.data, first.index - 6, [LOCAL])
  {
    var first := AppendString(b, host).buf;
    LabelInPlace(b, host);
    var at := first.index - 6;
    assert first.data[at] == first.data[b.index + 1 + (|host| - 6)] == host[|host| - 6];
    forall i | 0 <= i < 5
      ensures first.data[at + 1 + i] == LOCAL[i]
    {
      assert first.data[b.index + 1 + (|host| - 5 + i)] == host[|host| - 5 + i] == host[|host| - 5..][i];
    }
    assert first.data[at + 1..at + 6] == LOCAL;
    LocalMatches(first.data, at);
  }

  /** The owner name of a subtype record, x._sub._svc._proto.local, is taken for the instance
      name x._svc._proto.local: the labels agree because "_sub" only sets a flag, and the
      search does not look at the flag. */
  lemma SubtypeNameIsTaken(b: Buf, x: bytes, svc: bytes, proto: bytes, c: nat)
    requires Fits(b, [x, svc, proto, LOCAL])
    requires PlainLabel(x) && !SameText(x, SUB)
    requires TypeLabel(svc) && !SameText(svc, SUB) && TypeLabel(proto) && !SameText(proto, SUB)
    requires c + Size([x, SUB, svc, proto, LOCAL]) <= b.index
    requires Spells(b.data, c, [x, SUB, svc, proto, LOCAL])
    requires forall d :: 0 <= d < c ==> b.data[d] != |x|
    ensures Standard([x, svc, proto, LOCAL])
    ensures Pointed(b, [x, svc, proto, LOCAL]) == Some(c)
    ensures var r := AppendName(b, [x, svc, proto, LOCAL]).buf;
            !ReadsBack(r.data, b.index, r.index, [x, svc, proto, LOCAL])
  {
    var strings := [x, svc, proto, LOCAL];
    assert PlainLabel(LOCAL) && !SameText(LOCAL, SUB);
    SubtypeMatches(b.data, x, svc, proto, c);
    FirstMatchIsFirst(b.data, b.index, strings, 0, c);
    PointedStep(b, strings);
    CompressionIsSound(b, strings);
  }

  lemma SubtypeMatches(data: bytes, x: bytes, svc: bytes, proto: bytes, c: nat)
    requires PlainLabel(x) && !SameText(x, SUB)
    requires TypeLabel(svc) && !SameText(svc, SUB) && TypeLabel(proto) && !SameText(proto, SUB)
    requires c < |data| && Spells(data, c, [x, SUB, svc, proto, LOCAL])
    ensures Matches(data, c, [x, svc, proto, LOCAL]) && !FlagsClear(data, c, 4)
    ensures forall i: nat :: Touches(data, c, c, i) ==> c <= i < c + Size([x, SUB, svc, proto, LOCAL])
  {
    assert PlainLabel(LOCAL) && PlainLabel(SUB);
    SpelledOut(data, c, c, [x, SUB, svc, proto, LOCAL]);
    FoldOfSubtype(x, svc, proto);
  }

  lemma AddPart(n: Name, s: bytes)
    requires PlainLabel(s) && !SameText(s, SUB) && !n.invalid && |n.labels| < 4
    requires |n.labels| == 1 ==> !JoinsHost(s)
    ensures AddItem(n, Label(s)) == n.(labels := n.labels + [s])
  {
    CStrOfText(s);
  }

  lemma AddSub(n: Name)
    requires |n.labels| < 4
    ensures AddItem(n, Label(SUB)) == n.(sub := true)
  {
    CStrOfText(SUB);
  }

  lemma FoldFive(n: Name, items: seq<Item>)
    requires |items| == 5
    ensures Fold(n, items) == AddItem(AddItem(AddItem(AddItem(AddItem(n, items[0]), items[1]), items[2]), items[3]), items[4])
  {
    hide AddItem;
    var n1 := AddItem(n, items[0]);
    var n2 := AddItem(n1, items[1]);
    var n3 := AddItem(n2, items[2]);
    var n4 := AddItem(n3, items[3]);
    assert Fold(n, items) == Fold(n1, items[1..]);
    assert items[1..][1..] == items[2..] && items[2..][1..] == items[3..];
    assert items[3..][1..] == items[4..] && items[4..][1..] == [];
    assert Fold(n1, items[1..]) == Fold(n2, items[2..]) == Fold(n3, items[3..]) == Fold(n4, items[4..]);
  }

  lemma FoldOfSubtype(x: bytes, svc: bytes, proto: bytes)
    requires PlainLabel(x) && !SameText(x, SUB)
    requires TypeLabel(svc) && !SameText(svc, SUB) && TypeLabel(proto) && !SameText(proto, SUB)
    ensures Fold(NO_NAME, Labels([x, SUB, svc, proto, LOCAL])) == Name([x, svc, proto, LOCAL], true, false)
  {
    hide AddItem, Fold;
    assert PlainLabel(LOCAL) && !SameText(LOCAL, SUB);
    FoldFive(NO_NAME, Labels([x, SUB, svc, proto, LOCAL]));
    AddPart(NO_NAME, x);
    AddSub(Name([x], false, false));
    AddPart(Name([x], true, false), svc);
    AddPart(Name([x, svc], true, false), proto);
    AddPart(Name([x, svc, proto], true, false), LOCAL);
    assert [] + [x] == [x] && [x] + [svc] == [x, svc] && [x, svc] + [proto] == [x, svc, proto];
    assert [x, svc, proto] + [LOCAL] == [x, svc, proto, LOCAL];
  }
}
