/** Every name of a packet can be leant on.  If the labels in use cannot be mistaken for one
    another, then each place of the packet where one of them seems to start is one where a name
    was written, and decodes within the packet without setting a flag.  Each name keeps this
    up for the names behind it, and so is sound itself. */
module NameAnchors {
  import opened Bytes
  import opened FqdnReader
  import opened FqdnFolding
  import opened FqdnWriter
  import opened Compression
  import opened CompressionTheorem
  import opened CompressionLimits
  import opened Framing

  // ---------------------------------------------------------------- words and where they start

  /** The labels in use: none begins with a byte that is the length of one, the first byte of
      a pointer or of a record's length, and none hides another. */
  ghost predicate Wording(words: set<bytes>) {
    && (forall w :: w in words ==> PlainLabel(w) && !SameText(w, SUB) && 5 < w[0] < 0xC0)
    && forall v, w :: v in words && w in words ==> v[0] != |w| && !Hides(v, w)
  }

  /** A standard name in these words, other than local.local. */
  predicate Spoken(strings: seq<bytes>, words: set<bytes>) {
    Standard(strings) && strings != [LOCAL, LOCAL] && forall s :: s in strings ==> s in words
  }

  /** A name can be read at c, within settled bytes, and has no flag set; a pointer to it adds
      no fifth entry to any name. */
  ghost predicate Anchor(b: Buf, c: nat, loc: nat) {
    Sits(b, c, loc) && FlagsClear(b.data, c, 4)
  }

  /** Where a word seems to start, a name can be read. */
  ghost predicate Legible(b: Buf, words: set<bytes>, loc: nat)
    requires b.Valid()
  {
    forall c: nat, w :: w in words && c + 1 < b.index && Starts(b.data, c, b.index, w) ==> Anchor(b, c, loc)
  }

  /** What is settled in a buffer stays so in a longer one, unless the new length field is in it. */
  predicate Later(end: nat, loc: nat, newEnd: nat, newLoc: nat) {
    end <= newEnd && (newLoc == loc || newLoc >= end || newLoc + 1 < HEAD_LEN)
  }

  /** An anchor holds as long as the bytes it looks at stay. */
  lemma AnchorStays(b: Buf, loc: nat, e: Buf, newLoc: nat, c: nat)
    requires b.Valid() && e.Valid() && Anchor(b, c, loc) && Later(b.index, loc, e.index, newLoc)
    requires forall i: nat :: Settled(i, b.index, loc) ==> e.data[i] == b.data[i]
    ensures Anchor(e, c, newLoc)
    ensures WalkName(e.data, c, c) == WalkName(b.data, c, c)
  {
    hide FlagsClear;
    AnchorIsGood(b, c, loc);
    forall i: nat | Touches(b.data, c, c, i)
      ensures SameAt(b.data, e.data, i)
    {
      assert Settled(i, b.index, loc);
    }
    DecodeIsStable(b.data, e.data, c, c);
    forall i: nat | Touches(e.data, c, c, i)
      ensures Settled(i, e.index, newLoc)
    {
      TouchesStable(b.data, e.data, c, c, i);
      assert Settled(i, b.index, loc);
    }
    FlagsOfWalk(b.data, e.data, c, 4);
  }

  lemma AnchorIsGood(b: Buf, c: nat, loc: nat)
    requires Anchor(b, c, loc)
    ensures WalkName(b.data, c, c).Good?
  {}

  /** What seems to start in a longer buffer seemed to start before. */
  lemma StartsEarlier(b: Buf, e: Buf, c: nat, w: bytes)
    requires b.Valid() && e.Valid() && b.index <= e.index && c + 1 < b.index
    requires forall i :: c <= i < b.index ==> e.data[i] == b.data[i]
    requires Starts(e.data, c, e.index, w)
    ensures Starts(b.data, c, b.index, w)
  {}

  /** At the last two bytes nothing starts if the second is not the first of the word. */
  lemma NoStart(data: bytes, c: nat, end: nat, w: bytes)
    requires c + 1 < end <= |data| && w != [] && data[c + 1] != w[0]
    ensures !Starts(data, c, end, w)
  {
  }

  // ---------------------------------------------------------------- the pointer of a name

  lemma SpokenWords(strings: seq<bytes>, words: set<bytes>)
    requires Spoken(strings, words) && Wording(words)
    ensures Unmistakable(strings) && PlainLabels(strings)
  {
    forall j, k | 0 <= j < k < |strings|
      ensures !Hides(strings[j], strings[k])
    {
      assert strings[j] in strings && strings[k] in strings;
    }
  }

  /** The pointer of a name in words leads to an anchor before it. */
  lemma PointerIsAnchor(b: Buf, strings: seq<bytes>, words: set<bytes>, loc: nat)
    requires b.Valid() && Fits(b, strings) && Spoken(strings, words) && Wording(words)
    requires ZeroBehind(b) && Legible(b, words, loc) && Pointed(b, strings).Some?
    ensures Pointed(b, strings).value < b.index && Anchor(b, Pointed(b, strings).value, loc)
  {
    hide Standard, Fits, FirstMatch, Matches, WalkName, Pointed, Size, Touches, Anchor, Hides;
    var c := Pointed(b, strings).value;
    var s := AtPointer(b, strings);
    SpokenWords(strings, words);
    PointersLeadBack(b, strings);
    var k := MatchedLabel(b, strings, c);
    assert strings[k] in strings;
    if c + 1 == b.index {
      NextIsNoStart(b, strings, strings[k], words);
      assert false;
    }
    assert Starts(b.data, c, b.index, strings[k]);
  }

  /** The byte behind the buffer, while its name is searched for, is no first byte of a word. */
  lemma NextIsNoStart(b: Buf, strings: seq<bytes>, w: bytes, words: set<bytes>)
    requires b.Valid() && Fits(b, strings) && Spoken(strings, words) && Wording(words) && w in words
    requires ZeroBehind(b)
    ensures b.index < MAX_PACKET_SIZE && AtPointer(b, strings).data[b.index] != w[0]
  {
    hide Standard, FirstMatch, Hides;
    SpokenWords(strings, words);
    AtPointerIsLaid(b, strings);
    SizeIsPositive(strings);
    if Spelled(b, strings) > 0 {
      assert strings[..Spelled(b, strings)][0] == strings[0] && strings[0] in strings;
    }
  }

  /** So the name is sound. */
  lemma SpokenIsSound(b: Buf, strings: seq<bytes>, words: set<bytes>, loc: nat)
    requires b.Valid() && Fits(b, strings) && Spoken(strings, words) && Wording(words)
    requires ZeroBehind(b) && Legible(b, words, loc)
    ensures Sound(b, strings, loc)
    ensures Leaning(b, strings, b.index, loc)
  {
    hide Standard, Fits, FirstMatch, WalkName, Size, Touches, Legible, Wording, Matches;
    if Pointed(b, strings).Some? {
      PointerIsAnchor(b, strings, words, loc);
      SpokenWords(strings, words);
      AtPointerIsLaid(b, strings);
      SizeIsPositive(strings[..Spelled(b, strings)]);
      AnchorStays(b, loc, AtPointer(b, strings), loc, Pointed(b, strings).value);
      FewerLabels(AtPointer(b, strings).data, Pointed(b, strings).value, |strings|);
    }
  }

  lemma FewerLabels(data: bytes, c: nat, count: nat)
    requires FlagsClear(data, c, 4)
    ensures FlagsClear(data, c, count)
  {}

  // ---------------------------------------------------------------- the labels of a name

  /** A pointer leads before base, to an anchor. */
  ghost predicate Leaning(b: Buf, strings: seq<bytes>, base: nat, loc: nat)
    requires b.Valid()
  {
    var c := Pointed(b, strings);
    c.Some? ==> c.value < base && Anchor(AtPointer(b, strings), c.value, loc)
  }

  /** What is left of a standard name behind its first labels. */
  predicate Tail(strings: seq<bytes>) {
    Standard(strings) || strings == [LOCAL]
  }

  lemma TailOfTail(strings: seq<bytes>)
    requires Tail(strings) && |strings| > 1
    ensures Standard(strings) && Tail(strings[1..])
  {}

  lemma TouchesFirstPart(p: bytes, start: nat, at: nat, i: nat)
    requires start <= at < |p| && p[at] != 0 && Touches(p, start, at, i)
    requires p[at] < 0xC0 ==> p[at] <= 63 && at + 1 + p[at] <= |p|
    requires p[at] >= 0xC0 ==> at + 1 < |p| && Target(p, at) < start
    ensures if p[at] < 0xC0 then at <= i < at + 1 + p[at] || Touches(p, start, at + 1 + p[at], i)
            else at <= i < at + 2 || Touches(p, Target(p, at), Target(p, at), i)
  {
  }

  lemma PointerBytes(b: Buf, c: nat)
    requires b.Valid() && b.index + 1 < MAX_PACKET_SIZE && c < MAX_PACKET_SIZE
    ensures var r := AppendU16(b, NAME_REF + c).buf;
            r.index == b.index + 2 && r.data[b.index] >= 0xC0 && Target(r.data, b.index) == c
  {
    var r := AppendU16(b, NAME_REF + c).buf;
    assert r.data[b.index + 0] == U16(NAME_REF + c)[0] == 0xC0 + c / 256;
    assert r.data[b.index + 1] == U16(NAME_REF + c)[1] == c % 256 by { NarrowIsModulo(NAME_REF + c); }
  }

  lemma LabelByte(b: Buf, s: bytes)
    requires b.Valid() && PlainLabel(s) && b.index + 1 + |s| < MAX_PACKET_SIZE
    ensures var first := AppendString(b, s).buf;
            first.index == b.index + 1 + |s| && first.data[b.index] == |s|
  {
    assert AppendString(b, s).buf.data[b.index + 0] == |s|;
  }

  lemma TouchesPastLabel(b: Buf, strings: seq<bytes>, start: nat, i: nat)
    requires Fits(b, strings) && PlainLabels(strings) && start <= b.index
    requires strings != [] && FirstMatch(b.data, b.index, strings, 0) == None
    requires Touches(AppendName(b, strings).buf.data, start, b.index, i)
    ensures var first := AppendString(b, strings[0]).buf;
            && first.index == b.index + 1 + |strings[0]| <= AppendName(b, strings).buf.index
            && (b.index <= i < first.index || Touches(AppendName(b, strings).buf.data, start, first.index, i))
  {
    var r := AppendName(b, strings).buf;
    var first := AppendString(b, strings[0]).buf;
    NameStep(b, strings);
    NameKeepsPrefix(first, strings[1..]);
    assert PlainLabel(strings[0]);
    LabelByte(b, strings[0]);
    TouchesFirstPart(r.data, start, b.index, i);
  }

  /** Reading a name just written stays within it, except through its pointer. */
  lemma {:induction false} TouchesOfOutput(b: Buf, strings: seq<bytes>, start: nat, i: nat)
    requires Fits(b, strings) && PlainLabels(strings) && start <= b.index
    requires Pointed(b, strings).Some? ==> Pointed(b, strings).value < start
    requires Touches(AppendName(b, strings).buf.data, start, b.index, i)
    ensures var r := AppendName(b, strings).buf; var c := Pointed(b, strings);
            b.index <= i < r.index || (c.Some? && Touches(r.data, c.value, c.value, i))
    decreases |strings|
  {
    var r := AppendName(b, strings).buf;
    if strings == [] {
      assert r.data[b.index + 0] == 0;
    } else if FirstMatch(b.data, b.index, strings, 0).Some? {
      PointedStep(b, strings);
      PointerBytes(b, Pointed(b, strings).value);
      TouchesFirstPart(r.data, start, b.index, i);
    } else {
      NameStep(b, strings);
      PointedStep(b, strings);
      TouchesPastLabel(b, strings, start, i);
      var first := AppendString(b, strings[0]).buf;
      if !(b.index <= i < first.index) {
        TouchesOfOutput(first, strings[1..], start, i);
      }
    }
  }

  lemma TailIsPlain(strings: seq<bytes>)
    requires Tail(strings)
    ensures PlainLabels(strings)
  {}

  /** Labels that were spelled out to the end set no flag. */
  lemma FlagsOfSpelled(strings: seq<bytes>)
    requires Tail(strings)
    ensures var f := Fold(NO_NAME, Labels(strings)); !f.sub && !f.invalid && !EndsInJump(Labels(strings))
  {
    if Standard(strings) {
      FoldSpelled(strings, |strings|);
      assert strings[..|strings|] == strings;
    } else {
      assert PlainLabel(LOCAL);
      CStrOfText(LOCAL);
      assert Labels([LOCAL])[1..] == [];
    }
  }

  /** Nor do labels in front of a pointer to an anchor. */
  lemma FlagsBehindPointer(strings: seq<bytes>, k: nat, data: bytes, c: nat)
    requires Standard(strings) && k < |strings|
    requires c < |data| && Matches(data, c, strings[k..]) && FlagsClear(data, c, 4)
    ensures var items := Labels(strings[..k]) + ([Jump] + WalkName(data, c, c).items);
            var f := Fold(NO_NAME, items); !f.sub && !f.invalid && !EndsInJump(items)
  {
    var items := WalkName(data, c, c).items;
    FoldSub(NO_NAME, items);
    FoldOfPointedName(strings, k, data, c);
    FewerLabels(data, c, |strings|);
    assert items != [];
  }

  /** Reading the name just written looks at its own bytes and at those of the anchor. */
  lemma TouchesOfLeaning(b: Buf, strings: seq<bytes>, loc: nat, i: nat)
    requires Fits(b, strings) && PlainLabels(strings) && Leaning(b, strings, b.index, loc)
    requires HEAD_LEN <= b.index && loc + 1 < b.index
    requires Touches(AppendName(b, strings).buf.data, b.index, b.index, i)
    ensures Settled(i, AppendName(b, strings).buf.index, loc)
  {
    hide FlagsClear;
    var r := AppendName(b, strings).buf;
    TouchesOfOutput(b, strings, b.index, i);
    if !(b.index <= i < r.index) {
      var c := Pointed(b, strings).value;
      var s := AtPointer(b, strings);
      PointerKeepsPrefix(b, strings);
      AnchorStays(s, loc, r, loc, c);
    }
  }

  /** The first label of a name that has been completed is an anchor. */
  lemma StartIsAnchor(b: Buf, strings: seq<bytes>, loc: nat)
    requires b.Valid() && Fits(b, strings) && Tail(strings) && Leaning(b, strings, b.index, loc)
    requires HEAD_LEN <= b.index && loc + 1 < b.index && FirstMatch(b.data, b.index, strings, 0) == None
    ensures Anchor(AppendName(b, strings).buf, b.index, loc)
  {
    hide Fits, Standard, Touches, Matches, FirstMatch;
    var r := AppendName(b, strings).buf;
    TailIsPlain(strings);
    forall i: nat | Touches(r.data, b.index, b.index, i)
      ensures Settled(i, r.index, loc)
    {
      TouchesOfLeaning(b, strings, loc, i);
    }
    StartSetsNoFlag(b, strings, loc);
  }

  lemma StartSetsNoFlag(b: Buf, strings: seq<bytes>, loc: nat)
    requires Fits(b, strings) && Tail(strings) && Leaning(b, strings, b.index, loc)
    requires FirstMatch(b.data, b.index, strings, 0) == None
    ensures FlagsClear(AppendName(b, strings).buf.data, b.index, 4)
  {
    var r := AppendName(b, strings).buf;
    TailIsPlain(strings);
    WalkOfOutput(b, strings, b.index, r.data);
    match Pointed(b, strings)
    case None =>
      FlagsOfSpelled(strings);
    case Some(c) =>
      var s := AtPointer(b, strings);
      PointerKeepsPrefix(b, strings);
      AnchorStays(s, loc, r, loc, c);
      FirstMatchIsFirst(s.data, s.index, strings[Spelled(b, strings)..], 0, 0);
      FlagsBehindPointer(strings, Spelled(b, strings), s.data, c);
  }

  // ---------------------------------------------------------------- what a name leaves behind

  /** Wherever a word seems to start from offset from on, there is an anchor. */
  ghost predicate LegibleFrom(r: Buf, words: set<bytes>, loc: nat, from: nat)
    requires r.Valid()
  {
    forall c: nat, w :: w in words && from <= c && c + 1 < r.index && Starts(r.data, c, r.index, w) ==> Anchor(r, c, loc)
  }

  /** In the label s at offset at, a word seems to start nowhere but at its length byte. */
  lemma NothingInside(r: Buf, at: nat, s: bytes, c: nat, w: bytes, words: set<bytes>)
    requires r.Valid() && Wording(words) && s in words && w in words
    requires at + 1 + |s| <= r.index && LabelAt(r.data, at, s) && at < c < at + 1 + |s|
    ensures !Starts(r.data, c, r.index, w)
  {
    if Starts(r.data, c, r.index, w) {
      HiddenInside(r.data, at, s, c, r.index, w);
      assert false;
    }
  }

  lemma LabelInOutput(b: Buf, strings: seq<bytes>)
    requires Fits(b, strings) && PlainLabels(strings) && strings != []
    requires FirstMatch(b.data, b.index, strings, 0) == None
    ensures var r := AppendName(b, strings).buf;
            b.index + 1 + |strings[0]| <= r.index && LabelAt(r.data, b.index, strings[0])
  {
    var first := AppendString(b, strings[0]).buf;
    var r := AppendName(b, strings).buf;
    assert PlainLabel(strings[0]);
    NameStep(b, strings);
    NameKeepsPrefix(first, strings[1..]);
    LabelInPlace(b, strings[0]);
    LabelStays(first.data, r.data, b.index, strings[0]);
  }

  /** The places of a name at which a word seems to start are its labels, all of them anchors. */
  lemma {:induction false} OwnLabelsAreAnchors(b: Buf, strings: seq<bytes>, words: set<bytes>, loc: nat)
    requires b.Valid() && Fits(b, strings) && (strings == [] || Tail(strings))
    requires (forall s :: s in strings ==> s in words) && Wording(words)
    requires Leaning(b, strings, b.index, loc) && HEAD_LEN <= b.index && loc + 1 < b.index
    ensures LegibleFrom(AppendName(b, strings).buf, words, loc, b.index)
    decreases |strings|
  {
    if strings == [] {
      EndIsShort(b);
    } else if FirstMatch(b.data, b.index, strings, 0).Some? {
      PointerIsShort(b, strings, words, loc);
    } else {
      LabelThenRest(b, strings, words, loc);
    }
  }

  lemma EndIsShort(b: Buf)
    requires b.Valid()
    ensures AppendName(b, []).buf.index <= b.index + 1
  {}

  lemma PointerIsShort(b: Buf, strings: seq<bytes>, words: set<bytes>, loc: nat)
    requires b.Valid() && Fits(b, strings) && Tail(strings) && Wording(words)
    requires FirstMatch(b.data, b.index, strings, 0).Some?
    ensures LegibleFrom(AppendName(b, strings).buf, words, loc, b.index)
  {
    hide Wording, Anchor;
    TailIsPlain(strings);
    NameAtPointer(b, strings);
    PointerBytes(b, FirstMatch(b.data, b.index, strings, 0).value);
    forall w | w in words
      ensures |w| < 0xC0
    {
      WordIsShort(w, words);
    }
  }

  lemma WordIsShort(w: bytes, words: set<bytes>)
    requires Wording(words) && w in words
    ensures 1 <= |w| <= 63 && 5 < w[0] < 0xC0
  {}

  lemma LabelThenRest(b: Buf, strings: seq<bytes>, words: set<bytes>, loc: nat)
    requires b.Valid() && Fits(b, strings) && Tail(strings) && strings != []
    requires (forall s :: s in strings ==> s in words) && Wording(words)
    requires Leaning(b, strings, b.index, loc) && HEAD_LEN <= b.index && loc + 1 < b.index
    requires FirstMatch(b.data, b.index, strings, 0) == None
    ensures LegibleFrom(AppendName(b, strings).buf, words, loc, b.index)
    decreases |strings|, 0
  {
    hide Standard, Starts, Anchor, LabelAt, Wording, FirstMatch;
    var first := AppendString(b, strings[0]).buf;
    var r := AppendName(b, strings).buf;
    TailIsPlain(strings);
    NameStep(b, strings);
    PointedStep(b, strings);
    RestIsTail(strings);
    assert strings[0] in strings;
    OwnLabelsAreAnchors(first, strings[1..], words, loc);
    StartIsAnchor(b, strings, loc);
    LabelInOutput(b, strings);
    forall c: nat, w | w in words && b.index <= c && c + 1 < r.index && Starts(r.data, c, r.index, w)
      ensures Anchor(r, c, loc)
    {
      if b.index < c < first.index {
        NothingInside(r, b.index, strings[0], c, w, words);
      }
    }
  }

  lemma RestIsTail(strings: seq<bytes>)
    requires Tail(strings)
    ensures strings[1..] == [] || Tail(strings[1..])
  {
    if |strings| > 1 {
      TailOfTail(strings);
    }
  }

  lemma {:induction false} NameKeepsBehind(b: Buf, strings: seq<bytes>)
    requires Fits(b, strings) && PlainLabels(strings)
    ensures var r := AppendName(b, strings).buf;
            b.index < r.index && forall i :: r.index <= i < MAX_PACKET_SIZE ==> r.data[i] == b.data[i]
    decreases |strings|
  {
    if strings == [] {
    } else if FirstMatch(b.data, b.index, strings, 0) == None {
      NameStep(b, strings);
      NameKeepsBehind(AppendString(b, strings[0]).buf, strings[1..]);
    } else {
      NameAtPointer(b, strings);
    }
  }

  /** x is not the first byte of a word. */
  predicate Mute(x: byte, words: set<bytes>) {
    forall w :: w in words ==> w != [] && w[0] != x
  }

  /** A name begins with a length or a pointer, never with the first byte of a word. */
  lemma FirstByte(b: Buf, strings: seq<bytes>, words: set<bytes>)
    requires b.Valid() && Fits(b, strings) && Spoken(strings, words) && Wording(words)
    ensures b.index < AppendName(b, strings).buf.index && Mute(AppendName(b, strings).buf.data[b.index], words)
  {
    hide Hides;
    SpokenWords(strings, words);
    NameKeepsBehind(b, strings);
    assert strings[0] in strings;
    if FirstMatch(b.data, b.index, strings, 0) == None {
      LabelInOutput(b, strings);
    } else {
      PointerBytes(b, FirstMatch(b.data, b.index, strings, 0).value);
    }
  }

  /** Whatever is put behind a legible buffer, the places before it stay legible, if it does not
      begin with the first byte of a word. */
  lemma LegibleBefore(b: Buf, e: Buf, words: set<bytes>, loc: nat, newLoc: nat)
    requires b.Valid() && e.Valid() && Legible(b, words, loc) && Wording(words)
    requires b.index < e.index && Later(b.index, loc, e.index, newLoc)
    requires forall i :: 0 <= i < b.index ==> e.data[i] == b.data[i]
    requires Mute(e.data[b.index], words)
    requires LegibleFrom(e, words, newLoc, b.index)
    ensures Legible(e, words, newLoc)
  {
    hide Wording, Anchor, Starts;
    forall c: nat, w | w in words && c + 1 < e.index && Starts(e.data, c, e.index, w)
      ensures Anchor(e, c, newLoc)
    {
      if c + 1 < b.index {
        StartsEarlier(b, e, c, w);
        AnchorStays(b, loc, e, newLoc, c);
      } else if c + 1 == b.index {
        NoStart(e.data, c, e.index, w);
      }
    }
  }

  /** What a name keeps up for the names behind it. */
  lemma NameStaysLegible(b: Buf, strings: seq<bytes>, words: set<bytes>, loc: nat)
    requires b.Valid() && Fits(b, strings) && Spoken(strings, words) && Wording(words)
    requires ZeroBehind(b) && Legible(b, words, loc) && HEAD_LEN <= b.index && loc + 1 < b.index
    ensures Sound(b, strings, loc)
    ensures var r := AppendName(b, strings).buf; ZeroBehind(r) && Legible(r, words, loc)
  {
    hide Wording, Legible, LegibleFrom, Leaning, Standard, Sound, Fits;
    var r := AppendName(b, strings).buf;
    SpokenIsSound(b, strings, words, loc);
    SpokenWords(strings, words);
    OwnLabelsAreAnchors(b, strings, words, loc);
    NameKeepsPrefix(b, strings);
    NameKeepsBehind(b, strings);
    FirstByte(b, strings, words);
    LegibleBefore(b, r, words, loc, loc);
  }
}
