/** Soundness of compression, and its exact limits. */
module CompressionTheorem {
  import opened Bytes
  import opened FqdnReader
  import opened FqdnFolding
  import opened FqdnWriter
  import opened Compression

  /** The decode at c looks at nothing but what has been written. */
  ghost predicate WithinWritten(s: Buf, c: nat) {
    forall i: nat :: Touches(s.data, c, c, i) ==> i < s.index
  }

  /** What the search learns about the offset it picks but does not test: the two flags of the
      name it decoded, and whether a four-label name would still follow a pointer at its end. */
  predicate FlagsClear(data: bytes, c: nat, count: nat) {
    match WalkName(data, c, c)
    case Bad => false
    case Good(_, items) =>
      var name := Fold(NO_NAME, items);
      !name.sub && !name.invalid && (count == 4 ==> !EndsInJump(items))
  }

  /** The missing tests: the offset lies before the name being written, and its flags are clear. */
  predicate Checked(b: Buf, strings: seq<bytes>)
    requires b.Valid()
  {
    match Pointed(b, strings)
    case None => true
    case Some(c) => c < b.index && FlagsClear(AtPointer(b, strings).data, c, |strings|)
  }

  lemma {:induction false} FoldSpelled(strings: seq<bytes>, k: nat)
    requires Standard(strings) && k <= |strings|
    ensures Fold(NO_NAME, Labels(strings[..k])) == Name(strings[..k], false, false)
  {
    if k == 0 {
      assert Labels(strings[..0]) == [];
    } else {
      FoldSpelled(strings, k - 1);
      var last := strings[k - 1];
      assert last in strings;
      assert Labels(strings[..k]) == Labels(strings[..k - 1]) + [Label(last)];
      FoldAppend(NO_NAME, Labels(strings[..k - 1]), [Label(last)]);
      CStrOfText(last);
      StaysApart(strings, k - 1);
      var before := Name(strings[..k - 1], false, false);
      assert Fold(before, [Label(last)]) == AddItem(before, Label(last));
      assert strings[..k - 1] + [last] == strings[..k];
    }
  }

  /** No label of a standard name is taken for a continuation of the host. */
  lemma StaysApart(strings: seq<bytes>, k: nat)
    requires Standard(strings) && k < |strings|
    ensures k == 1 ==> !JoinsHost(strings[k])
    ensures !SameText(strings[k], SUB)
  {}

  /** The labels found at the offset, as the search saw them. */
  lemma CandidateIsCalm(data: bytes, c: nat, rest: seq<bytes>)
    requires c < |data| && 1 <= |rest| <= 3 && PlainLabels(rest) && !SameText(rest[0], SUB)
    requires Matches(data, c, rest)
    ensures var items := WalkName(data, c, c).items;
            && items != [] && items[0] == Label(rest[0])
            && (!Fold(NO_NAME, items).sub ==> Calm(Name([rest[0]], false, false), items[1..]))
            && Fold(NO_NAME, items) == Fold(Name([rest[0]], false, false), items[1..])
  {
    assert rest[0] in rest;
    CStrOfText(rest[0]);
    var items := WalkName(data, c, c).items;
    var next := WalkName(data, c, c + 1 + |rest[0]|);
    assert data[c + 1..c + 1 + |rest[0]|] == rest[0];
    assert items == [Label(rest[0])] + next.items;
    var a := AddItem(NO_NAME, items[0]);
    assert a == Name([rest[0]], false, false);
    FoldExtends(a, items[1..]);
    assert SameText(rest[0], Fold(NO_NAME, items).labels[0]);
  }

  /** The suffix found at the offset, folded behind the spelled labels pre. */
  lemma FoldBehindSpelled(pre: seq<bytes>, rest: seq<bytes>, data: bytes, c: nat)
    requires Standard(pre + rest) && pre != [] && rest != []
    requires c < |data| && Matches(data, c, rest)
    requires !HasSub(WalkName(data, c, c).items)
    ensures var items := WalkName(data, c, c).items;
            var found := Fold(NO_NAME, items);
            && !found.sub && !found.invalid
            && Fold(Name(pre, false, false), items)
               == Name(pre + found.labels, false, |pre| + |rest| == 4 && EndsInJump(items))
  {
    var items := WalkName(data, c, c).items;
    forall s | s in rest
      ensures PlainLabel(s) && !SameText(s, SUB)
    {
      assert s in pre + rest;
    }
    assert rest[0] in rest;
    CandidateIsCalm(data, c, rest);
    FoldSub(NO_NAME, items);
    var first := Name([rest[0]], false, false);
    AddFirst(pre, rest);
    FoldBehind(first, pre, false, items[1..]);
    CalmStaysValid(first, items[1..]);
    assert EndsInJump(items[1..]) <==> EndsInJump(items);
  }

  lemma AddFirst(pre: seq<bytes>, rest: seq<bytes>)
    requires Standard(pre + rest) && pre != [] && rest != []
    ensures AddItem(Name(pre, false, false), Label(rest[0])) == Name(pre + [rest[0]], false, false)
  {
    var strings := pre + rest;
    assert strings[|pre|] == rest[0];
    StaysApart(strings, |pre|);
    assert rest[0] in strings;
    CStrOfText(rest[0]);
  }

  /** The whole name as the receiver folds it. */
  lemma FoldOfPointedName(strings: seq<bytes>, k: nat, data: bytes, c: nat)
    requires Standard(strings) && k < |strings|
    requires c < |data| && Matches(data, c, strings[k..])
    ensures var items := WalkName(data, c, c).items;
            var whole := Fold(NO_NAME, Labels(strings[..k]) + ([Jump] + items));
            && whole == Fold(Name(strings[..k], false, false), items)
            && (whole.sub <==> HasSub(items))
            && (!whole.sub ==> |whole.labels| == |strings| && (!whole.invalid <==> FlagsClear(data, c, |strings|)))
  {
    var items := WalkName(data, c, c).items;
    var start := Name(strings[..k], false, false);
    FoldSpelled(strings, k);
    FoldAppend(NO_NAME, Labels(strings[..k]), [Jump] + items);
    assert ([Jump] + items)[1..] == items;
    assert Fold(start, [Jump] + items) == Fold(start, items);
    FoldSub(start, items);
    FoldSub(NO_NAME, items);
    if !HasSub(items) {
      if k == 0 {
        assert start == NO_NAME && strings[0..] == strings;
        SpoiltAtTheEnd(NO_NAME, items);
      } else {
        assert strings == strings[..k] + strings[k..];
        FoldBehindSpelled(strings[..k], strings[k..], data, c);
      }
    }
  }

  /** Its labels are the wanted ones, up to case. */
  lemma LabelsOfPointedName(strings: seq<bytes>, k: nat, data: bytes, c: nat)
    requires Standard(strings) && k < |strings|
    requires c < |data| && Matches(data, c, strings[k..])
    requires !HasSub(WalkName(data, c, c).items)
    ensures var whole := Fold(Name(strings[..k], false, false), WalkName(data, c, c).items);
            && |whole.labels| == |strings|
            && forall i :: 0 <= i < |strings| ==> SameText(strings[i], whole.labels[i])
  {
    var items := WalkName(data, c, c).items;
    var found := Fold(NO_NAME, items);
    if k == 0 {
      assert Name(strings[..k], false, false) == NO_NAME && strings[0..] == strings;
    } else {
      assert strings == strings[..k] + strings[k..];
      FoldBehindSpelled(strings[..k], strings[k..], data, c);
      var whole := strings[..k] + found.labels;
      forall i | 0 <= i < |strings|
        ensures SameText(strings[i], whole[i])
      {
        if i >= k {
          assert SameText(strings[k..][i - k], found.labels[i - k]);
        }
      }
    }
  }

  lemma {:induction false} CalmStaysValid(a: Name, items: seq<Item>)
    requires Calm(a, items)
    ensures !Fold(a, items).invalid
    decreases |items|
  {
    if items != [] {
      CalmStep(a, items);
      CalmStaysValid(AddItem(a, items[0]), items[1..]);
    }
  }

  /** On its own, too, a four-label name that ends in a pointer is invalid. */
  lemma {:induction false} SpoiltAtTheEnd(n: Name, items: seq<Item>)
    ensures EndsInJump(items) && |Fold(n, items).labels| == 4 ==> Fold(n, items).invalid
    decreases |items|
  {
    if |items| > 1 {
      SpoiltAtTheEnd(AddItem(n, items[0]), items[1..]);
    }
  }

  lemma ArrangeStandard(strings: seq<bytes>, name: Name)
    requires Standard(strings) && |name.labels| == |strings|
    requires forall i :: 0 <= i < |strings| ==> SameText(strings[i], name.labels[i])
    ensures SameName(Arrange(name), Expected(strings)) <==> !name.sub && !name.invalid
  {}

  /** The offset that is pointed at reads the same in the finished packet. */
  lemma PointedIsStable(b: Buf, strings: seq<bytes>)
    requires Fits(b, strings) && PlainLabels(strings)
    requires var c := Pointed(b, strings); c.Some? && WithinWritten(AtPointer(b, strings), c.value)
    ensures var c := Pointed(b, strings).value;
            var s := AtPointer(b, strings);
            && c < |s.data| && Matches(s.data, c, strings[Spelled(b, strings)..])
            && WalkName(s.data, c, c).Good?
            && WalkName(AppendName(b, strings).buf.data, c, c) == WalkName(s.data, c, c)
  {
    var c := Pointed(b, strings).value;
    var s := AtPointer(b, strings);
    var r := AppendName(b, strings).buf;
    FirstMatchIsFirst(s.data, s.index, strings[Spelled(b, strings)..], 0, 0);
    PointerKeepsPrefix(b, strings);
    forall i: nat | Touches(s.data, c, c, i)
      ensures SameAt(s.data, r.data, i)
    {
    }
    DecodeIsStable(s.data, r.data, c, c);
  }

  /** The name the receiver makes of the spelled labels and the items behind the pointer. */
  lemma PointedName(strings: seq<bytes>, k: nat, data: bytes, c: nat)
    requires Standard(strings) && k < |strings|
    requires c < |data| && Matches(data, c, strings[k..])
    ensures var whole := Fold(NO_NAME, Labels(strings[..k]) + ([Jump] + WalkName(data, c, c).items));
            SameName(Arrange(whole), Expected(strings)) <==> FlagsClear(data, c, |strings|)
  {
    var items := WalkName(data, c, c).items;
    FoldOfPointedName(strings, k, data, c);
    FoldSub(NO_NAME, items);
    var whole := Fold(Name(strings[..k], false, false), items);
    if HasSub(items) {
      assert Arrange(whole).sub;
    } else {
      LabelsOfPointedName(strings, k, data, c);
      ArrangeStandard(strings, whole);
    }
  }

  lemma SpelledOutReadsBack(b: Buf, strings: seq<bytes>)
    requires Fits(b, strings) && Standard(strings) && Pointed(b, strings) == None
    ensures var r := AppendName(b, strings).buf; ReadsBack(r.data, b.index, r.index, strings)
  {
    WalkOfOutput(b, strings, b.index, AppendName(b, strings).buf.data);
    FoldSpelled(strings, |strings|);
    assert strings[..|strings|] == strings;
    ArrangeStandard(strings, Name(strings, false, false));
  }

  /** Compression is sound exactly when the pointed-at offset passes the tests the search
      leaves out.  (An offset before the name must decode within the bytes written so far;
      what lies behind them is left over from the previous packet.) */
  lemma CompressionIsSound(b: Buf, strings: seq<bytes>)
    requires Fits(b, strings) && Standard(strings)
    requires var c := Pointed(b, strings); c.Some? && c.value < b.index ==> WithinWritten(AtPointer(b, strings), c.value)
    ensures var r := AppendName(b, strings).buf;
            ReadsBack(r.data, b.index, r.index, strings) <==> Checked(b, strings)
  {
    match Pointed(b, strings)
    case None =>
      SpelledOutReadsBack(b, strings);
    case Some(c) =>
      WalkOfOutput(b, strings, b.index, AppendName(b, strings).buf.data);
      if c < b.index {
        PointedIsStable(b, strings);
        PointedName(strings, Spelled(b, strings), AtPointer(b, strings).data, c);
      }
  }
}
