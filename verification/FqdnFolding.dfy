/** How the decoder's name builder treats a suffix that is reached through a pointer, compared
    with the same suffix decoded on its own: the search in append_fqdn does the latter, the
    receiver the former. */
module FqdnFolding {
  import opened Bytes
  import opened FqdnReader

  predicate HasSub(items: seq<Item>) {
    exists i :: 0 <= i < |items| && IsSub(items[i])
  }

  predicate IsSub(item: Item) {
    item.Label? && SameText(CStr(item.raw), SUB)
  }

  lemma SubNeverJoins(text: bytes)
    requires SameText(text, SUB)
    ensures !JoinsHost(text)
  {
    assert Lower(text[0]) == Lower(SUB[0]);
  }

  /** The sub flag says that some label is "_sub", wherever it stands. */
  lemma {:induction false} FoldSub(n: Name, items: seq<Item>)
    ensures Fold(n, items).sub == (n.sub || HasSub(items))
    decreases |items|
  {
    if items != [] {
      FoldSub(AddItem(n, items[0]), items[1..]);
      if IsSub(items[0]) {
        SubNeverJoins(CStr(items[0].raw));
      }
      assert HasSub(items) == (IsSub(items[0]) || HasSub(items[1..])) by {
        if HasSub(items[1..]) {
          var i :| 0 <= i < |items[1..]| && IsSub(items[1..][i]);
          assert IsSub(items[i + 1]);
        }
      }
    }
  }

  ghost predicate Extends(n: Name, m: Name) {
    && |n.labels| <= |m.labels|
    && (|n.labels| > 0 && |n.labels[0]| < NAME_BUF_LEN ==> |n.labels[0]| <= |m.labels[0]| < NAME_BUF_LEN)
  }

  /** Labels are never taken back, and the first one only gets longer. */
  lemma {:induction false} FoldExtends(n: Name, items: seq<Item>)
    ensures Extends(n, Fold(n, items))
    decreases |items|
  {
    if items != [] {
      FoldExtends(AddItem(n, items[0]), items[1..]);
    }
  }

  /** The part of a decode that follows its first label, with nothing joined to that label
      and no "_sub" in it. */
  ghost predicate Calm(a: Name, items: seq<Item>) {
    var f := Fold(a, items);
    && 1 <= |a.labels| <= |f.labels| <= 3
    && |a.labels[0]| == |f.labels[0]| <= 63
    && !a.invalid && !f.sub
  }

  /** In a calm decode a label is a further part of the name. */
  lemma CalmStep(a: Name, items: seq<Item>)
    requires Calm(a, items) && items != []
    ensures !a.sub
    ensures Calm(AddItem(a, items[0]), items[1..])
    ensures match items[0]
            case Jump => AddItem(a, items[0]) == a
            case Label(raw) =>
              !SameText(CStr(raw), SUB) && AddItem(a, items[0]) == a.(labels := a.labels + [CStr(raw)])
  {
    FoldSub(a, items);
    var b := AddItem(a, items[0]);
    FoldExtends(b, items[1..]);
    match items[0]
    case Jump =>
    case Label(raw) =>
      assert !IsSub(items[0]);
  }

  lemma {:induction false} OnlyJumpsLeft(a: Name, items: seq<Item>)
    requires Calm(a, items) && |Fold(a, items).labels| == |a.labels|
    ensures forall i :: 0 <= i < |items| ==> items[i].Jump?
    decreases |items|
  {
    if items != [] {
      CalmStep(a, items);
      FoldExtends(AddItem(a, items[0]), items[1..]);
      OnlyJumpsLeft(AddItem(a, items[0]), items[1..]);
      assert forall i :: 1 <= i < |items| ==> items[i] == items[1..][i - 1];
    }
  }

  predicate EndsInJump(items: seq<Item>) {
    items != [] && items[|items| - 1].Jump?
  }

  /** Behind pre, the same items give the same further labels; the name is spoilt exactly when
      it is complete with four labels and a pointer is still to be followed. */
  lemma {:induction false} FoldBehind(a: Name, pre: seq<bytes>, spoilt: bool, items: seq<Item>)
    requires Calm(a, items)
    requires 1 <= |pre| && |pre| + |Fold(a, items).labels| <= 4
    requires spoilt ==> |pre| + |a.labels| == 4
    ensures var f := Fold(a, items);
            Fold(Name(pre + a.labels, false, spoilt), items)
            == Name(pre + f.labels, false, spoilt || (|pre| + |f.labels| == 4 && EndsInJump(items)))
    decreases |items|
  {
    if items != [] {
      var b := Name(pre + a.labels, false, spoilt);
      CalmStep(a, items);
      var next := AddItem(a, items[0]);
      FoldExtends(next, items[1..]);
      if |pre| + |a.labels| == 4 {
        OnlyJumpsLeft(a, items);
      }
      match items[0]
      case Jump =>
        FoldBehind(a, pre, spoilt || |b.labels| == 4, items[1..]);
      case Label(raw) =>
        assert b.labels + [CStr(raw)] == pre + next.labels;
        FoldBehind(next, pre, spoilt, items[1..]);
    }
  }
}
