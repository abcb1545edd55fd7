/** What the decoder makes of names without pointers, label by label: hosts with dots, the four
    parts of a service name, subtypes, and names that are too long or of a foreign domain. */
module LabelNames {
  import opened Bytes
  import opened FqdnReader
  import opened FqdnFolding
  import opened Compression

  /** A text that C strings hold and that does not mean anything special. */
  predicate PlainText(t: bytes) {
    0 !in t && !SameText(t, SUB)
  }

  lemma FoldText(n: Name, t: bytes, texts: seq<bytes>)
    requires 0 !in t
    ensures Fold(n, Labels([t] + texts)) == Fold(AddText(Overflow(n), t), Labels(texts))
  {
    CStrOfText(t);
    var items := Labels([t] + texts);
    assert items[0] == Label(t) && items[1..] == Labels(texts);
  }

  /** A plain label that joins nothing is the next part of the name. */
  lemma NextPart(n: Name, t: bytes, texts: seq<bytes>)
    requires PlainText(t) && !n.invalid && |n.labels| < 4 && (|n.labels| == 1 ==> !JoinsHost(t))
    ensures Fold(n, Labels([t] + texts)) == Fold(n.(labels := n.labels + [t]), Labels(texts))
  {
    FoldText(n, t, texts);
  }

  /** A label that is part of a host name with dots. */
  predicate HostPart(t: bytes) {
    0 !in t && (t == [] || t[0] != UNDERSCORE)
    && !SameText(t, LOCAL) && !SameText(t, ARPA) && !SameText(t, IP6) && !SameText(t, IN_ADDR)
  }

  function Dotted(host: bytes, parts: seq<bytes>): bytes
    decreases |parts|
  {
    if parts == [] then host else Dotted(host + [DOT] + parts[0], parts[1..])
  }

  lemma {:induction false} DottedIsLonger(host: bytes, parts: seq<bytes>)
    ensures |Dotted(host, parts)| >= |host|
    decreases |parts|
  {
    if parts != [] {
      DottedIsLonger(host + [DOT] + parts[0], parts[1..]);
    }
  }

  lemma {:induction false} PartsJoin(host: bytes, parts: seq<bytes>, texts: seq<bytes>)
    requires (forall t :: t in parts ==> HostPart(t)) && |Dotted(host, parts)| < NAME_BUF_LEN
    ensures Fold(Name([host], false, false), Labels(parts + texts))
            == Fold(Name([Dotted(host, parts)], false, false), Labels(texts))
    decreases |parts|
  {
    if parts == [] {
      assert parts + texts == texts;
    } else {
      var t, next := parts[0], host + [DOT] + parts[0];
      assert t in parts && HostPart(t);
      DottedIsLonger(next, parts[1..]);
      assert parts + texts == [t] + (parts[1..] + texts);
      FoldText(Name([host], false, false), t, parts[1..] + texts);
      assert Strlcat(Strlcat(host, [DOT]), t) == next;
      PartsJoin(next, parts[1..], texts);
    }
  }

  /** Labels that are neither a type nor a known domain make one host name with dots. */
  lemma DottedHostReads(host: bytes, parts: seq<bytes>)
    requires PlainText(host) && (forall t :: t in parts ==> HostPart(t)) && |Dotted(host, parts)| < NAME_BUF_LEN
    ensures Arrange(Fold(NO_NAME, Labels([host] + parts + [LOCAL])))
            == Parsed(Dotted(host, parts), [], [], LOCAL, 2, false, false)
  {
    assert [host] + parts + [LOCAL] == [host] + (parts + [LOCAL]);
    FoldText(NO_NAME, host, parts + [LOCAL]);
    assert [] + [host] == [host];
    PartsJoin(host, parts, [LOCAL]);
    assert [LOCAL] == [LOCAL] + [];
    LocalEnds(Dotted(host, parts));
  }

  lemma LocalEnds(host: bytes)
    ensures Fold(Name([host], false, false), Labels([LOCAL])) == Name([host, LOCAL], false, false)
    ensures Arrange(Name([host, LOCAL], false, false)) == Parsed(host, [], [], LOCAL, 2, false, false)
  {
    LocalIsPlain();
    assert [LOCAL] == [LOCAL] + [];
    FoldText(Name([host], false, false), LOCAL, []);
    assert [host] + [LOCAL] == [host, LOCAL];
  }

  lemma LocalIsPlain()
    ensures 0 !in LOCAL && SameText(LOCAL, LOCAL) && !SameText(LOCAL, SUB) && !JoinsHost(LOCAL)
  {
    assert Lower(LOCAL[0]) == 0x6c && |LOCAL| != |SUB|;
  }

  /** Four labels behind a host part: instance, type, protocol and domain. */
  lemma FourLabels(a: bytes, b: bytes, c: bytes, d: bytes, texts: seq<bytes>)
    requires PlainText(a) && PlainText(b) && PlainText(c) && PlainText(d) && b != [] && b[0] == UNDERSCORE
    ensures Fold(NO_NAME, Labels([a, b, c, d] + texts)) == Fold(Name([a, b, c, d], false, false), Labels(texts))
  {
    hide Fold, Labels, PlainText;
    assert [a, b, c, d] + texts == [a] + ([b] + ([c] + ([d] + texts)));
    NextPart(NO_NAME, a, [b] + ([c] + ([d] + texts)));
    assert [] + [a] == [a];
    NextPart(Name([a], false, false), b, [c] + ([d] + texts));
    assert [a] + [b] == [a, b];
    NextPart(Name([a, b], false, false), c, [d] + texts);
    assert [a, b] + [c] == [a, b, c];
    NextPart(Name([a, b, c], false, false), d, texts);
    assert [a, b, c] + [d] == [a, b, c, d];
  }

  /** A name with four labels is taken if its domain is known, and spoilt otherwise; a fifth label
      spoils any. */
  lemma FourthIsDomain(a: bytes, b: bytes, c: bytes, d: bytes, e: bytes)
    requires PlainText(a) && PlainText(b) && PlainText(c) && PlainText(d) && b != [] && b[0] == UNDERSCORE
    ensures Arrange(Fold(NO_NAME, Labels([a, b, c, d])))
            == Parsed(a, b, c, d, 4, false, !SameText(d, LOCAL) && !SameText(d, ARPA))
    ensures PlainText(e) ==> Arrange(Fold(NO_NAME, Labels([a, b, c, d, e]))).invalid
  {
    assert [a, b, c, d] + [] == [a, b, c, d];
    FourLabels(a, b, c, d, []);
    if PlainText(e) {
      assert [a, b, c, d] + [e] == [a, b, c, d, e] && [e] == [e] + [];
      FourLabels(a, b, c, d, [e]);
      FoldText(Name([a, b, c, d], false, false), e, []);
    }
  }

  /** The label _sub is no part of the name: the subtype goes where an instance goes. */
  lemma SubtypeReads(t: bytes, s: bytes, p: bytes)
    requires PlainText(t) && PlainText(s) && PlainText(p) && s != [] && s[0] == UNDERSCORE
    ensures Arrange(Fold(NO_NAME, Labels([t, SUB, s, p, LOCAL]))) == Parsed(t, s, p, LOCAL, 4, true, false)
  {
    hide Fold, Labels, SameText;
    LocalIsPlain();
    SubIsText();
    var rest := [s] + ([p] + ([LOCAL] + []));
    assert [t, SUB, s, p, LOCAL] == [t] + ([SUB] + rest);
    NextPart(NO_NAME, t, [SUB] + rest);
    assert [] + [t] == [t];
    FoldText(Name([t], false, false), SUB, rest);
    NextPart(Name([t], true, false), s, [p] + ([LOCAL] + []));
    assert [t] + [s] == [t, s];
    NextPart(Name([t, s], true, false), p, [LOCAL] + []);
    assert [t, s] + [p] == [t, s, p];
    NextPart(Name([t, s, p], true, false), LOCAL, []);
    assert [t, s, p] + [LOCAL] == [t, s, p, LOCAL];
    NothingFolds(Name([t, s, p, LOCAL], true, false));
  }

  lemma NothingFolds(n: Name)
    ensures Fold(n, Labels([])) == n
  {}

  lemma SubIsText()
    ensures 0 !in SUB && SameText(SUB, SUB) && !JoinsHost(SUB)
  {
    SubNeverJoins(SUB);
  }
}
