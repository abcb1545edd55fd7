/** Names that do not fit.  append_fqdn adds up what its recursive calls return, so that only the
    failure of the first step reaches the caller: behind a label that still fitted, the name may
    lack its end. */
module NameOverflow {
  import opened Bytes
  import opened FqdnReader
  import opened FqdnWriter
  import opened Compression
  import opened CompressionLimits
  import opened RecordWriter

  /** Labels up to a zero byte or a pointer, and that is where end is. */
  predicate Closed(data: bytes, at: nat, end: nat)
    decreases |data| - at
  {
    && at < end <= |data|
    && if data[at] == 0 then at + 1 == end
       else if data[at] >= 0xC0 then at + 2 == end
       else data[at] <= 63 && Closed(data, at + 1 + data[at], end)
  }

  /** The first step fits: a pointer, a label or the closing zero. */
  predicate FirstFits(b: Buf, strings: seq<bytes>)
    requires b.Valid()
  {
    if strings == [] then b.index < MAX_PACKET_SIZE
    else if FirstMatch(b.data, b.index, strings, 0).Some? then b.index + 1 < MAX_PACKET_SIZE
    else b.index + 1 + |strings[0]| < MAX_PACKET_SIZE
  }

  /** Every step fits: the labels up to the pointer, and the pointer or the zero behind them. */
  predicate AllFit(b: Buf, strings: seq<bytes>)
    requires b.Valid()
  {
    var end := b.index + Size(strings[..Spelled(b, strings)]) - 1;
    end + (if Pointed(b, strings).Some? then 1 else 0) < MAX_PACKET_SIZE
  }

  lemma AllFitStep(b: Buf, strings: seq<bytes>)
    requires b.Valid() && strings != [] && PlainLabel(strings[0])
    requires FirstMatch(b.data, b.index, strings, 0) == None && FirstFits(b, strings)
    ensures AllFit(b, strings) <==> AllFit(AppendString(b, strings[0]).buf, strings[1..])
  {
    var first := AppendString(b, strings[0]).buf;
    var k := Spelled(first, strings[1..]);
    LabelFits(b, strings[0]);
    PointedStep(b, strings);
    assert strings[..k + 1][1..] == strings[1..][..k] && strings[..k + 1][0] == strings[0];
  }

  /** When a label does not fit, nothing is written any more. */
  lemma NothingFits(b: Buf, strings: seq<bytes>)
    requires b.Valid() && strings != [] && PlainLabel(strings[0]) && !FirstFits(b, strings)
    ensures AppendName(b, strings) == Step(b, 0)
  {}

  /** Of a name that does not fit as a whole, the first label that does not fit is the last that
      is tried. */
  lemma TooLong(b: Buf, strings: seq<bytes>)
    requires b.Valid() && strings != [] && PlainLabel(strings[0]) && !FirstFits(b, strings)
    ensures !AllFit(b, strings)
  {
    PointedStep(b, strings);
    var k := Spelled(b, strings);
    if FirstMatch(b.data, b.index, strings, 0) == None {
      SizeIsPositive(strings[..k][1..]);
    } else {
      assert strings[..0] == [];
    }
  }

  /** What is written is a closed name if and only if every step fits. */
  lemma {:induction false} ClosedIfAllFit(b: Buf, strings: seq<bytes>)
    requires b.Valid() && PlainLabels(strings)
    ensures var r := AppendName(b, strings).buf; Closed(r.data, b.index, r.index) <==> AllFit(b, strings)
    decreases |strings|
  {
    var r := AppendName(b, strings).buf;
    if strings == [] {
      assert strings[..0] == [];
      if b.index < MAX_PACKET_SIZE {
        assert r.data[b.index + 0] == 0;
      }
    } else {
      assert PlainLabel(strings[0]);
      if !FirstFits(b, strings) {
        NothingFits(b, strings);
        TooLong(b, strings);
      } else if FirstMatch(b.data, b.index, strings, 0).Some? {
        PointedStep(b, strings);
        assert strings[..0] == [];
        var c := FirstMatch(b.data, b.index, strings, 0).value;
        assert r.data[b.index + 0] == U16(NAME_REF + c)[0] == 0xC0 + c / 256;
      } else {
        ClosedBehindLabel(b, strings);
      }
    }
  }

  lemma ClosedAtLabel(data: bytes, at: nat, end: nat)
    requires at < end <= |data| && 1 <= data[at] <= 63
    ensures Closed(data, at, end) <==> Closed(data, at + 1 + data[at], end)
  {}

  lemma ClosedBehindLabel(b: Buf, strings: seq<bytes>)
    requires b.Valid() && PlainLabels(strings) && strings != []
    requires FirstMatch(b.data, b.index, strings, 0) == None && FirstFits(b, strings)
    ensures var r := AppendName(b, strings).buf; Closed(r.data, b.index, r.index) <==> AllFit(b, strings)
    decreases |strings|, 0
  {
    hide Closed, AllFit, FirstMatch, AppendString;
    var first := AppendString(b, strings[0]).buf;
    var r := AppendName(b, strings).buf;
    assert PlainLabel(strings[0]);
    LabelFits(b, strings[0]);
    LabelInPlace(b, strings[0]);
    NameKeepsPrefix(first, strings[1..]);
    assert r == AppendName(first, strings[1..]).buf;
    ClosedAtLabel(r.data, b.index, r.index);
    ClosedIfAllFit(first, strings[1..]);
    AllFitStep(b, strings);
  }

  /** The caller is told of a failure exactly when the first step fails; so it takes a name for
      written that is not closed exactly when the first step fits and a later one does not. */
  lemma LaterFailureIsHidden(b: Buf, strings: seq<bytes>)
    requires b.Valid() && PlainLabels(strings)
    ensures var s := AppendName(b, strings);
            && (s.written > 0 <==> FirstFits(b, strings))
            && (s.written > 0 && !Closed(s.buf.data, b.index, s.buf.index) <==> FirstFits(b, strings) && !AllFit(b, strings))
  {
    ClosedIfAllFit(b, strings);
    if strings != [] {
      assert PlainLabel(strings[0]);
    }
  }

  /** It happens: with seven bytes left, the question for a.local is counted although its name
      breaks off behind the first label. */
  lemma BrokenQuestion(b: Buf, kind: nat, unicast: bool)
    requires b.Valid() && b.index == MAX_PACKET_SIZE - 7
    requires forall i :: 0 <= i < b.index ==> b.data[i] != 1 && b.data[i] != 5
    requires b.data[b.index] == 0
    ensures var name := [[0x61], LOCAL]; var n := AppendName(b, name);
            && n.written == 2 && !Closed(n.buf.data, b.index, n.buf.index)
            && AppendQuestion(b, Question(name, kind, unicast)).written > 0
  {
    var name := [[0x61], LOCAL];
    assert PlainLabel([0x61]) && PlainLabel(LOCAL);
    assert name[1..] == [LOCAL];
    FirstMatchIsFirst(b.data, b.index, name, 0, 0);
    var first := AppendString(b, [0x61]).buf;
    LabelInPlace(b, [0x61]);
    FirstMatchIsFirst(first.data, first.index, [LOCAL], 0, 0);
    assert first.data[b.index + 1 + 0] == 0x61;
    NothingFits(first, [LOCAL]);
  }
}
