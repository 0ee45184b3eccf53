/** Grouping of forward-filled rows by their (name, ref) key: the distinct
    keys in order of first appearance, each with the span from its first to
    its last row, and the label `name_ref` that names its output file. */
module Grouping {
  import opened Optional

  /** The key of one row: its filled name cell and its filled ref cell. */
  datatype Key = Key(name: string, ref: string)

  /** Zero-based row offsets `[start, end]` within the content range. */
  datatype Span = Span(start: nat, end: nat)

  /** The row keys, pairing the two filled columns row by row. */
  function Keys(names: seq<string>, refs: seq<string>): (keys: seq<Key>)
    requires |names| == |refs|
    ensures |keys| == |names|
    ensures forall i :: 0 <= i < |keys| ==> keys[i].name == names[i] && keys[i].ref == refs[i]
  {
    seq(|names|, i requires 0 <= i < |names| => Key(names[i], refs[i]))
  }

  predicate NoDuplicates(s: seq<Key>) {
    forall i, j :: 0 <= i < j < |s| ==> s[i] != s[j]
  }

  function Elements(s: seq<Key>): set<Key> {
    set k | k in s
  }

  /** Row keys with no key coming back after another key interrupted it:
      every key occupies one contiguous block of rows. */
  predicate Contiguous(keys: seq<Key>) {
    forall i, j, l :: 0 <= i < j < l < |keys| && keys[i] == keys[l] ==> keys[j] == keys[i]
  }

  /** The label of a key, `name + "_" + ref`. */
  function Label(k: Key): (l: string)
    ensures |l| == |k.name| + 1 + |k.ref|
    ensures '_' !in k.name ==> FirstUnderscore(l) == |k.name|
  {
    var l := k.name + "_" + k.ref;
    assert l[|k.name|] == '_';
    assert forall j :: 0 <= j < |k.name| ==> l[j] == k.name[j];
    l
  }

  /** Index of the first underscore of `s`, or `|s|` when there is none. */
  function FirstUnderscore(s: string): (i: nat)
    ensures i <= |s|
    ensures i < |s| ==> s[i] == '_'
    ensures forall j :: 0 <= j < i ==> s[j] != '_'
  {
    if s == [] then 0
    else if s[0] == '_' then 0
    else 1 + FirstUnderscore(s[1..])
  }

  /** Reads a label back into a key by cutting it at its first underscore. */
  function ParseLabel(s: string): Option<Key> {
    var i := FirstUnderscore(s);
    if i == |s| then None else Some(Key(s[..i], s[i + 1..]))
  }

  /** A key whose name has no underscore is recovered from its label. */
  lemma LabelRoundTrip(k: Key)
    requires '_' !in k.name
    ensures ParseLabel(Label(k)) == Some(k)
  {
    var s := Label(k);
    var i := FirstUnderscore(s);
    assert s[|k.name|] == '_';
    assert i == |k.name|;
    assert s[..i] == k.name;
    assert s[i + 1..] == k.ref;
  }

  /** So labels tell keys apart when no name contains an underscore. */
  lemma LabelInjective(k1: Key, k2: Key)
    requires '_' !in k1.name && '_' !in k2.name
    requires Label(k1) == Label(k2)
    ensures k1 == k2
  {
    LabelRoundTrip(k1);
    LabelRoundTrip(k2);
  }

  /** Without that restriction two different keys can share a label, and
      hence an output file name. */
  lemma LabelsCanCollide()
    ensures Key("a_b", "c") != Key("a", "b_c")
    ensures Label(Key("a_b", "c")) == Label(Key("a", "b_c"))
  {
  }

  /** The distinct keys in order of first appearance, as `drop_duplicates`
      keeps them. */
  function Distinct(keys: seq<Key>): (d: seq<Key>)
    ensures forall k :: k in d <==> k in keys
    ensures |d| <= |keys|
  {
    if keys == [] then []
    else
      var init := keys[..|keys| - 1];
      var last := keys[|keys| - 1];
      assert keys == init + [last];
      var prefix := Distinct(init);
      if last in prefix then prefix else prefix + [last]
  }

  /** No key is kept twice. */
  lemma {:induction false} DistinctNoDuplicates(keys: seq<Key>)
    ensures NoDuplicates(Distinct(keys))
  {
    if keys != [] {
      var init := keys[..|keys| - 1];
      assert keys == init + [keys[|keys| - 1]];
      DistinctNoDuplicates(init);
    }
  }

  /** The first row carrying `k`: the minimum of the rows that match it. */
  function FirstIndex(keys: seq<Key>, k: Key): (i: nat)
    requires k in keys
    ensures i < |keys| && keys[i] == k
    ensures forall j :: 0 <= j < i ==> keys[j] != k
  {
    if keys[0] == k then 0 else 1 + FirstIndex(keys[1..], k)
  }

  /** The last row carrying `k`: the maximum of the rows that match it. */
  function LastIndex(keys: seq<Key>, k: Key): (i: nat)
    requires k in keys
    ensures i < |keys| && keys[i] == k
    ensures forall j :: i < j < |keys| ==> keys[j] != k
  {
    var n := |keys| - 1;
    if keys[n] == k then n
    else
      assert k in keys[..n] by {
        var w :| 0 <= w < |keys| && keys[w] == k;
        assert keys[..n][w] == k;
      }
      LastIndex(keys[..n], k)
  }

  function SpanOf(keys: seq<Key>, k: Key): (s: Span)
    requires k in keys
    ensures s.start <= s.end < |keys| && keys[s.start] == k && keys[s.end] == k
  {
    Span(FirstIndex(keys, k), LastIndex(keys, k))
  }

  /** The span of `k` is fixed by its first and last rows: nothing before
      `first` and nothing after `last` carries `k`. */
  lemma SpanOfIs(keys: seq<Key>, k: Key, first: nat, last: nat)
    requires first <= last < |keys| && keys[first] == k && keys[last] == k
    requires forall j :: 0 <= j < first ==> keys[j] != k
    requires forall j :: last < j < |keys| ==> keys[j] != k
    ensures SpanOf(keys, k) == Span(first, last)
  {
    var f, l := FirstIndex(keys, k), LastIndex(keys, k);
    assert !(f < first) && !(first < f);
    assert !(l < last) && !(last < l);
  }

  /** One span per distinct key, in first-appearance order. */
  function Spans(keys: seq<Key>): (spans: seq<Span>)
    ensures |spans| == |Distinct(keys)|
  {
    var d := Distinct(keys);
    seq(|d|, i requires 0 <= i < |d| => SpanOf(keys, d[i]))
  }

  /** One label per distinct key, in first-appearance order. */
  function Labels(keys: seq<Key>): (labels: seq<string>)
    ensures |labels| == |Distinct(keys)|
  {
    var d := Distinct(keys);
    seq(|d|, i requires 0 <= i < |d| => Label(d[i]))
  }

  /** The loop over the distinct rows that appends one span and one label per
      key. */
  method CollectSpans(keys: seq<Key>) returns (spans: seq<Span>, labels: seq<string>)
    ensures spans == Spans(keys) && labels == Labels(keys)
    ensures |spans| == |labels| == |Elements(keys)|
  {
    var rows := Distinct(keys);
    spans, labels := [], [];
    for i := 0 to |rows|
      invariant |spans| == |labels| == i
      invariant forall j :: 0 <= j < i ==> spans[j] == SpanOf(keys, rows[j])
      invariant forall j :: 0 <= j < i ==> labels[j] == Label(rows[j])
    {
      var k := rows[i];
      spans := spans + [Span(FirstIndex(keys, k), LastIndex(keys, k))];
      labels := labels + [Label(k)];
    }
    assert |rows| == |Elements(keys)| by {
      DistinctCount(keys);
    }
  }

  /** Prefix facts used to relate the keys of a prefix to the whole. */
  lemma FirstIndexPrefix(keys: seq<Key>, k: Key, n: nat)
    requires n <= |keys| && k in keys[..n]
    ensures k in keys && FirstIndex(keys[..n], k) == FirstIndex(keys, k)
  {
    var i := FirstIndex(keys[..n], k);
    assert keys[i] == k;
  }

  lemma {:induction false} NoDuplicatesCard(s: seq<Key>)
    requires NoDuplicates(s)
    ensures |Elements(s)| == |s|
  {
    if s != [] {
      var init := s[..|s| - 1];
      var last := s[|s| - 1];
      NoDuplicatesCard(init);
      assert Elements(s) == Elements(init) + {last};
      assert last !in Elements(init);
    }
  }

  /** As many labels come out as there are distinct keys. */
  lemma DistinctCount(keys: seq<Key>)
    ensures |Distinct(keys)| == |Elements(keys)|
  {
    var d := Distinct(keys);
    DistinctNoDuplicates(keys);
    NoDuplicatesCard(d);
    assert Elements(d) == Elements(keys);
  }

  /** Distinct keys come out in strictly increasing order of their first row. */
  lemma {:induction false} DistinctInFirstAppearanceOrder(keys: seq<Key>, i: nat, j: nat)
    requires i < j < |Distinct(keys)|
    ensures FirstIndex(keys, Distinct(keys)[i]) < FirstIndex(keys, Distinct(keys)[j])
  {
    var n := |keys| - 1;
    var init := keys[..n];
    var last := keys[n];
    assert keys == init + [last];
    var prefix := Distinct(init);
    var d := Distinct(keys);
    FirstIndexPrefix(keys, d[i], n);
    if last in prefix {
      FirstIndexPrefix(keys, d[j], n);
      DistinctInFirstAppearanceOrder(init, i, j);
    } else if j < |prefix| {
      FirstIndexPrefix(keys, d[j], n);
      DistinctInFirstAppearanceOrder(init, i, j);
    } else {
      assert d[j] == last;
      assert FirstIndex(keys, last) == n;
    }
  }

  /** Each span starts and ends on a row of its own key, and no row before its
      start or after its end carries that key. */
  lemma SpanBounds(keys: seq<Key>, i: nat)
    requires i < |Spans(keys)|
    ensures var sp, k := Spans(keys)[i], Distinct(keys)[i];
      && sp.start <= sp.end < |keys|
      && keys[sp.start] == k && keys[sp.end] == k
      && (forall r :: 0 <= r < |keys| && (r < sp.start || sp.end < r) ==> keys[r] != k)
  {
  }

  /** Span starts strictly increase along the output. */
  lemma SpanStartsIncrease(keys: seq<Key>, i: nat, j: nat)
    requires i < j < |Spans(keys)|
    ensures Spans(keys)[i].start < Spans(keys)[j].start
  {
    DistinctInFirstAppearanceOrder(keys, i, j);
  }

  /** Every row lies inside the span of its own key. */
  lemma SpansCoverRows(keys: seq<Key>, r: nat) returns (i: nat)
    requires r < |keys|
    ensures i < |Spans(keys)| && Distinct(keys)[i] == keys[r]
    ensures Spans(keys)[i].start <= r <= Spans(keys)[i].end
  {
    var d := Distinct(keys);
    assert keys[r] in d;
    i :| 0 <= i < |d| && d[i] == keys[r];
  }

  /** When keys occupy contiguous blocks, a row lies in a span exactly when
      the span belongs to the row's key: the spans are disjoint and together
      cover every row once. */
  lemma ContiguousSpansPartition(keys: seq<Key>, r: nat, i: nat)
    requires Contiguous(keys)
    requires r < |keys| && i < |Spans(keys)|
    ensures Spans(keys)[i].start <= r <= Spans(keys)[i].end <==> Distinct(keys)[i] == keys[r]
  {
    var sp, k := Spans(keys)[i], Distinct(keys)[i];
    if sp.start < r < sp.end {
      assert keys[sp.start] == keys[sp.end];
    }
  }

  /** Appending a row adds its key to the distinct keys unless it is there. */
  lemma DistinctSnoc(keys: seq<Key>, k: Key, d: seq<Key>)
    requires Distinct(keys) == d
    ensures Distinct(keys + [k]) == if k in d then d else d + [k]
  {
    assert (keys + [k])[..|keys|] == keys;
  }

  lemma DistinctABAC(a: Key, b: Key, c: Key)
    requires a != b && a != c && b != c
    ensures Distinct([a, b, a, c]) == [a, b, c]
  {
    var k0: seq<Key> := [];
    var k1 := k0 + [a];
    var k2 := k1 + [b];
    var k3 := k2 + [a];
    var k4 := k3 + [c];
    assert k4 == [a, b, a, c];
    var d1 := [a];
    var d2 := d1 + [b];
    var d4 := d2 + [c];
    assert d4 == [a, b, c];
    assert Distinct(k1) == d1 by { DistinctSnoc(k0, a, []); }
    assert Distinct(k2) == d2 by { DistinctSnoc(k1, b, d1); }
    assert Distinct(k3) == d2 by { assert a in d2; DistinctSnoc(k2, a, d2); }
    assert Distinct(k4) == d4 by { assert c !in d2; DistinctSnoc(k3, c, d2); }
  }

  /** Interrupted keys, `[A, B, A, C]`: labels come out as `A, B, C` and the
      span of A runs from row 0 to row 2, over the B row. */
  lemma InterruptedKeyOverlaps(a: Key, b: Key, c: Key)
    requires a != b && a != c && b != c
    ensures Distinct([a, b, a, c]) == [a, b, c]
    ensures Spans([a, b, a, c]) == [Span(0, 2), Span(1, 1), Span(3, 3)]
  {
    DistinctABAC(a, b, c);
    var keys := [a, b, a, c];
    assert SpanOf(keys, a) == Span(0, 2);
    assert SpanOf(keys, b) == Span(1, 1);
    assert SpanOf(keys, c) == Span(3, 3);
  }
}
