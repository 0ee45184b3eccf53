/** A worked example of the grouping: the content range `r8:ce13` with
    name cells `X, -, -, Y, -, -` and ref cells `1, -, 2, 2, -, -` (`-` an
    empty cell). */
module Scenarios {
  import opened Optional
  import opened ForwardFill
  import opened RangeAddress
  import opened Grouping
  import opened SplitRanges

  /** Filling gives names `X X X Y Y Y` and refs `1 1 2 2 2 2`. */
  lemma ScenarioKeys(refs: seq<Option<string>>, names: seq<Option<string>>)
    requires names == [Some("X"), None, None, Some("Y"), None, None]
    requires refs == [Some("1"), None, Some("2"), Some("2"), None, None]
    ensures LeadingPresent(refs, names)
    ensures RowKeys(refs, names) == [Key("X", "1"), Key("X", "1"), Key("X", "2"), Key("Y", "2"), Key("Y", "2"), Key("Y", "2")]
  {
    var keys := RowKeys(refs, names);
    var fn, fr := Fill(names), Fill(refs);
    assert fn[0] == Some("X") && fn[1] == Some("X") && fn[2] == Some("X");
    assert fn[3] == Some("Y") && fn[4] == Some("Y") && fn[5] == Some("Y");
    assert fr[0] == Some("1") && fr[1] == Some("1") && fr[2] == Some("2");
    assert fr[3] == Some("2") && fr[4] == Some("2") && fr[5] == Some("2");
  }

  /** Keys `a a b` have the distinct keys `a b` ... */
  lemma ScenarioDistinctPrefix(a: Key, b: Key)
    requires a != b
    ensures Distinct([a, a, b]) == [a, b]
  {
    var k0: seq<Key> := [];
    var k1 := k0 + [a];
    var k2 := k1 + [a];
    var k3 := k2 + [b];
    assert Distinct(k1) == [a] by { DistinctSnoc(k0, a, []); }
    assert Distinct(k2) == [a] by { DistinctSnoc(k1, a, [a]); }
    assert Distinct(k3) == [a, b] by { DistinctSnoc(k2, b, [a]); }
    assert k3 == [a, a, b];
  }

  /** ... and keys `a a b c c c` the distinct keys `a b c`. */
  lemma ScenarioDistinct(a: Key, b: Key, c: Key)
    requires a != b && a != c && b != c
    ensures Distinct([a, a, b, c, c, c]) == [a, b, c]
  {
    var k3 := [a, a, b];
    var k4 := k3 + [c];
    var k5 := k4 + [c];
    var k6 := k5 + [c];
    ScenarioDistinctPrefix(a, b);
    assert Distinct(k4) == [a, b, c] by { DistinctSnoc(k3, c, [a, b]); }
    assert Distinct(k5) == [a, b, c] by { DistinctSnoc(k4, c, [a, b, c]); }
    assert Distinct(k6) == [a, b, c] by { DistinctSnoc(k5, c, [a, b, c]); }
    assert k6 == [a, a, b, c, c, c];
  }

  /** Key `a` of `a a b c c c` covers rows 0-1 ... */
  lemma ScenarioSpanA(a: Key, b: Key, c: Key)
    requires a != b && a != c
    ensures SpanOf([a, a, b, c, c, c], a) == Span(0, 1)
  {
    SpanOfIs([a, a, b, c, c, c], a, 0, 1);
  }

  /** ... key `b` row 2 ... */
  lemma ScenarioSpanB(a: Key, b: Key, c: Key)
    requires a != b && b != c
    ensures SpanOf([a, a, b, c, c, c], b) == Span(2, 2)
  {
    SpanOfIs([a, a, b, c, c, c], b, 2, 2);
  }

  /** ... and key `c` rows 3-5. */
  lemma ScenarioSpanC(a: Key, b: Key, c: Key)
    requires a != c && b != c
    ensures SpanOf([a, a, b, c, c, c], c) == Span(3, 5)
  {
    SpanOfIs([a, a, b, c, c, c], c, 3, 5);
  }

  /** So the spans of `a a b c c c` are `0..1`, `2..2` and `3..5`. */
  lemma ScenarioSpans(a: Key, b: Key, c: Key)
    requires a != b && a != c && b != c
    ensures Spans([a, a, b, c, c, c]) == [Span(0, 1), Span(2, 2), Span(3, 5)]
  {
    ScenarioDistinct(a, b, c);
    ScenarioSpanA(a, b, c);
    ScenarioSpanB(a, b, c);
    ScenarioSpanC(a, b, c);
  }

  /** `r8:ce13` scans into the columns `r`, `ce` and the top row 8. */
  lemma ScenarioAddress()
    ensures Tokens("r8:ce13", Letters) == ["r", "ce"]
    ensures |Tokens("r8:ce13", Digits)| == 2 && DecimalValue(Tokens("r8:ce13", Digits)[0]) == 8
  {
    assert "r8:ce13" == FormatRange("r", "ce", 8, 13) by {
      ScenarioNumbers();
      FormatRangeIs("r", "ce", 8, 13, "8", "13");
    }
    FormatRangeParses("r", "ce", 8, 13);
  }

  /** A range whose two row numbers are known in decimal. */
  lemma FormatRangeIs(left: string, right: string, first: nat, last: nat, d1: string, d2: string)
    requires DecimalString(first) == d1 && DecimalString(last) == d2
    ensures FormatRange(left, right, first, last) == left + d1 + ":" + right + d2
  {
  }

  /** The row numbers of the example written in decimal. */
  lemma ScenarioNumbers()
    ensures DecimalString(8) == "8" && DecimalString(9) == "9"
    ensures DecimalString(10) == "10" && DecimalString(11) == "11" && DecimalString(13) == "13"
  {
    assert DigitChar(0) == '0' && DigitChar(1) == '1' && DigitChar(3) == '3';
  }

  /** Rows 8-9 as an address ... */
  lemma ScenarioRangeX1(left: string, right: string)
    requires left == "r" && right == "ce"
    ensures FormatRange(left, right, 8, 9) == "r8:ce9"
  {
    ScenarioNumbers();
    FormatRangeIs(left, right, 8, 9, "8", "9");
  }

  /** ... row 10 ... */
  lemma ScenarioRangeX2(left: string, right: string)
    requires left == "r" && right == "ce"
    ensures FormatRange(left, right, 10, 10) == "r10:ce10"
  {
    ScenarioNumbers();
    FormatRangeIs(left, right, 10, 10, "10", "10");
  }

  /** ... and rows 11-13. */
  lemma ScenarioRangeY2(left: string, right: string)
    requires left == "r" && right == "ce"
    ensures FormatRange(left, right, 11, 13) == "r11:ce13"
  {
    ScenarioNumbers();
    FormatRangeIs(left, right, 11, 13, "11", "13");
  }

  /** Three spans whose addresses are known. */
  lemma RangesOfThree(left: string, right: string, top: nat, spans: seq<Span>, a: string, b: string, c: string)
    requires |spans| == 3
    requires FormatRange(left, right, top + spans[0].start, top + spans[0].end) == a
    requires FormatRange(left, right, top + spans[1].start, top + spans[1].end) == b
    requires FormatRange(left, right, top + spans[2].start, top + spans[2].end) == c
    ensures RangesOf(left, right, top, spans) == [a, b, c]
  {
  }

  /** The three spans, shifted by row 8, as addresses. */
  lemma ScenarioRanges(left: string, right: string, spans: seq<Span>)
    requires left == "r" && right == "ce"
    requires spans == [Span(0, 1), Span(2, 2), Span(3, 5)]
    ensures RangesOf(left, right, 8, spans) == ["r8:ce9", "r10:ce10", "r11:ce13"]
  {
    ScenarioRangeX1(left, right);
    ScenarioRangeX2(left, right);
    ScenarioRangeY2(left, right);
    RangesOfThree(left, right, 8, spans, "r8:ce9", "r10:ce10", "r11:ce13");
  }

  /** A split whose keys, column labels and top row are known. */
  lemma SplitFromParts(address: string, refs: seq<Option<string>>, names: seq<Option<string>>,
                       keys: seq<Key>, left: string, right: string, top: nat)
    requires |refs| == |names| && |names| > 0
    requires LeadingPresent(refs, names) && RowKeys(refs, names) == keys
    requires Tokens(address, Letters) == [left, right]
    requires |Tokens(address, Digits)| == 2 && DecimalValue(Tokens(address, Digits)[0]) == top
    ensures Split(address, refs, names) == Success(Output(RangesOf(left, right, top, Spans(keys)), Labels(keys)))
  {
    assert Split(address, refs, names).Success?;
    SplitSuccess(address, refs, names);
  }

  /** The labels of the distinct keys `X/1`, `X/2`, `Y/2`. */
  lemma ScenarioLabels(keys: seq<Key>)
    requires keys == [Key("X", "1"), Key("X", "1"), Key("X", "2"), Key("Y", "2"), Key("Y", "2"), Key("Y", "2")]
    ensures Spans(keys) == [Span(0, 1), Span(2, 2), Span(3, 5)]
    ensures Labels(keys) == ["X_1", "X_2", "Y_2"]
  {
    var x1, x2, y2 := Key("X", "1"), Key("X", "2"), Key("Y", "2");
    ScenarioSpans(x1, x2, y2);
    ScenarioDistinct(x1, x2, y2);
    assert Label(x1) == "X_1" && Label(x2) == "X_2" && Label(y2) == "Y_2";
  }

  /** Three outputs in first-appearance order: `X_1` for rows 8-9, `X_2` for
      row 10 and `Y_2` for rows 11-13. */
  lemma Scenario()
    ensures Split("r8:ce13",
                  [Some("1"), None, Some("2"), Some("2"), None, None],
                  [Some("X"), None, None, Some("Y"), None, None])
         == Success(Output(["r8:ce9", "r10:ce10", "r11:ce13"], ["X_1", "X_2", "Y_2"]))
  {
    var names: seq<Option<string>> := [Some("X"), None, None, Some("Y"), None, None];
    var refs: seq<Option<string>> := [Some("1"), None, Some("2"), Some("2"), None, None];
    var keys := [Key("X", "1"), Key("X", "1"), Key("X", "2"), Key("Y", "2"), Key("Y", "2"), Key("Y", "2")];
    ScenarioKeys(refs, names);
    ScenarioAddress();
    SplitFromParts("r8:ce13", refs, names, keys, "r", "ce", 8);
    ScenarioLabels(keys);
    ScenarioRanges("r", "ce", [Span(0, 1), Span(2, 2), Span(3, 5)]);
  }
}
