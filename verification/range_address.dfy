/** Spreadsheet range addresses such as `r8:ce664`: splitting them into digit
    runs (rows) and letter runs (columns) the way `re.findall` does, reading
    and writing row numbers as decimal text, and building the address of a
    row span. */
module RangeAddress {
  import opened Optional

  /** The two character classes the address is scanned for: `[\d]` and
      `[a-zA-Z]`. */
  datatype CharClass = Digits | Letters

  predicate IsDigit(c: char) {
    '0' <= c <= '9'
  }

  predicate IsLetter(c: char) {
    'a' <= c <= 'z' || 'A' <= c <= 'Z'
  }

  predicate InClass(c: char, k: CharClass) {
    match k
    case Digits => IsDigit(c)
    case Letters => IsLetter(c)
  }

  predicate AllIn(s: string, k: CharClass) {
    forall i :: 0 <= i < |s| ==> InClass(s[i], k)
  }

  /** A non-empty run of class-`k` characters: the shape of every token. */
  predicate IsToken(s: string, k: CharClass) {
    |s| > 0 && AllIn(s, k)
  }

  /** Length of the longest prefix of `s` made of class-`k` characters. */
  function RunLength(s: string, k: CharClass): (n: nat)
    ensures n <= |s|
    ensures AllIn(s[..n], k)
    ensures n < |s| ==> !InClass(s[n], k)
  {
    if s == [] || !InClass(s[0], k) then 0
    else
      var m := RunLength(s[1..], k);
      assert s[..1 + m] == [s[0]] + s[1..][..m];
      1 + m
  }

  /** The maximal runs of class-`k` characters of `s`, left to right: what
      `re.findall('[\d]+', s)` or `re.findall('[a-zA-Z]+', s)` returns. */
  function Tokens(s: string, k: CharClass): (ts: seq<string>)
    ensures forall i :: 0 <= i < |ts| ==> IsToken(ts[i], k)
    decreases |s|
  {
    if s == [] then []
    else if !InClass(s[0], k) then Tokens(s[1..], k)
    else
      var n := RunLength(s, k);
      [s[..n]] + Tokens(s[n..], k)
  }

  /** The class-`k` characters of `s`, in order. */
  function Filter(s: string, k: CharClass): string {
    if s == [] then []
    else (if InClass(s[0], k) then [s[0]] else []) + Filter(s[1..], k)
  }

  function Concat(ts: seq<string>): string {
    if ts == [] then [] else ts[0] + Concat(ts[1..])
  }

  lemma {:induction false} FilterAppend(a: string, b: string, k: CharClass)
    ensures Filter(a + b, k) == Filter(a, k) + Filter(b, k)
  {
    if a == [] {
      assert a + b == b;
    } else {
      var head: string := if InClass(a[0], k) then [a[0]] else [];
      assert (a + b)[0] == a[0];
      assert (a + b)[1..] == a[1..] + b;
      FilterAppend(a[1..], b, k);
      calc {
        Filter(a + b, k);
        head + Filter(a[1..] + b, k);
        head + (Filter(a[1..], k) + Filter(b, k));
        (head + Filter(a[1..], k)) + Filter(b, k);
      }
    }
  }

  lemma {:induction false} FilterAll(a: string, k: CharClass)
    requires AllIn(a, k)
    ensures Filter(a, k) == a
  {
    if a != [] {
      FilterAll(a[1..], k);
    }
  }

  /** Tokens lose no class-`k` character and invent none: joined together they
      are exactly the class-`k` characters of the address. */
  lemma {:induction false} TokensCoverClass(s: string, k: CharClass)
    ensures Concat(Tokens(s, k)) == Filter(s, k)
    decreases |s|
  {
    if s == [] {
    } else if !InClass(s[0], k) {
      TokensCoverClass(s[1..], k);
    } else {
      var n := RunLength(s, k);
      TokensCoverClass(s[n..], k);
      assert s == s[..n] + s[n..];
      FilterAppend(s[..n], s[n..], k);
      FilterAll(s[..n], k);
      assert Tokens(s, k)[1..] == Tokens(s[n..], k);
    }
  }

  /** Text with no class-`k` character has no token. */
  lemma {:induction false} TokensNone(s: string, k: CharClass)
    requires forall i :: 0 <= i < |s| ==> !InClass(s[i], k)
    ensures Tokens(s, k) == []
  {
    if s != [] {
      TokensNone(s[1..], k);
    }
  }

  /** A run of class-`k` characters is a single token. */
  lemma TokensOfToken(s: string, k: CharClass)
    requires IsToken(s, k)
    ensures Tokens(s, k) == [s]
  {
    var n := RunLength(s, k);
    assert InClass(s[0], k);
    assert n == |s|;
    assert s[..n] == s && s[n..] == [];
    assert Tokens(s, k) == [s[..n]] + Tokens(s[n..], k);
  }

  lemma {:induction false} RunLengthAppend(a: string, b: string, k: CharClass)
    requires a != [] && b != []
    requires !InClass(a[|a| - 1], k) || !InClass(b[0], k)
    ensures RunLength(a + b, k) == RunLength(a, k)
  {
    assert (a + b)[0] == a[0];
    if InClass(a[0], k) {
      assert (a + b)[1..] == a[1..] + b;
      if |a| == 1 {
        assert a[1..] == [];
        assert a[1..] + b == b;
      } else {
        RunLengthAppend(a[1..], b, k);
      }
    }
  }

  /** One step of `Tokens` over `a + b` when `a` starts outside the class. */
  lemma TokensAppendSkip(a: string, b: string, k: CharClass)
    requires a != [] && !InClass(a[0], k)
    ensures Tokens(a + b, k) == Tokens(a[1..] + b, k)
    ensures Tokens(a, k) == Tokens(a[1..], k)
  {
    var s := a + b;
    assert s[0] == a[0] && s[1..] == a[1..] + b;
  }

  lemma SliceAppend(a: string, b: string, m: nat)
    requires m <= |a|
    ensures (a + b)[..m] == a[..m] && (a + b)[m..] == a[m..] + b
  {
  }

  /** One step of `Tokens` when `s` starts with a run of the class. */
  lemma TokensRun(s: string, k: CharClass)
    requires s != [] && InClass(s[0], k)
    ensures Tokens(s, k) == [s[..RunLength(s, k)]] + Tokens(s[RunLength(s, k)..], k)
  {
  }

  /** One step of `Tokens` over `a + b` when `a` starts with a run that
      ends inside `a`. */
  lemma TokensAppendRun(a: string, b: string, k: CharClass)
    requires a != [] && b != [] && InClass(a[0], k)
    requires !InClass(a[|a| - 1], k) || !InClass(b[0], k)
    ensures RunLength(a, k) <= |a|
    ensures Tokens(a + b, k) == [a[..RunLength(a, k)]] + Tokens(a[RunLength(a, k)..] + b, k)
  {
    var s := a + b;
    var m := RunLength(a, k);
    assert s[0] == a[0];
    assert RunLength(s, k) == m by { RunLengthAppend(a, b, k); }
    SliceAppend(a, b, m);
    TokensRun(s, k);
  }

  /** Splitting text where a class-`k` run cannot continue splits its tokens. */
  lemma {:induction false} TokensAppend(a: string, b: string, k: CharClass)
    requires a == [] || b == [] || !InClass(a[|a| - 1], k) || !InClass(b[0], k)
    ensures Tokens(a + b, k) == Tokens(a, k) + Tokens(b, k)
    decreases |a|
  {
    if a == [] {
      assert a + b == b;
    } else if b == [] {
      assert a + b == a;
    } else if !InClass(a[0], k) {
      TokensAppendSkip(a, b, k);
      TokensAppend(a[1..], b, k);
    } else {
      var m := RunLength(a, k);
      var rest := a[m..];
      TokensAppendRun(a, b, k);
      TokensRun(a, k);
      assert rest != [] ==> rest[|rest| - 1] == a[|a| - 1];
      TokensAppend(rest, b, k);
    }
  }

  /** A letter run followed by a digit run: no token spans the seam. */
  lemma LettersThenDigits(l: string, d: string, k: CharClass)
    requires IsToken(l, Letters) && IsToken(d, Digits)
    ensures Tokens(l + d, k) == Tokens(l, k) + Tokens(d, k)
  {
    assert IsLetter(l[|l| - 1]) && IsDigit(d[0]);
    TokensAppend(l, d, k);
  }

  /** The digit and letter tokens of `left + digits + ":" + right + digits`. */
  lemma FormatTokens(left: string, d1: string, right: string, d2: string, k: CharClass)
    requires IsToken(left, Letters) && IsToken(right, Letters)
    requires IsToken(d1, Digits) && IsToken(d2, Digits)
    ensures Tokens(left + d1 + ":" + right + d2, k)
         == Tokens(left, k) + Tokens(d1, k) + Tokens(right, k) + Tokens(d2, k)
  {
    var first, second := left + d1, right + d2;
    var colon := ":";
    var tail := colon + second;
    assert left + d1 + ":" + right + d2 == first + tail;
    assert tail[0] == ':';
    assert Tokens(first, k) == Tokens(left, k) + Tokens(d1, k) by {
      LettersThenDigits(left, d1, k);
    }
    assert Tokens(tail, k) == Tokens(right, k) + Tokens(d2, k) by {
      LettersThenDigits(right, d2, k);
      TokensNone(colon, k);
      TokensAppend(colon, second, k);
    }
    assert Tokens(first + tail, k) == Tokens(first, k) + Tokens(tail, k) by {
      TokensAppend(first, tail, k);
    }
  }

  /** The two tokens of a class in an address, when there are exactly two;
      with any other number the Python code leaves its variables unbound. */
  datatype Bounds = Bounds(first: string, second: string)

  function TwoTokens(s: string, k: CharClass): (b: Option<Bounds>)
    ensures b.Some? <==> |Tokens(s, k)| == 2
    ensures b.Some? ==> Tokens(s, k) == [b.value.first, b.value.second]
  {
    var ts := Tokens(s, k);
    if |ts| == 2 then Some(Bounds(ts[0], ts[1])) else None
  }

  function DigitValue(c: char): nat
    requires IsDigit(c)
  {
    (c as int - '0' as int) as nat
  }

  function DigitChar(d: nat): (c: char)
    requires d < 10
    ensures IsDigit(c) && DigitValue(c) == d
  {
    ('0' as int + d) as char
  }

  /** `int(s)` of a string of decimal digits. */
  function DecimalValue(s: string): (v: nat)
    requires AllIn(s, Digits)
    ensures v == 0 <==> forall i :: 0 <= i < |s| ==> s[i] == '0'
    decreases |s|
  {
    if s == [] then 0
    else
      var init := s[..|s| - 1];
      assert forall i :: 0 <= i < |init| ==> init[i] == s[i];
      DecimalValue(init) * 10 + DigitValue(s[|s| - 1])
  }

  /** `str(n)` of a natural number: decimal digits with no leading zero. */
  function DecimalString(n: nat): (s: string)
    ensures IsToken(s, Digits)
    ensures s[0] == '0' ==> s == "0"
  {
    if n < 10 then [DigitChar(n)]
    else DecimalString(n / 10) + [DigitChar(n % 10)]
  }

  /** Reading back a written row number gives the number. */
  lemma {:induction false} DecimalRoundTrip(n: nat)
    ensures DecimalValue(DecimalString(n)) == n
  {
    var s := DecimalString(n);
    if n >= 10 {
      DecimalRoundTrip(n / 10);
      assert s[..|s| - 1] == DecimalString(n / 10);
    }
  }

  /** Padding a row number with a leading zero does not change what `int()`
      reads from it. */
  lemma {:induction false} DecimalLeadingZero(s: string)
    requires AllIn(s, Digits)
    ensures AllIn("0" + s, Digits) && DecimalValue("0" + s) == DecimalValue(s)
    decreases |s|
  {
    var p := "0" + s;
    assert forall i :: 0 < i < |p| ==> p[i] == s[i - 1];
    if s != [] {
      var init := s[..|s| - 1];
      assert AllIn(init, Digits);
      DecimalLeadingZero(init);
      assert p[..|p| - 1] == "0" + init;
    }
  }

  /** The address of the rows `first..last` of the columns `left..right`:
      `left + str(first) + ":" + right + str(last)`. */
  function FormatRange(left: string, right: string, first: nat, last: nat): (r: string)
    ensures IsToken(left, Letters) && IsToken(right, Letters) ==>
      Tokens(r, Letters) == [left, right] && Tokens(r, Digits) == [DecimalString(first), DecimalString(last)]
  {
    var d1, d2 := DecimalString(first), DecimalString(last);
    var r := left + d1 + ":" + right + d2;
    if IsToken(left, Letters) && IsToken(right, Letters) then
      FormatRangeTokens(left, d1, right, d2);
      r
    else
      r
  }

  /** The tokens of a range built from two column labels and two row
      numbers. */
  lemma FormatRangeTokens(left: string, d1: string, right: string, d2: string)
    requires IsToken(left, Letters) && IsToken(right, Letters)
    requires IsToken(d1, Digits) && IsToken(d2, Digits)
    ensures Tokens(left + d1 + ":" + right + d2, Letters) == [left, right]
    ensures Tokens(left + d1 + ":" + right + d2, Digits) == [d1, d2]
  {
    FormatTokens(left, d1, right, d2, Letters);
    FormatTokens(left, d1, right, d2, Digits);
    TokensOfToken(left, Letters);
    TokensOfToken(right, Letters);
    TokensOfToken(d1, Digits);
    TokensOfToken(d2, Digits);
    TokensNone(left, Digits);
    TokensNone(right, Digits);
    TokensNone(d1, Letters);
    TokensNone(d2, Letters);
  }

  /** A formatted range scans back into its own two row numbers and its own
      two column labels. */
  lemma FormatRangeParses(left: string, right: string, first: nat, last: nat)
    requires IsToken(left, Letters) && IsToken(right, Letters)
    ensures Tokens(FormatRange(left, right, first, last), Letters) == [left, right]
    ensures Tokens(FormatRange(left, right, first, last), Digits)
         == [DecimalString(first), DecimalString(last)]
    ensures DecimalValue(TwoTokens(FormatRange(left, right, first, last), Digits).value.first) == first
    ensures DecimalValue(TwoTokens(FormatRange(left, right, first, last), Digits).value.second) == last
  {
    DecimalRoundTrip(first);
    DecimalRoundTrip(last);
  }
}
