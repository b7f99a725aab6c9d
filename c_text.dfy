/** Text handling that the workload-file parser is built on: C strings held in
    fixed char buffers, tab-separated fields, and the numeric conversions the
    parser applies to the field text (atoi and atof). */
module CText {

  const NUL: char := '\0'
  const TAB: char := '\t'

  /** Index of the first occurrence of c in s. */
  function IndexOf(s: seq<char>, c: char): (r: nat)
    requires c in s
    ensures r < |s| && s[r] == c
    ensures c !in s[..r]
  {
    if s[0] == c then 0
    else
      var r' := IndexOf(s[1..], c);
      assert s[..r' + 1] == [s[0]] + s[1..][..r'];
      r' + 1
  }

  /** The first occurrence is the only position with c and no c before it. */
  lemma IndexOfUnique(s: seq<char>, c: char, p: nat)
    requires p < |s| && s[p] == c && c !in s[..p]
    ensures c in s && IndexOf(s, c) == p
  {
    assert s[..p + 1][p] == c;
  }

  // ---------------------------------------------------------------------------
  // C strings

  /** The C string starting at index i of buffer b: the characters from i up to
      the first NUL at or after i (or up to the end of b if there is none). */
  function CStr(b: seq<char>, i: nat): (r: string)
    requires i <= |b|
    ensures |r| <= |b| - i
    decreases |b| - i
  {
    if i == |b| || b[i] == NUL then [] else [b[i]] + CStr(b, i + 1)
  }

  /** A C string is the stretch of the buffer it starts at, holds no NUL, and
      is ended by a NUL unless it runs to the end of the buffer, which it
      cannot do when a NUL follows i. */
  lemma {:induction false} CStrSpan(b: seq<char>, i: nat)
    requires i <= |b|
    ensures CStr(b, i) == b[i..i + |CStr(b, i)|]
    ensures NUL !in CStr(b, i)
    ensures i + |CStr(b, i)| < |b| ==> b[i + |CStr(b, i)|] == NUL
    ensures NUL in b[i..] ==> i + |CStr(b, i)| < |b|
    decreases |b| - i
  {
    if i < |b| && b[i] != NUL {
      CStrSpan(b, i + 1);
      assert b[i..] == [b[i]] + b[i + 1..];
    }
  }

  /** A C string read from i runs exactly up to the next NUL (or the end). */
  lemma {:induction false} CStrUpTo(b: seq<char>, i: nat, z: nat)
    requires i <= z <= |b|
    requires NUL !in b[i..z]
    requires z == |b| || b[z] == NUL
    ensures CStr(b, i) == b[i..z]
    decreases z - i
  {
    if i < z {
      assert b[i] == b[i..z][0];
      assert b[i + 1..z] == b[i..z][1..];
      CStrUpTo(b, i + 1, z);
    }
  }

  /** a is the buffer b with every tab before index m overwritten by NUL and
      nothing else changed: what the parser leaves behind after terminating
      the fields it has read in place. */
  predicate BlankedUpTo(a: seq<char>, b: seq<char>, m: int) {
    |a| == |b| &&
    forall j :: 0 <= j < |b| ==> a[j] == if j < m && b[j] == TAB then NUL else b[j]
  }

  /** Overwriting the next tab with NUL extends the blanked prefix past it. */
  lemma BlankedStep(a: seq<char>, b: seq<char>, m: nat, p: nat)
    requires BlankedUpTo(a, b, m)
    requires m <= p < |b| && TAB !in b[m..p] && b[p] == TAB
    ensures BlankedUpTo(a[p := NUL], b, p + 1)
  {
    forall j | m <= j < p
      ensures b[j] != TAB
    {
      assert b[m..p][j - m] == b[j];
    }
  }

  /** Where the original buffer holds no tab, or lies past the blanked prefix,
      the blanked buffer agrees with it. */
  lemma BlankedSame(a: seq<char>, b: seq<char>, m: int, i: nat, k: nat)
    requires BlankedUpTo(a, b, m)
    requires i <= k <= |b| && (m <= i || TAB !in b[i..k])
    ensures a[i..k] == b[i..k]
  {
    forall j | i <= j < k
      ensures a[j] == b[j]
    {
      assert b[i..k][j - i] == b[j];
    }
  }

  // ---------------------------------------------------------------------------
  // Tab-separated fields

  function TabCount(s: string): nat {
    if s == [] then 0 else (if s[0] == TAB then 1 else 0) + TabCount(s[1..])
  }

  lemma {:induction false} TabCountAppend(a: string, b: string)
    ensures TabCount(a + b) == TabCount(a) + TabCount(b)
    decreases |a|
  {
    if a != [] {
      assert (a + b)[1..] == a[1..] + b;
      TabCountAppend(a[1..], b);
    } else {
      assert a + b == b;
    }
  }

  /** A line has a tab exactly when its tab count is positive. */
  lemma {:induction false} TabCountPositive(s: string)
    ensures TAB in s <==> TabCount(s) > 0
    decreases |s|
  {
    if s != [] {
      TabCountPositive(s[1..]);
      assert s == [s[0]] + s[1..];
    }
  }

  /** The text before the first tab (all of s when it has none). */
  function Head(s: string): string {
    if s == [] || s[0] == TAB then [] else [s[0]] + Head(s[1..])
  }

  /** The text after the first tab. */
  function Tail(s: string): (r: string)
    requires TabCount(s) > 0
    ensures TabCount(r) == TabCount(s) - 1
  {
    if s[0] == TAB then s[1..] else Tail(s[1..])
  }

  /** A line with a tab is its head, that tab, and its tail. */
  lemma {:induction false} HeadTail(s: string)
    requires TabCount(s) > 0
    ensures s == Head(s) + [TAB] + Tail(s)
    decreases |s|
  {
    if s[0] != TAB {
      HeadTail(s[1..]);
    }
  }

  /** The head is the first tab-free stretch: a tab at p with none before it
      ends the head, and what follows it is the tail. */
  lemma {:induction false} HeadAt(s: string, p: nat)
    requires p < |s| && s[p] == TAB && TabCount(s[..p]) == 0
    ensures TabCount(s) > 0
    ensures Head(s) == s[..p] && Tail(s) == s[p + 1..]
    decreases p
  {
    if p > 0 {
      assert s[..p] == [s[0]] + s[1..][..p - 1];
      HeadAt(s[1..], p - 1);
    }
  }

  /** The line s followed by the text after each of its first n tabs. */
  function AfterTabs(s: string, n: nat): (rs: seq<string>)
    requires TabCount(s) >= n
    ensures |rs| == n + 1 && rs[0] == s
    ensures forall k :: 0 <= k <= n ==> TabCount(rs[k]) == TabCount(s) - k
    decreases n
  {
    if n == 0 then [s] else [s] + AfterTabs(Tail(s), n - 1)
  }

  /** Each text in AfterTabs is the tail of the one before it. */
  lemma {:induction false} AfterTabsStep(s: string, n: nat, k: nat)
    requires TabCount(s) >= n && k < n
    ensures TabCount(AfterTabs(s, n)[k]) == TabCount(s) - k
    ensures AfterTabs(s, n)[k + 1] == Tail(AfterTabs(s, n)[k])
    decreases k
  {
    if k > 0 {
      AfterTabsStep(Tail(s), n - 1, k - 1);
    }
  }

  /** The first n tab-separated fields of s followed by the text after its
      n-th tab. */
  function Fields(s: string, n: nat): (fs: seq<string>)
    requires TabCount(s) >= n
    ensures |fs| == n + 1
    decreases n
  {
    if n == 0 then [s] else [Head(s)] + Fields(Tail(s), n - 1)
  }

  /** Field k is the head of the text after the k-th tab; the last entry is
      the text after the n-th tab. */
  lemma {:induction false} FieldsAt(s: string, n: nat, k: nat)
    requires TabCount(s) >= n && k <= n
    ensures Fields(s, n)[k] == if k < n then Head(AfterTabs(s, n)[k]) else AfterTabs(s, n)[n]
    decreases k
  {
    if k > 0 {
      FieldsAt(Tail(s), n - 1, k - 1);
    }
  }

  /** The head holds no tab. */
  lemma {:induction false} HeadTabFree(s: string)
    ensures TAB !in Head(s)
    decreases |s|
  {
    if s != [] && s[0] != TAB {
      HeadTabFree(s[1..]);
    }
  }

  /** Within a line whose suffix from st has a tab, the head of that suffix
      runs from st up to the tab at e, with no tab before it. */
  lemma HeadSpan(line: string, st: nat, e: int)
    requires st <= |line| && TabCount(line[st..]) > 0
    requires e == st + |Head(line[st..])|
    ensures st <= e < |line| && line[e] == TAB
    ensures forall j :: st <= j < e ==> line[j] != TAB
    ensures line[st..e] == Head(line[st..])
    ensures line[e + 1..] == Tail(line[st..])
  {
    var r := line[st..];
    var h := Head(r);
    HeadTail(r);
    HeadTabFree(r);
    assert r[|h|] == TAB;
    assert r[..|h|] == h;
    assert r[|h| + 1..] == Tail(r);
    forall j | st <= j < e
      ensures line[j] != TAB
    {
      assert h[j - st] == line[j];
    }
  }

  /** A tab-free line is its own head. */
  lemma {:induction false} HeadNoTab(s: string)
    requires TabCount(s) == 0
    ensures Head(s) == s
    decreases |s|
  {
    if s != [] {
      HeadNoTab(s[1..]);
    }
  }

  /** The line that holds the given pieces, separated by single tabs. */
  function Join(fs: seq<string>): string
    requires |fs| >= 1
  {
    if |fs| == 1 then fs[0] else fs[0] + [TAB] + Join(fs[1..])
  }

  /** A chain of texts, each a piece, a tab and the next one, and ending in the
      last piece, starts with the join of the pieces. */
  lemma {:induction false} JoinChain(fs: seq<string>, rs: seq<string>)
    requires |rs| == |fs| >= 1 && rs[|fs| - 1] == fs[|fs| - 1]
    requires forall k :: 0 <= k < |fs| - 1 ==> rs[k] == fs[k] + [TAB] + rs[k + 1]
    ensures Join(fs) == rs[0]
    decreases |fs|
  {
    if |fs| > 1 {
      JoinChain(fs[1..], rs[1..]);
    }
  }

  /** Pieces joined with tabs, all but the last tab-free, are cut back into
      exactly those pieces. */
  lemma {:induction false} FieldsOfJoin(fs: seq<string>, n: nat)
    requires |fs| == n + 1
    requires forall k :: 0 <= k < n ==> TabCount(fs[k]) == 0
    ensures TabCount(Join(fs)) >= n
    ensures Fields(Join(fs), n) == fs
    decreases n
  {
    if n > 0 {
      var t := fs[1..];
      forall k | 0 <= k < n - 1
        ensures TabCount(t[k]) == 0
      {
        assert t[k] == fs[k + 1];
      }
      FieldsOfJoin(t, n - 1);
      Cut(fs[0], Join(t));
      assert Join(fs) == fs[0] + [TAB] + Join(t);
      assert Fields(Join(fs), n) == [fs[0]] + Fields(Join(t), n - 1);
      assert fs == [fs[0]] + t;
    }
  }

  /** Putting a tab-free piece and a tab in front of a line: the piece is the
      new head and the old line is the new tail. */
  lemma Cut(a: string, rest: string)
    requires TabCount(a) == 0
    ensures TabCount(a + [TAB] + rest) == TabCount(a) + 1 + TabCount(rest)
    ensures Head(a + [TAB] + rest) == a && Tail(a + [TAB] + rest) == rest
  {
    var s := a + [TAB] + rest;
    assert s[..|a|] == a && s[|a| + 1..] == rest;
    HeadAt(s, |a|);
    TabCountAppend(a + [TAB], rest);
    TabCountAppend(a, [TAB]);
  }

  // ---------------------------------------------------------------------------
  // Numeric conversions. Only their results on a given field text matter to
  // the parser; these follow the C library on plain decimal text, scanning it
  // left to right the way strtol and strtod do.

  predicate IsDigit(c: char) {
    '0' <= c <= '9'
  }

  predicate IsSpace(c: char) {
    c == ' ' || c == '\t' || c == '\n' || c == '\r' || c == 11 as char || c == 12 as char
  }

  function DigitValue(c: char): nat {
    if IsDigit(c) then c as int - '0' as int else 0
  }

  /** Where a conversion is in its scan: skipping leading white space, or
      reading the digits (after any sign) of the integer part or of the
      fraction. */
  datatype Phase = Leading | Whole | Fraction

  /** How far a conversion has got: its phase, whether a minus sign was
      read, the magnitude read so far and the weight of the next fraction
      digit (1 outside the fraction). */
  datatype Scan = Scan(phase: Phase, negative: bool, value: real, scale: real)

  /** The scan before the first character. */
  const Start := Scan(Leading, false, 0.0, 1.0)

  /** Whether character c continues a number in scan state st; atoi never
      accepts a point. */
  predicate Continues(st: Scan, c: char, point: bool) {
    (st.phase == Leading && (IsSpace(c) || c == '-' || c == '+')) ||
    (point && st.phase != Fraction && c == '.') ||
    IsDigit(c)
  }

  /** The scan state after reading character c. */
  function Advance(st: Scan, c: char): Scan {
    if st.phase == Leading && IsSpace(c) then Start
    else if st.phase == Leading && (c == '-' || c == '+') then Scan(Whole, c == '-', 0.0, 1.0)
    else if c == '.' then Scan(Fraction, st.negative, st.value, 0.1)
    else if st.phase == Fraction then st.(value := st.value + DigitValue(c) as real * st.scale, scale := st.scale / 10.0)
    else Scan(Whole, st.negative, st.value * 10.0 + DigitValue(c) as real, 1.0)
  }

  /** The value of a scan from state st over s: characters are read while
      they continue the number; the signed magnitude is the result. */
  function ScanFrom(s: string, st: Scan, point: bool): real {
    if s != [] && Continues(st, s[0], point) then ScanFrom(s[1..], Advance(st, s[0]), point)
    else if st.negative then -st.value else st.value
  }

  /** atoi: optional leading white space, optional sign, decimal digits; the
      scan accepts no point, so its magnitude is a whole number. */
  function Atoi(s: string): int {
    ScanFrom(s, Start, false).Floor
  }

  /** atof on plain decimal text: optional white space and sign, digits, and
      optionally a point and more digits. */
  function Atof(s: string): real {
    ScanFrom(s, Start, true)
  }

  // ---------------------------------------------------------------------------
  // What the conversions compute on decimal text

  predicate AllDigits(s: string) {
    forall i :: 0 <= i < |s| ==> IsDigit(s[i])
  }

  function Pow10(n: nat): (r: nat)
    ensures r >= 1
  {
    if n == 0 then 1 else 10 * Pow10(n - 1)
  }

  /** The value of a string of decimal digits, most significant first. */
  function Decimal(ds: string): nat
    requires AllDigits(ds)
  {
    if ds == [] then 0 else Decimal(ds[..|ds| - 1]) * 10 + DigitValue(ds[|ds| - 1])
  }

  /** The weight of the n-th fraction digit: a tenth, a hundredth, ... */
  function Tenth(n: nat): (r: real)
    ensures r > 0.0
  {
    if n == 0 then 1.0 else Tenth(n - 1) / 10.0
  }

  /** The value of fraction digits: each digit at the weight of its place. */
  function FractionValue(fs: string): real {
    if fs == [] then 0.0
    else FractionValue(fs[..|fs| - 1]) + DigitValue(fs[|fs| - 1]) as real * Tenth(|fs|)
  }

  /** Scaling a shifted number by a tenth of a weight. */
  lemma TenthShift(a: real, b: real, t: real)
    ensures (a * 10.0 + b) * (t / 10.0) == a * t + b * (t / 10.0)
  {
  }

  /** A weight whose product with p is one is a division by p. */
  lemma UnitFraction(x: real, t: real, p: real)
    requires t * p == 1.0
    ensures x * t == x / p
  {
  }

  /** The fraction digits fs are worth their decimal value in units of the
      last place: "25" after the point is 25 hundredths. */
  lemma {:induction false} FractionDecimal(fs: string)
    requires AllDigits(fs)
    ensures FractionValue(fs) == Decimal(fs) as real * Tenth(|fs|)
    decreases |fs|
  {
    if fs != [] {
      var init, d := fs[..|fs| - 1], fs[|fs| - 1];
      assert AllDigits(init) by {
        forall i | 0 <= i < |init|
          ensures IsDigit(init[i])
        {
          assert init[i] == fs[i];
        }
      }
      FractionDecimal(init);
      TenthShift(Decimal(init) as real, DigitValue(d) as real, Tenth(|init|));
    }
  }

  /** The weight of the n-th place times ten to the n is one. */
  lemma {:induction false} TenthPow10(n: nat)
    ensures Tenth(n) * Pow10(n) as real == 1.0
  {
    if n > 0 {
      TenthPow10(n - 1);
      assert Tenth(n) * Pow10(n) as real == (Tenth(n - 1) / 10.0) * (10.0 * Pow10(n - 1) as real);
    }
  }

  /** Fraction digits fs are worth their decimal value over ten to the
      number of digits. */
  lemma FractionOverPow10(fs: string)
    requires AllDigits(fs)
    ensures FractionValue(fs) == Decimal(fs) as real / Pow10(|fs|) as real
  {
    FractionDecimal(fs);
    TenthPow10(|fs|);
    UnitFraction(Decimal(fs) as real, Tenth(|fs|), Pow10(|fs|) as real);
  }

  /** Splitting a string before its last character. */
  lemma SnocSplit(ds: string, rest: string)
    requires ds != []
    ensures ds + rest == ds[..|ds| - 1] + ([ds[|ds| - 1]] + rest)
    ensures ([ds[|ds| - 1]] + rest)[0] == ds[|ds| - 1] && ([ds[|ds| - 1]] + rest)[1..] == rest
  {
  }

  /** Reading integer digits ds from a fresh integer part leaves the scan
      holding their decimal value, ready for what follows. */
  lemma {:induction false} ScanDigits(ds: string, rest: string, negative: bool, point: bool)
    requires AllDigits(ds)
    ensures ScanFrom(ds + rest, Scan(Whole, negative, 0.0, 1.0), point) ==
      ScanFrom(rest, Scan(Whole, negative, Decimal(ds) as real, 1.0), point)
    decreases |ds|
  {
    if ds == [] {
      assert ds + rest == rest;
    } else {
      var init, d := ds[..|ds| - 1], ds[|ds| - 1];
      assert AllDigits(init) by {
        forall i | 0 <= i < |init|
          ensures IsDigit(init[i])
        {
          assert init[i] == ds[i];
        }
      }
      SnocSplit(ds, rest);
      ScanDigits(init, [d] + rest, negative, point);
      assert Decimal(ds) == Decimal(init) * 10 + DigitValue(d);
    }
  }

  /** Reading the last fraction digit of fs at the weight of its place. */
  lemma FractionStep(fs: string, rest: string, negative: bool, v: real)
    requires fs != [] && AllDigits(fs)
    ensures ScanFrom([fs[|fs| - 1]] + rest, Scan(Fraction, negative, v + FractionValue(fs[..|fs| - 1]), Tenth(|fs|)), true) ==
      ScanFrom(rest, Scan(Fraction, negative, v + FractionValue(fs), Tenth(|fs| + 1)), true)
  {
    var init, d := fs[..|fs| - 1], fs[|fs| - 1];
    var s := [d] + rest;
    assert s[0] == d && s[1..] == rest;
    var st := Scan(Fraction, negative, v + FractionValue(init), Tenth(|fs|));
    assert FractionValue(fs) == FractionValue(init) + DigitValue(d) as real * Tenth(|fs|);
    assert Continues(st, d, true);
    assert Advance(st, d) == Scan(Fraction, negative, v + FractionValue(fs), Tenth(|fs| + 1));
  }

  /** Reading fraction digits fs after the point adds their fraction value
      to the magnitude, and leaves the weight at the next place. */
  lemma {:induction false} ScanFraction(fs: string, rest: string, negative: bool, v: real)
    requires AllDigits(fs)
    ensures ScanFrom(fs + rest, Scan(Fraction, negative, v, Tenth(1)), true) ==
      ScanFrom(rest, Scan(Fraction, negative, v + FractionValue(fs), Tenth(|fs| + 1)), true)
    decreases |fs|
  {
    if fs == [] {
      assert fs + rest == rest;
    } else {
      var init, d := fs[..|fs| - 1], fs[|fs| - 1];
      assert AllDigits(init) by {
        forall i | 0 <= i < |init|
          ensures IsDigit(init[i])
        {
          assert init[i] == fs[i];
        }
      }
      SnocSplit(fs, rest);
      ScanFraction(init, [d] + rest, negative, v);
      FractionStep(fs, rest, negative, v);
    }
  }

  /** A number that starts with a digit reads as one whose integer part has
      already begun with nothing in it. */
  lemma LeadingDigit(s: string, point: bool)
    requires s != [] && IsDigit(s[0])
    ensures ScanFrom(s, Start, point) == ScanFrom(s, Scan(Whole, false, 0.0, 1.0), point)
  {
  }

  /** An optional sign in front of digits t: the integer part begins empty,
      negative exactly after a minus sign. */
  lemma SignedStart(sign: string, t: string, point: bool)
    requires sign == [] || sign == ['-'] || sign == ['+']
    requires t != [] && IsDigit(t[0])
    ensures ScanFrom(sign + t, Start, point) == ScanFrom(t, Scan(Whole, sign == ['-'], 0.0, 1.0), point)
  {
    var s := sign + t;
    if sign == [] {
      assert s == t;
      LeadingDigit(t, point);
    } else {
      assert s[0] == sign[0] && s[1..] == t;
    }
  }

  /** atoi of a run of decimal digits, optionally signed, followed by text
      that does not start with a digit, is the run's decimal value with the
      sign; whatever follows is ignored. */
  lemma AtoiDecimal(sign: string, ds: string, rest: string)
    requires sign == [] || sign == ['-'] || sign == ['+']
    requires ds != [] && AllDigits(ds) && (rest == [] || !IsDigit(rest[0]))
    ensures Atoi(sign + ds + rest) == if sign == ['-'] then -(Decimal(ds) as int) else Decimal(ds)
  {
    assert sign + ds + rest == sign + (ds + rest);
    SignedStart(sign, ds + rest, false);
    ScanDigits(ds, rest, sign == ['-'], false);
  }

  /** atof of optionally signed decimal digits with no point, followed by
      text that starts with neither a digit nor a point, is the digits'
      decimal value with the sign: "1" reads as 1 and "-3" as -3. */
  lemma AtofWhole(sign: string, ds: string, rest: string)
    requires sign == [] || sign == ['-'] || sign == ['+']
    requires ds != [] && AllDigits(ds) && (rest == [] || (!IsDigit(rest[0]) && rest[0] != '.'))
    ensures Atof(sign + ds + rest) == if sign == ['-'] then -(Decimal(ds) as real) else Decimal(ds) as real
  {
    assert sign + ds + rest == sign + (ds + rest);
    SignedStart(sign, ds + rest, true);
    ScanDigits(ds, rest, sign == ['-'], true);
  }

  /** atof of optionally signed decimal digits, a point and fraction digits,
      followed by text that does not start with a digit, is the whole part
      plus each fraction digit at the weight of its place, with the sign:
      "-0.5" reads as -(0 + 5 tenths). */
  lemma AtofDecimal(sign: string, ds: string, fs: string, rest: string)
    requires sign == [] || sign == ['-'] || sign == ['+']
    requires ds != [] && AllDigits(ds) && AllDigits(fs) && (rest == [] || !IsDigit(rest[0]))
    ensures Atof(sign + ds + ['.'] + fs + rest) ==
      if sign == ['-'] then -(Decimal(ds) as real + FractionValue(fs)) else Decimal(ds) as real + FractionValue(fs)
  {
    var negative := sign == ['-'];
    var after := ['.'] + fs + rest;
    assert sign + ds + ['.'] + fs + rest == sign + (ds + after);
    assert after[0] == '.' && after[1..] == fs + rest;
    var whole := Decimal(ds) as real;
    calc {
      Atof(sign + (ds + after));
      { SignedStart(sign, ds + after, true); }
      ScanFrom(ds + after, Scan(Whole, negative, 0.0, 1.0), true);
      { ScanDigits(ds, after, negative, true); }
      ScanFrom(after, Scan(Whole, negative, whole, 1.0), true);
      ScanFrom(fs + rest, Scan(Fraction, negative, whole, Tenth(1)), true);
      { ScanFraction(fs, rest, negative, whole); }
      ScanFrom(rest, Scan(Fraction, negative, whole + FractionValue(fs), Tenth(|fs| + 1)), true);
    }
  }
}
