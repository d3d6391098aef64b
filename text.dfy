/**
 * The JavaScript string built-ins the core relies on, restated on `seq<char>`:
 * `toString` and `parseInt` on non-negative integers, `padStart(2, '0')`,
 * `split` on one character, `toLowerCase`, `trim`, `includes`, and the order
 * that `Array.prototype.sort()` uses for strings.
 */
module Text {
  import opened Wrappers

  predicate IsDigit(c: char) {
    '0' <= c <= '9'
  }

  predicate AllDigits(s: string) {
    forall i | 0 <= i < |s| :: IsDigit(s[i])
  }

  /** `/^\d+$/.test(s)` */
  predicate IsDigits(s: string) {
    |s| > 0 && AllDigits(s)
  }

  function DigitChar(d: nat): (c: char)
    requires d < 10
    ensures IsDigit(c)
  {
    ('0' as int + d) as char
  }

  function DigitValue(c: char): nat
    requires IsDigit(c)
  {
    c as int - '0' as int
  }

  /** The number a string of decimal digits denotes, most significant digit first. */
  function DigitsValue(s: string): nat
    requires AllDigits(s)
    decreases |s|
  {
    if |s| == 0 then 0 else 10 * DigitsValue(s[..|s| - 1]) + DigitValue(s[|s| - 1])
  }

  /** `n.toString()` for a non-negative integer: its decimal digits. */
  function Decimal(n: nat): (r: string)
    ensures IsDigits(r)
    ensures DigitsValue(r) == n
    decreases n
  {
    if n < 10 then [DigitChar(n)]
    else
      var r := Decimal(n / 10) + [DigitChar(n % 10)];
      assert r[..|r| - 1] == Decimal(n / 10);
      r
  }

  lemma {:induction false} LeadingNonZeroPositive(s: string)
    requires IsDigits(s) && s[0] != '0'
    ensures DigitsValue(s) > 0
    decreases |s|
  {
    if |s| > 1 {
      LeadingNonZeroPositive(s[..|s| - 1]);
    }
  }

  /** A digit string without a leading zero is what `toString` prints for its value. */
  lemma {:induction false} DecimalOfDigits(s: string)
    requires IsDigits(s) && (s[0] != '0' || |s| == 1)
    ensures Decimal(DigitsValue(s)) == s
    decreases |s|
  {
    if |s| > 1 {
      var t := s[..|s| - 1];
      LeadingNonZeroPositive(t);
      DecimalOfDigits(t);
      var w, d := DigitsValue(t), DigitValue(s[|s| - 1]);
      LastDigit(w, d);
      assert DigitChar(d) == s[|s| - 1];
      assert Decimal(10 * w + d) == Decimal(w) + [DigitChar(d)];
      assert s == t + [s[|s| - 1]];
    } else {
      assert s == [s[0]];
    }
  }

  /** Appending the digit `d` to the decimal number `w` gives `10 * w + d`, and dividing by ten takes it off again. */
  lemma LastDigit(w: nat, d: nat)
    requires d < 10
    ensures (10 * w + d) / 10 == w && (10 * w + d) % 10 == d
  {
  }

  /** The longest prefix of `s` made of decimal digits. */
  function LeadingDigits(s: string): (r: string)
    ensures AllDigits(r) && r <= s
    ensures r == s || !IsDigit(s[|r|])
  {
    if |s| == 0 || !IsDigit(s[0]) then "" else [s[0]] + LeadingDigits(s[1..])
  }

  /**
   * `parseInt(s, 10)` read as the value of the leading decimal digits;
   * None stands for NaN (no leading digit).
   */
  function ParseInt(s: string): (r: Option<nat>)
    ensures r.None? <==> (|s| == 0 || !IsDigit(s[0]))
    ensures IsDigits(s) ==> r == Some(DigitsValue(s))
  {
    var d := LeadingDigits(s);
    assert IsDigits(s) ==> d == s;
    if d == "" then None else Some(DigitsValue(d))
  }

  /** `n.toString().padStart(2, '0')` */
  function PadTwo(n: nat): (r: string)
    ensures n < 100 ==> |r| == 2 && AllDigits(r) && DigitsValue(r) == n
  {
    var d := Decimal(n);
    assert 10 <= n < 100 ==> |d| == 2 by {
      if 10 <= n < 100 {
        assert d == Decimal(n / 10) + [DigitChar(n % 10)];
      }
    }
    assert n < 10 ==> ("0" + d)[..1] == "0";
    if |d| < 2 then "0" + d else d
  }

  /** `s.split(sep)` for a one-character separator: the pieces between separators, in order. */
  function Split(s: string, sep: char): (parts: seq<string>)
    ensures |parts| >= 1
    ensures forall i | 0 <= i < |parts| :: sep !in parts[i]
  {
    if |s| == 0 then [""]
    else
      var rest := Split(s[1..], sep);
      if s[0] == sep then [""] + rest else [[s[0]] + rest[0]] + rest[1..]
  }

  /** A string without the separator is not split at all. */
  lemma {:induction false} SplitNone(s: string, sep: char)
    requires sep !in s
    ensures Split(s, sep) == [s]
  {
    if |s| > 0 {
      SplitNone(s[1..], sep);
      assert [s[0]] + s[1..] == s;
    }
  }

  /** Splitting `a + sep + b` where `a` holds no separator yields `a` then the pieces of `b`. */
  lemma {:induction false} SplitAt(a: string, b: string, sep: char)
    requires sep !in a
    ensures Split(a + [sep] + b, sep) == [a] + Split(b, sep)
  {
    var s := a + [sep] + b;
    if |a| == 0 {
      assert s == [sep] + b;
      assert s[1..] == b;
    } else {
      assert s[1..] == a[1..] + [sep] + b;
      SplitAt(a[1..], b, sep);
      assert [a[0]] + a[1..] == a;
    }
  }

  /** `parts.reverse()` */
  function Reverse<T>(s: seq<T>): (r: seq<T>)
    ensures |r| == |s|
    ensures forall i | 0 <= i < |s| :: r[i] == s[|s| - 1 - i]
  {
    seq(|s|, i requires 0 <= i < |s| => s[|s| - 1 - i])
  }

  function LowerChar(c: char): char {
    if 'A' <= c <= 'Z' then (c as int + 32) as char else c
  }

  /** `s.toLowerCase()`, restricted to the ASCII letters. */
  function Lower(s: string): (r: string)
    ensures |r| == |s|
    ensures forall i | 0 <= i < |s| :: r[i] == LowerChar(s[i])
  {
    seq(|s|, i requires 0 <= i < |s| => LowerChar(s[i]))
  }

  lemma LowerAppend(a: string, b: string)
    ensures Lower(a + b) == Lower(a) + Lower(b)
  {
    assert forall i | 0 <= i < |a + b| :: Lower(a + b)[i] == (Lower(a) + Lower(b))[i];
  }

  lemma LowerIdempotent(s: string)
    ensures Lower(Lower(s)) == Lower(s)
  {
  }

  /** `s.includes(sub)` */
  predicate Contains(s: string, sub: string) {
    exists i | 0 <= i <= |s| :: sub <= s[i..]
  }

  /** The middle part of a concatenation occurs in it. */
  lemma ContainsPart(a: string, b: string, c: string)
    ensures Contains(a + b + c, b)
  {
    var s := a + b + c;
    assert s[|a|..] == b + c;
  }

  /** A substring of one part is a substring of any concatenation that holds that part. */
  lemma ContainsInConcat(a: string, b: string, c: string, sub: string)
    requires Contains(b, sub)
    ensures Contains(a + b + c, sub)
  {
    var i :| 0 <= i <= |b| && sub <= b[i..];
    var s := a + b + c;
    assert s[|a| + i..] == b[i..] + c;
  }

  /** The code points `String.prototype.trim` removes: WhiteSpace and LineTerminator of ECMAScript. */
  const SpaceCodes: seq<int> := [
    0x09, 0x0A, 0x0B, 0x0C, 0x0D, 0x20, 0xA0, 0x1680,
    0x2000, 0x2001, 0x2002, 0x2003, 0x2004, 0x2005, 0x2006, 0x2007, 0x2008, 0x2009, 0x200A,
    0x2028, 0x2029, 0x202F, 0x205F, 0x3000, 0xFEFF
  ]

  /** `n` is one of `codes[i..]`. */
  predicate InCodesFrom(n: int, codes: seq<int>, i: nat)
    decreases |codes| - i
  {
    i < |codes| && (codes[i] == n || InCodesFrom(n, codes, i + 1))
  }

  lemma {:induction false} InCodesFromIsIn(n: int, codes: seq<int>, i: nat)
    requires i <= |codes|
    ensures InCodesFrom(n, codes, i) <==> n in codes[i..]
    decreases |codes| - i
  {
    if i < |codes| {
      InCodesFromIsIn(n, codes, i + 1);
      assert codes[i..] == [codes[i]] + codes[i + 1..];
    }
  }

  predicate IsJsSpace(c: char) {
    InCodesFrom(c as int, SpaceCodes, 0)
  }

  function TrimStart(s: string): (r: string)
    ensures r == "" || !IsJsSpace(r[0])
    ensures |r| <= |s| && r == s[|s| - |r|..]
  {
    if |s| > 0 && IsJsSpace(s[0]) then TrimStart(s[1..]) else s
  }

  function TrimEnd(s: string): (r: string)
    ensures r == "" || !IsJsSpace(r[|r| - 1])
    ensures r <= s
  {
    if |s| > 0 && IsJsSpace(s[|s| - 1]) then TrimEnd(s[..|s| - 1]) else s
  }

  /** `s.trim()`: what is left has no white space at either end. */
  function Trim(s: string): (r: string)
    ensures r == "" || (!IsJsSpace(r[0]) && !IsJsSpace(r[|r| - 1]))
    ensures |r| <= |s|
  {
    TrimEnd(TrimStart(s))
  }

  /** Everything `trimStart` drops is white space. */
  lemma {:induction false} TrimStartDropsSpace(s: string)
    ensures forall i | 0 <= i < |s| - |TrimStart(s)| :: IsJsSpace(s[i])
  {
    if |s| > 0 && IsJsSpace(s[0]) {
      var t := s[1..];
      TrimStartDropsSpace(t);
      assert TrimStart(s) == TrimStart(t);
      forall i | 0 <= i < |s| - |TrimStart(s)|
        ensures IsJsSpace(s[i])
      {
        if i > 0 {
          assert s[i] == t[i - 1];
        }
      }
    } else {
      assert TrimStart(s) == s;
    }
  }

  /** Everything `trimEnd` drops is white space. */
  lemma {:induction false} TrimEndDropsSpace(s: string)
    ensures forall i | |TrimEnd(s)| <= i < |s| :: IsJsSpace(s[i])
  {
    if |s| > 0 && IsJsSpace(s[|s| - 1]) {
      var t := s[..|s| - 1];
      TrimEndDropsSpace(t);
      assert TrimEnd(s) == TrimEnd(t);
      forall i | |TrimEnd(s)| <= i < |s|
        ensures IsJsSpace(s[i])
      {
        if i < |s| - 1 {
          assert s[i] == t[i];
        }
      }
    } else {
      assert TrimEnd(s) == s;
    }
  }

  /** Every character of `s` before `k` and from `k + n` on is white space. */
  predicate SpaceOutside(s: string, k: nat, n: nat)
    requires k + n <= |s|
  {
    && (forall i | 0 <= i < k :: IsJsSpace(s[i]))
    && (forall i | k + n <= i < |s| :: IsJsSpace(s[i]))
  }

  /** A prefix `r` of a suffix `t` of `s` is the slice of `s` where `t` starts. */
  lemma PrefixOfSuffix(s: string, t: string, r: string)
    requires |t| <= |s| && t == s[|s| - |t|..] && r <= t
    ensures |s| - |t| + |r| <= |s| && r == s[|s| - |t|..|s| - |t| + |r|]
  {
    var k := |s| - |t|;
    assert forall j | 0 <= j < |r| :: r[j] == t[j] == s[k + j];
  }

  /** What lies before a suffix `t`, and in `t` after its prefix `r`, is white space all around `r`. */
  lemma SpaceAroundPrefixOfSuffix(s: string, t: string, r: string)
    requires |t| <= |s| && t == s[|s| - |t|..] && r <= t
    requires forall i | 0 <= i < |s| - |t| :: IsJsSpace(s[i])
    requires forall i | |r| <= i < |t| :: IsJsSpace(t[i])
    ensures SpaceOutside(s, |s| - |t|, |r|)
  {
    var k := |s| - |t|;
    forall i | k + |r| <= i < |s|
      ensures IsJsSpace(s[i])
    {
      assert s[i] == t[i - k];
    }
  }

  /** A slice with white space all around it is empty exactly when the whole text is white space. */
  lemma EmptyBetweenSpace(s: string, k: nat, r: string)
    requires k + |r| <= |s| && r == s[k..k + |r|] && SpaceOutside(s, k, |r|)
    requires r == "" || !IsJsSpace(r[0])
    ensures r == "" <==> forall i | 0 <= i < |s| :: IsJsSpace(s[i])
  {
    if r != "" {
      assert s[k] == r[0];
    }
  }

  /**
   * `s.trim()` is the slice of `s` between its leading and its trailing
   * white space, and it is empty exactly when `s` is all white space.
   */
  lemma TrimIsSliceBetweenSpace(s: string)
    ensures var r := Trim(s);
            && (exists k | 0 <= k <= |s| - |r| :: r == s[k..k + |r|] && SpaceOutside(s, k, |r|))
            && (r == "" <==> forall i | 0 <= i < |s| :: IsJsSpace(s[i]))
  {
    var t := TrimStart(s);
    var r := TrimEnd(t);
    var k := |s| - |t|;
    TrimStartDropsSpace(s);
    TrimEndDropsSpace(t);
    PrefixOfSuffix(s, t, r);
    SpaceAroundPrefixOfSuffix(s, t, r);
    EmptyBetweenSpace(s, k, r);
    assert Trim(s) == r;
  }

  /** A text with no white space at either end is its own trim. */
  lemma TrimOfTrimmed(r: string)
    requires r == "" || (!IsJsSpace(r[0]) && !IsJsSpace(r[|r| - 1]))
    ensures Trim(r) == r
  {
    assert TrimStart(r) == r;
    assert TrimEnd(r) == r;
  }

  lemma TrimIdempotent(s: string)
    ensures Trim(Trim(s)) == Trim(s)
  {
    TrimOfTrimmed(Trim(s));
  }

  /** White space has no upper-case letters, so lower-casing neither makes nor removes it. */
  lemma LowerCharKeepsSpace(c: char)
    ensures IsJsSpace(LowerChar(c)) == IsJsSpace(c)
  {
    InCodesFromIsIn(c as int, SpaceCodes, 0);
    InCodesFromIsIn(LowerChar(c) as int, SpaceCodes, 0);
    assert SpaceCodes[0..] == SpaceCodes;
  }

  lemma {:induction false} LowerTrimStart(s: string)
    ensures TrimStart(Lower(s)) == Lower(TrimStart(s))
  {
    if |s| > 0 {
      var l := Lower(s);
      LowerCharKeepsSpace(s[0]);
      assert l[0] == LowerChar(s[0]);
      if IsJsSpace(s[0]) {
        assert l[1..] == Lower(s[1..]);
        LowerTrimStart(s[1..]);
      }
    }
  }

  lemma {:induction false} LowerTrimEnd(s: string)
    ensures TrimEnd(Lower(s)) == Lower(TrimEnd(s))
  {
    if |s| > 0 {
      var l := Lower(s);
      LowerCharKeepsSpace(s[|s| - 1]);
      assert l[|s| - 1] == LowerChar(s[|s| - 1]);
      if IsJsSpace(s[|s| - 1]) {
        assert l[..|s| - 1] == Lower(s[..|s| - 1]);
        LowerTrimEnd(s[..|s| - 1]);
      }
    }
  }

  /** Lower-casing never creates or removes white space, so it commutes with trimming. */
  lemma LowerTrim(s: string)
    ensures Trim(Lower(s)) == Lower(Trim(s))
  {
    LowerTrimStart(s);
    LowerTrimEnd(TrimStart(s));
  }

  /**
   * JavaScript's default string order (`a < b`, what `Array.prototype.sort()`
   * uses with no comparator): character by character, a proper prefix first.
   */
  predicate LexLess(a: string, b: string)
    decreases |a|
  {
    if |a| == 0 then |b| > 0
    else if |b| == 0 then false
    else if a[0] < b[0] then true
    else a[0] == b[0] && LexLess(a[1..], b[1..])
  }

  lemma {:induction false} LexLessIrreflexive(a: string)
    ensures !LexLess(a, a)
  {
    if |a| > 0 {
      LexLessIrreflexive(a[1..]);
    }
  }

  lemma {:induction false} LexLessTransitive(a: string, b: string, c: string)
    requires LexLess(a, b) && LexLess(b, c)
    ensures LexLess(a, c)
  {
    if |a| > 0 && a[0] == b[0] && b[0] == c[0] {
      LexLessTransitive(a[1..], b[1..], c[1..]);
    }
  }

  lemma {:induction false} LexLessTotal(a: string, b: string)
    requires a != b
    ensures LexLess(a, b) || LexLess(b, a)
  {
    if |a| > 0 && |b| > 0 && a[0] == b[0] {
      assert a == [a[0]] + a[1..] && b == [b[0]] + b[1..];
      LexLessTotal(a[1..], b[1..]);
    }
  }

  /** Sorted in JavaScript's string order with no repetition. */
  predicate StrictlySorted(s: seq<string>) {
    forall i, j | 0 <= i < j < |s| :: LexLess(s[i], s[j])
  }
}
