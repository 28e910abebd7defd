/** Small value-level helpers shared by the debugger and the marshaler:
    optional values, decimal text of integers, the byte-wise string order
    of std::string and ASCII case-insensitive comparison. */
module Base {

  datatype Option<T> = None | Some(value: T)

  function Max(a: int, b: int): int { if a < b then b else a }
  function Min(a: int, b: int): int { if a < b then a else b }

  /** `n` blanks. */
  function Spaces(n: nat): (s: string)
    ensures |s| == n && forall i :: 0 <= i < n ==> s[i] == ' '
  {
    if n == 0 then "" else Spaces(n - 1) + " "
  }

  /** Concatenation regrouped, for sequences of strings where the solver
      would otherwise compare characters. */
  lemma AppendAssoc<T>(a: seq<T>, b: seq<T>, c: seq<T>)
    ensures (a + b) + c == a + (b + c)
  {
  }

  lemma SnocTwice<T>(a: seq<T>, x: T, y: T)
    ensures a + [x] + [y] == a + [x, y]
  {
  }

  /** Indexing into a five-part concatenation. */
  lemma ConcatParts<T>(a: seq<T>, b: seq<T>, c: seq<T>, d: seq<T>, e: seq<T>)
    ensures var s := a + b + c + d + e;
      && |s| == |a| + |b| + |c| + |d| + |e|
      && (forall i :: 0 <= i < |b| ==> s[|a| + i] == b[i])
      && (forall i :: 0 <= i < |c| ==> s[|a| + |b| + i] == c[i])
      && (forall i :: 0 <= i < |d| ==> s[|a| + |b| + |c| + i] == d[i])
      && (forall i :: 0 <= i < |e| ==> s[|a| + |b| + |c| + |d| + i] == e[i])
  {
  }

  /** A sequence is what comes before index `j`, the element there, and
      what comes after. */
  lemma SplitAt<T>(s: seq<T>, j: nat)
    requires j < |s|
    ensures s == (s[..j] + [s[j]]) + s[j + 1..]
  {
  }

  lemma MultisetShuffle<T>(a: seq<T>, b: seq<T>, c: seq<T>)
    ensures multiset((a + b) + c) == multiset(a + c) + multiset(b)
  {
  }

  // ---------------------------------------------------------------------
  // Decimal text, as written by `ostream << int` and read back by `>>`

  predicate IsDigit(c: char) { '0' <= c <= '9' }

  predicate AllDigits(s: string) { forall i :: 0 <= i < |s| ==> IsDigit(s[i]) }

  function DigitChar(d: nat): (c: char)
    requires d < 10
    ensures IsDigit(c) && (c as int) - ('0' as int) == d
  {
    "0123456789"[d]
  }

  /** Value of a string of decimal digits (empty means 0). */
  function DigitsValue(s: string): nat
    requires AllDigits(s)
  {
    if s == [] then 0
    else DigitsValue(s[..|s| - 1]) * 10 + ((s[|s| - 1] as int) - ('0' as int))
  }

  /** Shortest decimal text of a natural number. */
  function NatText(n: nat): string
  {
    if n < 10 then [DigitChar(n)] else NatText(n / 10) + [DigitChar(n % 10)]
  }

  /** The text is a nonempty run of digits without a leading zero. */
  lemma {:induction false} NatTextIsNumeral(n: nat)
    ensures 1 <= |NatText(n)| && AllDigits(NatText(n))
    ensures |NatText(n)| > 1 ==> NatText(n)[0] != '0'
  {
    if n >= 10 {
      NatTextIsNumeral(n / 10);
    }
  }

  /** Decimal text of a signed integer: a '-' sign, then the digits. */
  function IntText(i: int): string
  {
    if i < 0 then "-" + NatText(-i) else NatText(i)
  }

  /** Reading a decimal integer: an optional '-' then at least one digit,
      with nothing else around it. */
  function ParseInt(s: string): (r: Option<int>)
    ensures r.Some? ==> 1 <= |s|
  {
    if 1 <= |s| && AllDigits(s) then Some(DigitsValue(s))
    else if 2 <= |s| && s[0] == '-' && AllDigits(s[1..]) then Some(-(DigitsValue(s[1..]) as int))
    else None
  }

  lemma {:induction false} NatTextValue(n: nat)
    ensures AllDigits(NatText(n)) && DigitsValue(NatText(n)) == n
  {
    NatTextIsNumeral(n);
    if n >= 10 {
      var s := NatText(n);
      assert s[..|s| - 1] == NatText(n / 10);
      NatTextValue(n / 10);
    }
  }

  /** Writing an integer and reading it back gives the integer. */
  lemma IntTextRoundTrip(i: int)
    ensures ParseInt(IntText(i)) == Some(i)
  {
    if i < 0 {
      var n: nat := -i;
      NatTextParse(n);
      assert IntText(i) == "-" + NatText(n);
    } else {
      NatTextParse(i);
    }
  }

  /** The digits of `n` read back as `n`, and as `-n` after a '-'. */
  lemma NatTextParse(n: nat)
    ensures ParseInt(NatText(n)) == Some(n)
    ensures ParseInt("-" + NatText(n)) == Some(-(n as int))
  {
    var t := NatText(n);
    NatTextValue(n);
    NatTextIsNumeral(n);
    assert 1 <= |t| && AllDigits(t) && DigitsValue(t) == n;
    ParseNegative(t);
  }

  /** A '-' followed by digits reads as the negated value of the digits. */
  lemma ParseNegative(t: string)
    requires 1 <= |t| && AllDigits(t)
    ensures ParseInt("-" + t) == Some(-(DigitsValue(t) as int))
  {
    var s := "-" + t;
    assert s[1..] == t;
    assert !IsDigit(s[0]);
  }

  /** The text of an integer starts with a digit or with '-'. */
  lemma IntTextFirst(i: int)
    ensures 1 <= |IntText(i)| && (IsDigit(IntText(i)[0]) || IntText(i)[0] == '-')
  {
    if i < 0 { NatTextIsNumeral(-i); } else { NatTextIsNumeral(i); }
  }

  // ---------------------------------------------------------------------
  // std::string ordering (operator< and compare): lexicographic on chars

  function StrLess(a: string, b: string): bool
  {
    if |a| == 0 then |b| > 0
    else if |b| == 0 then false
    else if a[0] != b[0] then a[0] < b[0]
    else StrLess(a[1..], b[1..])
  }

  lemma {:induction false} StrLessIrreflexive(a: string)
    ensures !StrLess(a, a)
  {
    if |a| > 0 { StrLessIrreflexive(a[1..]); }
  }

  lemma {:induction false} StrLessTransitive(a: string, b: string, c: string)
    requires StrLess(a, b) && StrLess(b, c)
    ensures StrLess(a, c)
  {
    if |a| > 0 && |b| > 0 && |c| > 0 && a[0] == b[0] && b[0] == c[0] {
      StrLessTransitive(a[1..], b[1..], c[1..]);
    }
  }

  /** Distinct strings are comparable: the order is total. */
  lemma {:induction false} StrLessConnected(a: string, b: string)
    requires a != b
    ensures StrLess(a, b) || StrLess(b, a)
  {
    if |a| > 0 && |b| > 0 && a[0] == b[0] {
      assert a == [a[0]] + a[1..] && b == [b[0]] + b[1..];
      StrLessConnected(a[1..], b[1..]);
    }
  }

  lemma StrLessAsymmetric(a: string, b: string)
    requires StrLess(a, b)
    ensures !StrLess(b, a)
  {
    if StrLess(b, a) {
      StrLessTransitive(a, b, a);
      StrLessIrreflexive(a);
    }
  }

  /** Two strings neither of which is below the other are equal. */
  lemma StrLessEquivalenceIsEquality(a: string, b: string)
    ensures (!StrLess(a, b) && !StrLess(b, a)) <==> a == b
  {
    if a == b { StrLessIrreflexive(a); }
    else { StrLessConnected(a, b); }
  }

  // ---------------------------------------------------------------------
  // ASCII case folding, as used by boost::algorithm::iequals

  function Upper(c: char): char
  {
    if 'a' <= c <= 'z' then ((c as int) - 32) as char else c
  }

  /** Case-insensitive equality of two strings. */
  predicate IEquals(a: string, b: string)
  {
    |a| == |b| && forall i :: 0 <= i < |a| ==> Upper(a[i]) == Upper(b[i])
  }
}
