/**
 * String helpers shared by the model: ASCII lower-casing, substring tests,
 * joining, and decimal rendering of natural numbers.
 */
module Text {

  import opened Wrappers

  /** Lower-cases one ASCII letter and leaves every other character alone. */
  function LowerChar(c: char): char {
    if 'A' <= c <= 'Z' then (c as int + 32) as char else c
  }

  /** Character-wise ASCII lower-casing. */
  function Lower(s: string): (r: string)
    ensures |r| == |s|
    ensures forall i :: 0 <= i < |s| ==> r[i] == LowerChar(s[i])
  {
    seq(|s|, i requires 0 <= i < |s| => LowerChar(s[i]))
  }

  predicate IsUpper(c: char) {
    'A' <= c <= 'Z'
  }

  function LowerAll(msgs: seq<string>): (r: seq<string>)
    ensures |r| == |msgs|
    ensures forall i :: 0 <= i < |msgs| ==> r[i] == Lower(msgs[i])
  {
    seq(|msgs|, i requires 0 <= i < |msgs| => Lower(msgs[i]))
  }

  predicate StartsWith(s: string, prefix: string) {
    |prefix| <= |s| && s[..|prefix|] == prefix
  }

  predicate EndsWith(s: string, suffix: string) {
    |suffix| <= |s| && s[|s| - |suffix|..] == suffix
  }

  /** `k` occurs in `s`: a scan from the left, one start position at a time. */
  predicate Contains(s: string, k: string)
    decreases |s|
  {
    StartsWith(s, k) || (|s| > 0 && Contains(s[1..], k))
  }

  /** Some keyword of `kws` occurs in `s`: the `a || b || ...` chains of the source. */
  predicate ContainsAny(s: string, kws: seq<string>)
    decreases |kws|
  {
    |kws| > 0 && (Contains(s, kws[0]) || ContainsAny(s, kws[1..]))
  }

  /** The scan finds `k` exactly when `k` starts at some position of `s`. */
  lemma {:induction false} ContainsIff(s: string, k: string)
    ensures Contains(s, k) <==> exists i :: 0 <= i <= |s| && StartsWith(s[i..], k)
    decreases |s|
  {
    if |s| > 0 {
      ContainsIff(s[1..], k);
      if Contains(s[1..], k) {
        var i :| 0 <= i <= |s| - 1 && StartsWith(s[1..][i..], k);
        assert s[1..][i..] == s[i + 1..];
      }
      if i :| 0 < i <= |s| && StartsWith(s[i..], k) {
        assert s[1..][i - 1..] == s[i..];
      }
    }
    assert s[0..] == s;
  }

  /** `ContainsAny` holds exactly when one of the keywords is contained. */
  lemma {:induction false} ContainsAnyIff(s: string, kws: seq<string>)
    ensures ContainsAny(s, kws) <==> exists j :: 0 <= j < |kws| && Contains(s, kws[j])
    decreases |kws|
  {
    if |kws| > 0 {
      ContainsAnyIff(s, kws[1..]);
      assert forall j :: 1 <= j < |kws| ==> kws[1..][j - 1] == kws[j];
    }
  }

  /** A keyword found at a known position. */
  lemma {:induction false} ContainsAt(s: string, k: string, i: nat)
    requires i + |k| <= |s| && s[i..i + |k|] == k
    ensures Contains(s, k)
    decreases i
  {
    if i > 0 {
      assert s[1..][i - 1..i - 1 + |k|] == s[i..i + |k|];
      ContainsAt(s[1..], k, i - 1);
    }
  }

  /** Every character of a contained keyword occurs in the text. */
  lemma {:induction false} CharsOfContained(s: string, k: string, c: char)
    requires Contains(s, k) && c in k
    ensures c in s
    decreases |s|
  {
    if StartsWith(s, k) {
      var j :| 0 <= j < |k| && k[j] == c;
      assert s[..|k|][j] == c;
    } else {
      CharsOfContained(s[1..], k, c);
    }
  }

  /** A keyword with a character the text lacks does not occur in it. */
  lemma AbsentChar(s: string, k: string, c: char)
    requires c in k && c !in s
    ensures !Contains(s, k)
  {
    if Contains(s, k) {
      CharsOfContained(s, k, c);
    }
  }

  /** Lower-casing a string with no upper-case letter changes nothing. */
  lemma LowerOfLower(s: string)
    requires forall i :: 0 <= i < |s| ==> !IsUpper(s[i])
    ensures Lower(s) == s
  {
  }

  lemma LowerIdempotent(s: string)
    ensures Lower(Lower(s)) == Lower(s)
  {
  }

  /** The parts with `sep` between consecutive ones. */
  function Join(parts: seq<string>, sep: string): string
    decreases |parts|
  {
    if |parts| == 0 then ""
    else if |parts| == 1 then parts[0]
    else parts[0] + sep + Join(parts[1..], sep)
  }

  predicate IsDigit(c: char) {
    '0' <= c <= '9'
  }

  function DigitChar(d: nat): char
    requires d < 10
  {
    ('0' as int + d) as char
  }

  /** Decimal rendering of a natural number, as Rust's `{}` and Python's `str` write it. */
  function Decimal(n: nat): (r: string)
    ensures |r| > 0
    ensures forall i :: 0 <= i < |r| ==> IsDigit(r[i])
  {
    if n < 10 then [DigitChar(n)] else Decimal(n / 10) + [DigitChar(n % 10)]
  }

  /** Value of a string of decimal digits. */
  function DigitsValue(s: string): nat
    requires forall i :: 0 <= i < |s| ==> IsDigit(s[i])
  {
    if s == [] then 0
    else
      assert IsDigit(s[|s| - 1]);
      DigitsValue(s[..|s| - 1]) * 10 + (s[|s| - 1] as int - '0' as int)
  }

  /** Reading back a rendered number gives the number. */
  lemma {:induction false} DecimalValue(n: nat)
    ensures DigitsValue(Decimal(n)) == n
  {
    if n >= 10 {
      var r := Decimal(n);
      assert r[..|r| - 1] == Decimal(n / 10);
      DecimalValue(n / 10);
    }
  }

  /** Prefix of `s` before the first occurrence of `c` (all of `s` when absent). */
  function UntilChar(s: string, c: char): (r: string)
    ensures StartsWith(s, r)
    ensures c !in r
    ensures |r| < |s| ==> s[|r|] == c
  {
    if s == [] then [] else if s[0] == c then [] else [s[0]] + UntilChar(s[1..], c)
  }

  /** Text after the first occurrence of `c`, or None when `c` does not occur. */
  function AfterChar(s: string, c: char): (r: Option<string>)
    ensures r.None? <==> c !in s
    ensures r.Some? ==> s == UntilChar(s, c) + [c] + r.value
  {
    if s == [] then None
    else if s[0] == c then Some(s[1..])
    else match AfterChar(s[1..], c)
      case None => None
      case Some(t) => Some(t)
  }

  /** The text after the first `c` of `x + [c] + y` is `y` when `x` has no `c`. */
  lemma {:induction false} AfterCharFirst(x: string, c: char, y: string)
    requires c !in x
    ensures AfterChar(x + [c] + y, c) == Some(y)
    decreases |x|
  {
    if x != [] {
      assert (x + [c] + y)[1..] == x[1..] + [c] + y;
      AfterCharFirst(x[1..], c, y);
    }
  }

  /** The text before the first `c` of `x + [c] + y` is `x` when `x` has no `c`. */
  lemma UntilCharFirst(x: string, c: char, y: string)
    requires c !in x
    ensures UntilChar(x + [c] + y, c) == x
  {
    AfterCharFirst(x, c, y);
  }

  lemma {:induction false} UntilAbsentChar(s: string, c: char)
    requires c !in s
    ensures UntilChar(s, c) == s
    decreases |s|
  {
    if s != [] {
      UntilAbsentChar(s[1..], c);
    }
  }

  /** The pieces of `s` between occurrences of `c` (Rust's `split`, Python's `str.split`). */
  function Split(s: string, c: char): (parts: seq<string>)
    ensures |parts| >= 1
    ensures forall i :: 0 <= i < |parts| ==> c !in parts[i]
    decreases |s|
  {
    match AfterChar(s, c)
    case None => [s]
    case Some(rest) => [UntilChar(s, c)] + Split(rest, c)
  }

  /** Splitting at `c` undoes joining with `c` pieces that have no `c`. */
  lemma {:induction false} SplitJoin(parts: seq<string>, c: char)
    requires |parts| >= 1
    requires forall i :: 0 <= i < |parts| ==> c !in parts[i]
    ensures Split(Join(parts, [c]), c) == parts
    decreases |parts|
  {
    if |parts| == 1 {
      assert c !in parts[0];
    } else {
      var rest := Join(parts[1..], [c]);
      assert Join(parts, [c]) == parts[0] + [c] + rest;
      AfterCharFirst(parts[0], c, rest);
      UntilCharFirst(parts[0], c, rest);
      SplitJoin(parts[1..], c);
    }
  }

  /** Joining pieces that all lack `c` with a separator that lacks `c` gives a text without `c`. */
  lemma {:induction false} JoinAvoids(parts: seq<string>, sep: string, c: char)
    requires c !in sep
    requires forall i :: 0 <= i < |parts| ==> c !in parts[i]
    ensures c !in Join(parts, sep)
    decreases |parts|
  {
    if |parts| > 1 {
      JoinAvoids(parts[1..], sep, c);
    }
  }

  predicate AllDigits(s: string) {
    forall i :: 0 <= i < |s| ==> IsDigit(s[i])
  }

  /** A rendered number has no leading zero (apart from "0" itself). */
  lemma {:induction false} DecimalNoLeadingZero(n: nat)
    ensures |Decimal(n)| > 1 ==> Decimal(n)[0] != '0'
    ensures Decimal(n)[0] == '0' ==> n == 0
  {
    if n >= 10 {
      DecimalNoLeadingZero(n / 10);
      assert Decimal(n)[0] == Decimal(n / 10)[0];
    }
  }

  /** `name` ends with one of `suffixes` (case-sensitive). */
  predicate EndsWithAny(name: string, suffixes: seq<string>)
    decreases |suffixes|
  {
    |suffixes| > 0 && (EndsWith(name, suffixes[0]) || EndsWithAny(name, suffixes[1..]))
  }

  lemma {:induction false} EndsWithAnyIff(name: string, suffixes: seq<string>)
    ensures EndsWithAny(name, suffixes) <==> exists j :: 0 <= j < |suffixes| && EndsWith(name, suffixes[j])
    decreases |suffixes|
  {
    if |suffixes| > 0 {
      EndsWithAnyIff(name, suffixes[1..]);
      assert forall j :: 1 <= j < |suffixes| ==> suffixes[1..][j - 1] == suffixes[j];
    }
  }
}
