/**
 * The .NET string operations the mail handling relies on: `char.IsWhiteSpace`,
 * `string.IsNullOrWhiteSpace`, `string.IsNullOrEmpty`, `string.Trim`,
 * `string.Compare` and the decimal rendering of an unsigned integer.
 * A nullable .NET string is an `Option<string>`.
 */
module Text {
  import opened Wrappers

  /** The characters `char.IsWhiteSpace` accepts: the Unicode space, line and
      paragraph separators, U+0009 to U+000D and U+0085. */
  predicate IsWhiteSpace(c: char) {
    || ('\t' <= c <= '\r')
    || c == ' '
    || c == '\U{0085}'
    || c == '\U{00A0}'
    || c == '\U{1680}'
    || ('\U{2000}' <= c <= '\U{200A}')
    || c == '\U{2028}'
    || c == '\U{2029}'
    || c == '\U{202F}'
    || c == '\U{205F}'
    || c == '\U{3000}'
  }

  /** Every character of `s` from index `lo` up to `hi` is white space. */
  predicate WhiteSpaceBetween(s: string, lo: nat, hi: nat)
    requires lo <= hi <= |s|
  {
    forall i :: lo <= i < hi ==> IsWhiteSpace(s[i])
  }

  predicate AllWhiteSpace(s: string) {
    WhiteSpaceBetween(s, 0, |s|)
  }

  predicate IsNullOrWhiteSpace(s: Option<string>) {
    s.None? || AllWhiteSpace(s.value)
  }

  predicate IsNullOrEmpty(s: Option<string>) {
    s.None? || s.value == []
  }

  /** Neither end of `s` is white space. */
  predicate IsTrimmed(s: string) {
    s == [] || (!IsWhiteSpace(s[0]) && !IsWhiteSpace(s[|s| - 1]))
  }

  /** The forward scan of `Trim`: the first index from `from` on that is
      not white space, or the length of `s`. */
  function ContentStart(s: string, from: nat): (k: nat)
    requires from <= |s|
    ensures from <= k <= |s| && WhiteSpaceBetween(s, from, k)
    ensures k < |s| ==> !IsWhiteSpace(s[k])
    decreases |s| - from
  {
    if from < |s| && IsWhiteSpace(s[from]) then ContentStart(s, from + 1) else from
  }

  /** The backward scan of `Trim`: the end of `s[lo..hi]` once its trailing
      white space is dropped. */
  function ContentEnd(s: string, lo: nat, hi: nat): (k: nat)
    requires lo <= hi <= |s|
    ensures lo <= k <= hi && WhiteSpaceBetween(s, k, hi)
    ensures k > lo ==> !IsWhiteSpace(s[k - 1])
    decreases hi - lo
  {
    if lo < hi && IsWhiteSpace(s[hi - 1]) then ContentEnd(s, lo, hi - 1) else hi
  }

  /** `string.Trim()`: the result has white space at neither end, it is
      empty exactly when `s` is all white space, and it is the part of `s`
      between a white-space prefix and a white-space suffix. */
  function Trim(s: string): (r: string)
    ensures IsTrimmed(r)
    ensures r == [] <==> AllWhiteSpace(s)
    ensures var k := ContentStart(s, 0);
            && k + |r| <= |s| && r == s[k..k + |r|]
            && WhiteSpaceBetween(s, 0, k) && WhiteSpaceBetween(s, k + |r|, |s|)
  {
    var start := ContentStart(s, 0);
    var end := ContentEnd(s, start, |s|);
    assert start == end ==> AllWhiteSpace(s) by {
      if start == end {
        assert forall i :: 0 <= i < |s| ==> (i < start && IsWhiteSpace(s[i])) || (start <= i && IsWhiteSpace(s[i]));
      }
    }
    s[start..end]
  }

  /** Ordinal comparison of two strings, character by character, a proper
      prefix ordering first: negative, zero or positive. */
  function CompareOrdinal(a: string, b: string): (r: int)
    ensures -1 <= r <= 1
    ensures r == 0 <==> a == b
  {
    if a == [] then (if b == [] then 0 else -1)
    else if b == [] then 1
    else if a[0] < b[0] then -1
    else if a[0] > b[0] then 1
    else
      var rest := CompareOrdinal(a[1..], b[1..]);
      assert a == [a[0]] + a[1..] && b == [b[0]] + b[1..];
      rest
  }

  lemma {:induction false} CompareOrdinalAntisymmetric(a: string, b: string)
    ensures CompareOrdinal(a, b) == -CompareOrdinal(b, a)
  {
    if a != [] && b != [] && a[0] == b[0] {
      CompareOrdinalAntisymmetric(a[1..], b[1..]);
    }
  }

  /** `a` is a proper prefix of `b`. */
  predicate ProperPrefix(a: string, b: string) {
    |a| < |b| && a == b[..|a|]
  }

  /** `a` and `b` agree before position `k`, where the character of `a` is
      the smaller. */
  predicate LessAt(a: string, b: string, k: nat) {
    k < |a| && k < |b| && a[..k] == b[..k] && a[k] < b[k]
  }

  /** `a` orders strictly before `b`, character by character: `a` is a
      proper prefix of `b`, or at the first position where they differ the
      character of `a` is the smaller. */
  predicate OrdinalLess(a: string, b: string) {
    ProperPrefix(a, b) || exists k: nat :: k < |a| && LessAt(a, b, k)
  }

  lemma ProperPrefixTail(a: string, b: string)
    requires a != [] && b != [] && a[0] == b[0]
    ensures ProperPrefix(a, b) <==> ProperPrefix(a[1..], b[1..])
  {
    if ProperPrefix(a[1..], b[1..]) {
      assert a == [a[0]] + a[1..] && b[..|a|] == [b[0]] + b[1..][..|a| - 1];
    }
  }

  lemma LessAtTail(a: string, b: string, k: nat)
    requires a != [] && b != [] && a[0] == b[0] && k > 0
    ensures LessAt(a, b, k) <==> LessAt(a[1..], b[1..], k - 1)
  {
    if k < |a| && k < |b| {
      assert a[..k] == [a[0]] + a[1..][..k - 1] && b[..k] == [b[0]] + b[1..][..k - 1];
      assert a[1..][..k - 1] == a[..k][1..] && b[1..][..k - 1] == b[..k][1..];
      assert a[1..][k - 1] == a[k] && b[1..][k - 1] == b[k];
    }
  }

  /** Removing an equal first character keeps the order as it was. */
  lemma OrdinalLessTail(a: string, b: string)
    requires a != [] && b != [] && a[0] == b[0]
    ensures OrdinalLess(a, b) <==> OrdinalLess(a[1..], b[1..])
  {
    ProperPrefixTail(a, b);
    if k: nat :| LessAt(a, b, k) {
      assert k > 0;
      LessAtTail(a, b, k);
    }
    if k: nat :| LessAt(a[1..], b[1..], k) {
      LessAtTail(a, b, k + 1);
    }
  }

  /** `CompareOrdinal` is negative exactly when `a` orders before `b`
      character by character. */
  lemma {:induction false} CompareOrdinalOrder(a: string, b: string)
    ensures CompareOrdinal(a, b) < 0 <==> OrdinalLess(a, b)
  {
    if a == [] {
      assert b != [] ==> ProperPrefix(a, b);
    } else if b == [] {
    } else if a[0] < b[0] {
      assert LessAt(a, b, 0);
    } else if a[0] > b[0] {
      forall k: nat | k < |a|
        ensures !LessAt(a, b, k)
      {
        if 0 < k < |b| {
          assert a[..k][0] == a[0] && b[..k][0] == b[0];
        }
      }
      assert ProperPrefix(a, b) ==> a[0] == b[..|a|][0];
    } else {
      CompareOrdinalOrder(a[1..], b[1..]);
      OrdinalLessTail(a, b);
    }
  }

  /** `string.Compare(a, b)`, where a null string orders before every other
      string and two nulls are equal. */
  function Compare(a: Option<string>, b: Option<string>): (r: int)
    ensures r == 0 <==> a == b
    ensures a.None? && b.Some? ==> r < 0
    ensures a.Some? && b.None? ==> r > 0
  {
    match (a, b)
    case (None, None) => 0
    case (None, Some(_)) => -1
    case (Some(_), None) => 1
    case (Some(x), Some(y)) => CompareOrdinal(x, y)
  }

  lemma CompareAntisymmetric(a: Option<string>, b: Option<string>)
    ensures Compare(a, b) < 0 <==> Compare(b, a) > 0
  {
    if a.Some? && b.Some? {
      CompareOrdinalAntisymmetric(a.value, b.value);
    }
  }

  predicate IsDigit(c: char) {
    '0' <= c <= '9'
  }

  /** The value of a string of decimal digits. */
  function DigitsValue(s: string): nat
    requires forall i :: 0 <= i < |s| ==> IsDigit(s[i])
  {
    if s == [] then 0
    else
      assert IsDigit(s[|s| - 1]);
      10 * DigitsValue(s[..|s| - 1]) + (s[|s| - 1] as int - '0' as int)
  }

  /** The invariant-culture decimal rendering of `n`, as `ulong.ToString()`
      gives it: non-empty, digits only, without a leading zero unless it is
      "0", and reading back as `n`. */
  function Decimal(n: nat): (r: string)
    ensures r != []
    ensures r[0] == '0' ==> n == 0 && r == "0"
    ensures forall i :: 0 <= i < |r| ==> IsDigit(r[i])
    ensures DigitsValue(r) == n
  {
    var last := ('0' as int + n % 10) as char;
    if n < 10 then
      assert [last][..0] == [];
      [last]
    else
      var r := Decimal(n / 10) + [last];
      assert r[..|r| - 1] == Decimal(n / 10);
      r
  }
}
