/** String primitives the bot relies on: Python's str.strip, str.split on one
    separator, str.lower, str.isdigit/int on ASCII, the decimal rendering of
    an integer in an f-string, and SQLite's BINARY comparison of TEXT values.
    Only ASCII behaviour is modelled: non-ASCII whitespace, case mappings and
    digits are out of scope. */
module Text {

  /** The ASCII characters Python's str.isspace() accepts, which str.strip()
      removes: space, \t \n \v \f \r and the separators \x1c..\x1f. */
  predicate IsSpace(c: char) {
    c == ' ' || c == '\t' || c == '\n' || c == '\U{0B}' || c == '\U{0C}' || c == '\r'
    || ('\U{1C}' <= c <= '\U{1F}')
  }

  predicate AllSpace(s: string) {
    forall k :: 0 <= k < |s| ==> IsSpace(s[k])
  }

  /** A string that str.strip() leaves alone: no whitespace at either end. */
  predicate IsStripped(s: string) {
    s == [] || (!IsSpace(s[0]) && !IsSpace(s[|s| - 1]))
  }

  /** str.lstrip(): the longest suffix whose first character is not whitespace. */
  function StripLeft(s: string): (r: string)
    ensures |r| <= |s| && r == s[|s| - |r|..]
    ensures AllSpace(s[..|s| - |r|])
    ensures r == [] || !IsSpace(r[0])
  {
    if s != [] && IsSpace(s[0]) then StripLeft(s[1..]) else s
  }

  /** str.rstrip(): the longest prefix whose last character is not whitespace. */
  function StripRight(s: string): (r: string)
    ensures |r| <= |s| && r == s[..|r|]
    ensures AllSpace(s[|r|..])
    ensures r == [] || !IsSpace(r[|r| - 1])
  {
    if s != [] && IsSpace(s[|s| - 1]) then StripRight(s[..|s| - 1]) else s
  }

  /** str.strip(): whitespace removed from both ends. */
  function Strip(s: string): (r: string)
    ensures IsStripped(r)
    ensures |r| <= |s|
    ensures r == [] <==> AllSpace(s)
    ensures forall c :: c in r ==> c in s
  {
    StripBothEnds(s);
    StripWithin(s);
    StripRight(StripLeft(s))
  }

  lemma {:induction false} StripBothEnds(s: string)
    ensures IsStripped(StripRight(StripLeft(s)))
    ensures StripRight(StripLeft(s)) == [] <==> AllSpace(s)
  {
    var l := StripLeft(s);
    var r := StripRight(l);
    AllSpaceConcat(s[..|s| - |l|], l);
    assert s == s[..|s| - |l|] + l;
    if r == [] {
      assert l == r + l[|r|..];
    } else {
      assert r[0] == l[0];
      assert !AllSpace(l) by { assert l[|r| - 1] == r[|r| - 1]; }
    }
  }

  lemma {:induction false} StripWithin(s: string)
    ensures forall c :: c in StripRight(StripLeft(s)) ==> c in s
  {
    var l := StripLeft(s);
    var r := StripRight(l);
    var off := |s| - |l|;
    assert r == l[..|r|] && l == s[off..];
    forall c | c in r ensures c in s {
      var k :| 0 <= k < |r| && r[k] == c;
      assert s[off + k] == l[k] == r[k];
    }
  }

  lemma {:induction false} AllSpaceConcat(a: string, b: string)
    requires AllSpace(a)
    ensures AllSpace(a + b) <==> AllSpace(b)
  {
    if AllSpace(a + b) {
      forall k | 0 <= k < |b| ensures IsSpace(b[k]) {
        assert b[k] == (a + b)[|a| + k];
      }
    }
  }

  lemma {:induction false} StripLeftPadded(a: string, m: string)
    requires AllSpace(a)
    requires m == [] || !IsSpace(m[0])
    ensures StripLeft(a + m) == m
  {
    if a != [] {
      assert (a + m)[1..] == a[1..] + m;
      StripLeftPadded(a[1..], m);
    }
  }

  lemma {:induction false} StripRightPadded(m: string, b: string)
    requires AllSpace(b)
    requires m == [] || !IsSpace(m[|m| - 1])
    ensures StripRight(m + b) == m
  {
    if b != [] {
      assert (m + b)[..|m + b| - 1] == m + b[..|b| - 1];
      StripRightPadded(m, b[..|b| - 1]);
    }
  }

  /** Strip undoes any whitespace padding of a stripped string: it is the
      unique stripped core of its input. */
  lemma {:induction false} StripPadded(a: string, m: string, b: string)
    requires AllSpace(a) && AllSpace(b) && IsStripped(m)
    ensures Strip(a + m + b) == m
  {
    if m == [] {
      assert a + m + b == a + b;
      assert AllSpace(a + b);
      assert AllSpace(StripLeft(a + b)[..0]);
    } else {
      assert a + m + b == a + (m + b);
      assert (m + b)[0] == m[0];
      StripLeftPadded(a, m + b);
      StripRightPadded(m, b);
    }
  }

  /** str.strip() leaves a stripped string alone. */
  lemma {:induction false} StripStripped(s: string)
    requires IsStripped(s)
    ensures Strip(s) == s
  {
    assert [] + s + [] == s;
    StripPadded([], s, []);
  }

  /** str.strip() is idempotent. */
  lemma {:induction false} StripIdempotent(s: string)
    ensures Strip(Strip(s)) == Strip(s)
  {
    var m := Strip(s);
    assert [] + m + [] == m;
    StripPadded([], m, []);
  }

  /** Number of occurrences of c in s. */
  function Count(s: string, c: char): nat {
    if s == [] then 0 else (if s[0] == c then 1 else 0) + Count(s[1..], c)
  }

  /** sep.join(parts) for a one-character separator. */
  function Join(parts: seq<string>, sep: char): string {
    if |parts| == 0 then ""
    else if |parts| == 1 then parts[0]
    else parts[0] + [sep] + Join(parts[1..], sep)
  }

  /** s.split(sep) for a one-character separator: one more piece than there
      are separators, no piece contains the separator, and joining the pieces
      gives s back. */
  function Split(s: string, sep: char): (parts: seq<string>)
    ensures |parts| == Count(s, sep) + 1
    ensures forall i :: 0 <= i < |parts| ==> sep !in parts[i]
    ensures Join(parts, sep) == s
  {
    if s == [] then [""]
    else
      var rest := Split(s[1..], sep);
      if s[0] == sep then
        assert s == [sep] + s[1..];
        [""] + rest
      else
        var parts := [[s[0]] + rest[0]] + rest[1..];
        assert parts[1..] == rest[1..];
        assert Join(parts, sep) == [s[0]] + Join(rest, sep) by {
          if |rest| > 1 {
            assert Join(rest, sep) == rest[0] + [sep] + Join(rest[1..], sep);
          }
        }
        assert s == [s[0]] + s[1..];
        parts
  }

  lemma {:induction false} SplitPrefix(p: string, sep: char, rest: string)
    requires sep !in p
    ensures Split(p + [sep] + rest, sep) == [p] + Split(rest, sep)
  {
    if p == [] {
      assert p + [sep] + rest == [sep] + rest;
    } else {
      assert (p + [sep] + rest)[1..] == p[1..] + [sep] + rest;
      SplitPrefix(p[1..], sep, rest);
      assert [p[0]] + p[1..] == p;
    }
  }

  lemma {:induction false} SplitNoSeparator(p: string, sep: char)
    requires sep !in p
    ensures Split(p, sep) == [p]
  {
    if p != [] {
      SplitNoSeparator(p[1..], sep);
      assert [p[0]] + p[1..] == p;
    }
  }

  /** Splitting undoes joining when no piece contains the separator. */
  lemma {:induction false} SplitJoin(parts: seq<string>, sep: char)
    requires |parts| > 0
    requires forall i :: 0 <= i < |parts| ==> sep !in parts[i]
    ensures Split(Join(parts, sep), sep) == parts
  {
    if |parts| == 1 {
      SplitNoSeparator(parts[0], sep);
    } else {
      SplitJoin(parts[1..], sep);
      SplitPrefix(parts[0], sep, Join(parts[1..], sep));
    }
  }

  /** ASCII part of str.lower(): A..Z become a..z, everything else stays. */
  function LowerChar(c: char): (r: char)
    ensures 'A' <= c <= 'Z' ==> r as int == c as int + 32
    ensures !('A' <= c <= 'Z') ==> r == c
  {
    if 'A' <= c <= 'Z' then (c as int + 32) as char else c
  }

  function Lower(s: string): (r: string)
    ensures |r| == |s|
    ensures forall i :: 0 <= i < |s| ==> r[i] == LowerChar(s[i])
  {
    if s == [] then [] else [LowerChar(s[0])] + Lower(s[1..])
  }

  /** SQLite's BINARY collation on TEXT: memcmp of the UTF-8 encodings, which
      orders like the code points, a proper prefix first. */
  predicate Less(a: string, b: string) {
    if a == [] then b != []
    else b != [] && (a[0] < b[0] || (a[0] == b[0] && Less(a[1..], b[1..])))
  }

  lemma {:induction false} LessIrreflexive(a: string)
    ensures !Less(a, a)
  {
    if a != [] {
      LessIrreflexive(a[1..]);
    }
  }

  lemma {:induction false} LessTransitive(a: string, b: string, c: string)
    requires Less(a, b) && Less(b, c)
    ensures Less(a, c)
  {
    if a != [] && a[0] == b[0] && b[0] == c[0] {
      LessTransitive(a[1..], b[1..], c[1..]);
    }
  }

  /** Any two different strings are ordered one way or the other. */
  lemma {:induction false} LessTotal(a: string, b: string)
    requires a != b
    ensures Less(a, b) || Less(b, a)
  {
    if a != [] && b != [] && a[0] == b[0] {
      assert a == [a[0]] + a[1..] && b == [b[0]] + b[1..];
      LessTotal(a[1..], b[1..]);
    }
  }

  lemma {:induction false} LessAsymmetric(a: string, b: string)
    requires Less(a, b)
    ensures !Less(b, a)
  {
    if a != [] && b != [] && a[0] == b[0] {
      LessAsymmetric(a[1..], b[1..]);
    }
  }

  predicate IsDigit(c: char) {
    '0' <= c <= '9'
  }

  /** str.isdigit() on ASCII: a non-empty string of digits. */
  predicate IsDigits(s: string) {
    |s| > 0 && forall k :: 0 <= k < |s| ==> IsDigit(s[k])
  }

  function DigitValue(c: char): (n: nat)
    requires IsDigit(c)
    ensures n < 10
  {
    c as int - '0' as int
  }

  function DigitChar(n: nat): (c: char)
    requires n < 10
    ensures IsDigit(c) && DigitValue(c) == n
  {
    ('0' as int + n) as char
  }

  /** int(s) for a string of ASCII digits (leading zeros allowed). */
  function DecimalValue(s: string): nat
    requires forall k :: 0 <= k < |s| ==> IsDigit(s[k])
  {
    if s == [] then 0 else 10 * DecimalValue(s[..|s| - 1]) + DigitValue(s[|s| - 1])
  }

  /** str(n) for a natural number: its shortest decimal spelling. */
  function NatToDecimal(n: nat): (s: string)
    ensures IsDigits(s)
    ensures |s| > 1 ==> s[0] != '0'
    ensures s[0] == '0' <==> n == 0
  {
    if n < 10 then [DigitChar(n)] else NatToDecimal(n / 10) + [DigitChar(n % 10)]
  }

  /** int(str(n)) == n. */
  lemma {:induction false} DecimalRoundTrip(n: nat)
    ensures DecimalValue(NatToDecimal(n)) == n
  {
    var s := NatToDecimal(n);
    if n >= 10 {
      DecimalRoundTrip(n / 10);
      assert s[..|s| - 1] == NatToDecimal(n / 10);
    } else {
      assert s[..0] == [];
    }
  }

  /** str(i) for any integer: a minus sign before a negative number's digits. */
  function IntToDecimal(i: int): (s: string)
    ensures |s| > 0 && !IsSpace(s[0]) && !IsSpace(s[|s| - 1])
    ensures i >= 0 ==> IsDigits(s) && DecimalValue(s) == i
    ensures i < 0 ==> s[0] == '-' && IsDigits(s[1..]) && DecimalValue(s[1..]) == -i
    ensures i >= 0 && |s| > 1 ==> s[0] != '0'
    ensures i < 0 ==> s[1] != '0'
  {
    DecimalRoundTrip(if i >= 0 then i else -i);
    if i >= 0 then NatToDecimal(i)
    else
      var d := NatToDecimal(-i);
      assert (['-'] + d)[1..] == d;
      ['-'] + d
  }
}
