/** The few Python built-ins the extractor leans on, with their Python
    semantics written out: str.strip(), str.split(sep), int(str) in base 10
    and list indexing with negative indices. */
module PyStr {
  import opened Wrappers

  /** Python's str.isspace() for a single character: the characters that
      str.strip() with no argument removes. */
  predicate IsSpace(c: char) {
    var n := c as int;
    || 0x09 <= n <= 0x0D
    || 0x1C <= n <= 0x20
    || n == 0x85 || n == 0xA0 || n == 0x1680
    || 0x2000 <= n <= 0x200A
    || n == 0x2028 || n == 0x2029 || n == 0x202F || n == 0x205F || n == 0x3000
  }

  /** The whitespace int() skips around its argument. CPython first maps
      every non-ASCII space to ' ' and then skips ASCII spaces only, so the
      four separators U+001C..U+001F, which str.isspace() accepts, are not
      skipped by int(). */
  predicate IntSpace(c: char) {
    IsSpace(c) && !(0x1C <= c as int <= 0x1F)
  }

  predicate IsAsciiDigit(c: char) {
    '0' <= c <= '9'
  }

  function DigitValue(c: char): nat
    requires IsAsciiDigit(c)
  {
    c as int - '0' as int
  }

  function DigitChar(d: nat): (c: char)
    requires d < 10
    ensures IsAsciiDigit(c) && DigitValue(c) == d
  {
    ('0' as int + d) as char
  }

  // ---------------------------------------------------------------------
  // str.strip()
  // ---------------------------------------------------------------------

  /** s[i..j] is what remains of s once every leading and every trailing
      character satisfying p is removed: everything before i and from j on
      satisfies p, and the slice neither starts nor ends with such a
      character. */
  ghost predicate Padding(s: string, i: int, j: int, p: char -> bool) {
    && 0 <= i <= j <= |s|
    && (forall k :: 0 <= k < i ==> p(s[k]))
    && (forall k :: j <= k < |s| ==> p(s[k]))
    && (i < j ==> !p(s[i]) && !p(s[j - 1]))
  }

  /** r is s with its p-padding removed at both ends. */
  ghost predicate StrippedOf(s: string, r: string, p: char -> bool) {
    exists i, j :: Padding(s, i, j, p) && r == s[i..j]
  }

  /** The number of leading characters of s that satisfy p. */
  function LeadCount(s: string, p: char -> bool): (n: nat)
    ensures n <= |s|
    ensures forall k :: 0 <= k < n ==> p(s[k])
    ensures n < |s| ==> !p(s[n])
  {
    if |s| > 0 && p(s[0]) then
      var n := LeadCount(s[1..], p);
      assert forall k :: 1 <= k < n + 1 ==> s[k] == s[1..][k - 1];
      n + 1
    else 0
  }

  /** The end of the last character of s[lo..] that does not satisfy p,
      or lo when there is none. */
  function TrailStart(s: string, lo: nat, p: char -> bool): (j: nat)
    requires lo <= |s|
    ensures lo <= j <= |s|
    ensures forall k :: j <= k < |s| ==> p(s[k])
    ensures lo < j ==> !p(s[j - 1])
    decreases |s|
  {
    if |s| > lo && p(s[|s| - 1]) then TrailStart(s[..|s| - 1], lo, p) else |s|
  }

  /** str.strip(chars) where chars is given as a predicate. */
  function StripBy(s: string, p: char -> bool): (r: string)
    ensures |r| <= |s|
    ensures r == [] || (!p(r[0]) && !p(r[|r| - 1]))
  {
    var i := LeadCount(s, p);
    s[i..TrailStart(s, i, p)]
  }

  /** str.strip() with no argument. */
  function Strip(s: string): (r: string)
    ensures |r| <= |s|
    ensures r == [] || (!IsSpace(r[0]) && !IsSpace(r[|r| - 1]))
  {
    StripBy(s, IsSpace)
  }

  /** What StripBy removes is exactly the p-padding at both ends. */
  lemma StripByStrips(s: string, p: char -> bool)
    ensures StrippedOf(s, StripBy(s, p), p)
  {
    var i := LeadCount(s, p);
    var j := TrailStart(s, i, p);
    assert Padding(s, i, j, p);
  }

  /** Two paddings of the same string leave the same slice. */
  lemma PaddingUnique(s: string, i: int, j: int, i': int, j': int, p: char -> bool)
    requires Padding(s, i, j, p) && Padding(s, i', j', p)
    ensures s[i..j] == s[i'..j']
  {
    if i < j && i' < j' {
      assert i == i' && j == j';
    }
  }

  /** There is only one way to strip a string: any r that meets the
      description StrippedOf is the result of StripBy. */
  lemma StrippedOfUnique(s: string, r: string, p: char -> bool)
    requires StrippedOf(s, r, p)
    ensures r == StripBy(s, p)
  {
    var r' := StripBy(s, p);
    StripByStrips(s, p);
    var i, j :| Padding(s, i, j, p) && r == s[i..j];
    var i', j' :| Padding(s, i', j', p) && r' == s[i'..j'];
    PaddingUnique(s, i, j, i', j', p);
  }

  /** Stripping twice is stripping once. */
  lemma StripIdempotent(s: string)
    ensures Strip(Strip(s)) == Strip(s)
  {
    var r := Strip(s);
    assert Padding(r, 0, |r|, IsSpace) && r == r[0..|r|];
    StrippedOfUnique(r, r, IsSpace);
  }

  /** A string with no p-character at either end is left as it is. */
  lemma StripKeepsUnpadded(s: string, p: char -> bool)
    requires s == [] || (!p(s[0]) && !p(s[|s| - 1]))
    ensures StripBy(s, p) == s
  {
    assert Padding(s, 0, |s|, p) && s == s[0..|s|];
    StrippedOfUnique(s, s, p);
  }

  // ---------------------------------------------------------------------
  // str.split(sep) and its inverse sep.join(parts)
  // ---------------------------------------------------------------------

  /** str.split(sep) for a one-character separator: cuts at every
      occurrence, keeping empty pieces. */
  function Split(s: string, sep: char): (parts: seq<string>)
    ensures |parts| >= 1
    ensures forall k :: 0 <= k < |parts| ==> sep !in parts[k]
  {
    if |s| == 0 then [""]
    else
      var rest := Split(s[1..], sep);
      if s[0] == sep then [""] + rest
      else [[s[0]] + rest[0]] + rest[1..]
  }

  /** sep.join(parts). */
  function Join(parts: seq<string>, sep: char): string
    requires |parts| >= 1
  {
    if |parts| == 1 then parts[0] else parts[0] + [sep] + Join(parts[1..], sep)
  }

  lemma JoinThree(parts: seq<string>, sep: char)
    requires |parts| == 3
    ensures Join(parts, sep) == parts[0] + [sep] + parts[1] + [sep] + parts[2]
  {
    var tail := parts[1..];
    assert tail[1..] == [parts[2]];
    assert Join(tail, sep) == parts[1] + [sep] + parts[2];
    assert Join(parts, sep) == parts[0] + [sep] + (parts[1] + [sep] + parts[2]);
  }

  /** Joining the pieces of a split gives back the original string. */
  lemma {:induction false} JoinSplit(s: string, sep: char)
    ensures Join(Split(s, sep), sep) == s
  {
    if |s| > 0 {
      var rest := Split(s[1..], sep);
      JoinSplit(s[1..], sep);
      if s[0] == sep {
        assert ([""] + rest)[1..] == rest;
      } else {
        var parts := [[s[0]] + rest[0]] + rest[1..];
        if |rest| > 1 {
          assert parts[1..] == rest[1..];
        }
      }
    }
  }

  /** str.count(c) for a single character. */
  function Count(s: string, c: char): nat {
    if |s| == 0 then 0 else (if s[0] == c then 1 else 0) + Count(s[1..], c)
  }

  /** Splitting yields one piece more than there are separators. */
  lemma {:induction false} SplitLength(s: string, sep: char)
    ensures |Split(s, sep)| == Count(s, sep) + 1
  {
    if |s| > 0 {
      SplitLength(s[1..], sep);
    }
  }

  lemma {:induction false} SplitNoSep(a: string, sep: char)
    requires sep !in a
    ensures Split(a, sep) == [a]
  {
    if |a| > 0 {
      SplitNoSep(a[1..], sep);
      assert [a[0]] + a[1..] == a;
    }
  }

  lemma {:induction false} SplitAtFirst(a: string, b: string, sep: char)
    requires sep !in a
    ensures Split(a + [sep] + b, sep) == [a] + Split(b, sep)
  {
    var s := a + [sep] + b;
    if |a| == 0 {
      assert s[1..] == b;
    } else {
      assert s[1..] == a[1..] + [sep] + b;
      SplitAtFirst(a[1..], b, sep);
      assert [a[0]] + a[1..] == a;
    }
  }

  /** Splitting a join of separator-free pieces gives back the pieces. */
  lemma {:induction false} SplitJoin(parts: seq<string>, sep: char)
    requires |parts| >= 1
    requires forall k :: 0 <= k < |parts| ==> sep !in parts[k]
    ensures Split(Join(parts, sep), sep) == parts
  {
    if |parts| == 1 {
      SplitNoSep(parts[0], sep);
    } else {
      SplitJoin(parts[1..], sep);
      SplitAtFirst(parts[0], Join(parts[1..], sep), sep);
      assert [parts[0]] + parts[1..] == parts;
    }
  }

  // ---------------------------------------------------------------------
  // int(s) in base 10
  // ---------------------------------------------------------------------

  /** The digit part int() accepts: ASCII digits, where a single underscore
      may stand between two digits. */
  predicate DigitGroups(s: string) {
    && |s| > 0
    && IsAsciiDigit(s[0]) && IsAsciiDigit(s[|s| - 1])
    && (forall i :: 0 <= i < |s| ==> IsAsciiDigit(s[i]) || s[i] == '_')
    && (forall i :: 0 < i < |s| ==> s[i] == '_' ==> s[i - 1] != '_')
  }

  /** The number a run of digits and underscores denotes. */
  function DigitsValue(s: string): nat
    requires forall i :: 0 <= i < |s| ==> IsAsciiDigit(s[i]) || s[i] == '_'
  {
    if |s| == 0 then 0
    else if s[|s| - 1] == '_' then DigitsValue(s[..|s| - 1])
    else 10 * DigitsValue(s[..|s| - 1]) + DigitValue(s[|s| - 1])
  }

  /** int(s): surrounding whitespace is skipped, then the rest must be a
      signed literal. None stands for the ValueError int() raises; a
      string with no digit in it, the empty string included, always raises.
      CPython's limit of 4300 digits on int/str conversion is not modelled:
      a longer literal is read here where CPython raises ValueError. */
  function ParseInt(s: string): (r: Option<int>)
    ensures r.Some? ==> exists k :: 0 <= k < |s| && IsAsciiDigit(s[k])
  {
    ParseSigned(StripBy(s, IntSpace))
  }

  /** One optional sign followed by digit groups, nothing else. */
  function ParseSigned(t: string): Option<int> {
    if |t| > 0 && (t[0] == '+' || t[0] == '-') then
      if DigitGroups(t[1..]) then
        var v: int := DigitsValue(t[1..]);
        Some(if t[0] == '-' then -v else v)
      else None
    else if DigitGroups(t) then Some(DigitsValue(t))
    else None
  }

  /** str(n) for a natural number. */
  function FormatNat(n: nat): (s: string)
    ensures |s| > 0 && forall i :: 0 <= i < |s| ==> IsAsciiDigit(s[i])
  {
    if n < 10 then [DigitChar(n)] else FormatNat(n / 10) + [DigitChar(n % 10)]
  }

  /** str(i) for any integer, with no limit on the number of digits (CPython
      raises ValueError beyond 4300). */
  function FormatInt(i: int): string {
    if i < 0 then "-" + FormatNat(-i) else FormatNat(i)
  }

  lemma {:induction false} FormatNatValue(n: nat)
    ensures DigitGroups(FormatNat(n))
    ensures DigitsValue(FormatNat(n)) == n
  {
    var s := FormatNat(n);
    if n >= 10 {
      FormatNatValue(n / 10);
      assert s[..|s| - 1] == FormatNat(n / 10);
    }
  }

  /** int(str(n)) == n for a natural number n. */
  lemma ParseFormatNat(n: nat)
    ensures ParseInt(FormatNat(n)) == Some(n)
  {
    var d := FormatNat(n);
    FormatNatValue(n);
    assert IsAsciiDigit(d[0]) && IsAsciiDigit(d[|d| - 1]);
    StripKeepsUnpadded(d, IntSpace);
    assert ParseSigned(d) == Some(n);
  }

  /** A minus sign followed by digit groups is read as the negated value. */
  lemma SignedNegated(d: string)
    requires DigitGroups(d)
    ensures ParseSigned("-" + d) == Some(-(DigitsValue(d) as int))
  {
    assert ("-" + d)[1..] == d;
  }

  lemma ParseNegated(d: string)
    requires DigitGroups(d)
    ensures ParseInt("-" + d) == Some(-(DigitsValue(d) as int))
  {
    var s := "-" + d;
    assert s[0] == '-' && s[|s| - 1] == d[|d| - 1];
    StripKeepsUnpadded(s, IntSpace);
    SignedNegated(d);
  }

  /** int(str(i)) == i. */
  lemma ParseFormatInt(i: int)
    ensures ParseInt(FormatInt(i)) == Some(i)
  {
    if i < 0 {
      var d := FormatNat(-i);
      FormatNatValue(-i);
      ParseNegated(d);
      assert FormatInt(i) == "-" + d;
      assert DigitsValue(d) == -i;
    } else {
      ParseFormatNat(i);
    }
  }

  /** int() of two ASCII digits, as in a "03" month field, is their
      two-digit value; a leading zero is accepted. */
  lemma ParseTwoDigits(a: char, b: char)
    requires IsAsciiDigit(a) && IsAsciiDigit(b)
    ensures ParseInt([a, b]) == Some(10 * DigitValue(a) + DigitValue(b))
  {
    var s := [a, b];
    StripKeepsUnpadded(s, IntSpace);
    assert s[..1] == [a] && [a][..0] == [];
    assert DigitsValue([a]) == DigitValue(a);
    assert DigitsValue(s) == 10 * DigitValue(a) + DigitValue(b);
    assert DigitGroups(s);
  }

  // ---------------------------------------------------------------------
  // List indexing
  // ---------------------------------------------------------------------

  /** xs[i] for a Python list: a negative index counts from the end, and
      None stands for the IndexError raised outside -|xs| <= i < |xs|. */
  function PyIndex<T>(xs: seq<T>, i: int): (r: Option<T>)
    ensures r.Some? <==> -|xs| <= i < |xs|
    ensures 0 <= i < |xs| ==> r == Some(xs[i])
  {
    if 0 <= i < |xs| then Some(xs[i])
    else if -|xs| <= i < 0 then Some(xs[|xs| + i])
    else None
  }

  /** A negative index names the same element as that index plus the
      length of the list. */
  lemma PyIndexNegative<T>(xs: seq<T>, i: int)
    requires -|xs| <= i < 0
    ensures PyIndex(xs, i) == PyIndex(xs, i + |xs|)
  {
  }
}
