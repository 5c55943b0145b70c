/** The one fixed-width pattern of the extractor, (\d{2}/\d{2}/\d{4}),
    searched for as re.search does: the leftmost position at which it
    matches. Digits are the ASCII digits. */
module DatePattern {
  import opened Wrappers
  import PyStr

  /** Width of a DD/MM/YYYY window. */
  const DateWidth := 10

  /** w is two digits, '/', two digits, '/', four digits. */
  predicate DateShaped(w: string) {
    && |w| == DateWidth
    && w[2] == '/' && w[5] == '/'
    && forall k :: 0 <= k < DateWidth && k != 2 && k != 5 ==> PyStr.IsAsciiDigit(w[k])
  }

  /** The pattern matches text at position i. */
  predicate DateAt(text: string, i: int) {
    0 <= i && i + DateWidth <= |text| && DateShaped(text[i..i + DateWidth])
  }

  /** The pattern matches text at i and at no position before i. */
  ghost predicate LeftmostDateAt(text: string, i: int) {
    DateAt(text, i) && forall j :: 0 <= j < i ==> !DateAt(text, j)
  }

  /** The first position at or after start where the pattern matches. */
  function FindDateFrom(text: string, start: nat): (r: Option<nat>)
    requires start <= |text|
    ensures r.Some? ==> start <= r.value && DateAt(text, r.value)
    ensures r.Some? ==> forall j :: start <= j < r.value ==> !DateAt(text, j)
    ensures r.None? ==> forall j :: start <= j <= |text| ==> !DateAt(text, j)
    decreases |text| - start
  {
    if start + DateWidth > |text| then None
    else if DateShaped(text[start..start + DateWidth]) then Some(start)
    else FindDateFrom(text, start + 1)
  }

  /** re.search(r"(\d{2}/\d{2}/\d{4})", text).group(1), or None when the
      search fails: the leftmost date-shaped window of text. */
  function FindDate(text: string): (r: Option<string>)
    ensures r.Some? <==> exists i :: DateAt(text, i)
    ensures r.Some? ==> DateShaped(r.value)
    ensures r.Some? ==> exists i :: LeftmostDateAt(text, i) && r.value == text[i..i + DateWidth]
  {
    match FindDateFrom(text, 0)
    case None => None
    case Some(i) =>
      assert LeftmostDateAt(text, i);
      Some(text[i..i + DateWidth])
  }

  lemma {:induction false} FindDateFromReaches(text: string, start: nat, i: nat)
    requires start <= i && DateAt(text, i)
    requires forall j :: start <= j < i ==> !DateAt(text, j)
    ensures FindDateFrom(text, start) == Some(i)
    decreases i - start
  {
    if start < i {
      assert !DateAt(text, start);
      FindDateFromReaches(text, start + 1, i);
    }
  }

  /** Conversely, the leftmost date-shaped window is what the search
      returns. */
  lemma FindDateFindsLeftmost(text: string, i: nat)
    requires LeftmostDateAt(text, i)
    ensures FindDate(text) == Some(text[i..i + DateWidth])
  {
    FindDateFromReaches(text, 0, i);
  }

  /** When no digit precedes a date-shaped window, as in
      "Loan Date : 29/03/2023", that window is what the search returns. */
  lemma DateAfterDigitFreePrefix(lead: string, w: string, rest: string)
    requires forall k :: 0 <= k < |lead| ==> !PyStr.IsAsciiDigit(lead[k])
    requires DateShaped(w)
    ensures FindDate(lead + w + rest) == Some(w)
  {
    var text := lead + w + rest;
    var n := |lead|;
    assert text[n..n + DateWidth] == w;
    forall j | 0 <= j < n ensures !DateAt(text, j) {
      assert text[j] == lead[j];
    }
    FindDateFindsLeftmost(text, n);
  }

  /** A date never begins or ends with whitespace, so the strip() applied
      to every capture leaves it as it is. */
  lemma DateIsStripped(w: string)
    requires DateShaped(w)
    ensures PyStr.Strip(w) == w
  {
    assert PyStr.IsAsciiDigit(w[0]) && PyStr.IsAsciiDigit(w[9]);
    PyStr.StripKeepsUnpadded(w, PyStr.IsSpace);
  }

  /** A date splits on '/' into exactly day, month and year. */
  lemma DateSplit(w: string)
    requires DateShaped(w)
    ensures PyStr.Split(w, '/') == [w[..2], w[3..5], w[6..]]
  {
    var parts := [w[..2], w[3..5], w[6..]];
    assert forall k :: 0 <= k < |parts| ==> '/' !in parts[k] by {
      assert forall c :: c in w[..2] ==> PyStr.IsAsciiDigit(c);
      assert forall c :: c in w[3..5] ==> PyStr.IsAsciiDigit(c);
      assert forall c :: c in w[6..] ==> PyStr.IsAsciiDigit(c);
    }
    assert PyStr.Join(parts, '/') == w by {
      assert parts[1..][1..] == [w[6..]];
      assert PyStr.Join(parts[1..], '/') == w[3..];
    }
    PyStr.SplitJoin(parts, '/');
  }

  /** The month number of a date, from its two month digits. */
  function MonthNumber(w: string): (m: nat)
    requires DateShaped(w)
    ensures m <= 99
  {
    10 * PyStr.DigitValue(w[3]) + PyStr.DigitValue(w[4])
  }
}
