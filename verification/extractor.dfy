/** The field-population and date-derivation steps of extracting one loan
    statement, once its text is known: start from the all-sentinel record,
    overwrite each field whose pattern matches with the stripped capture,
    then derive Loan Month and Loan Year from Loan Date, swallowing any
    error the derivation raises. */
module Extractor {
  import opened Wrappers
  import PyStr
  import DatePattern
  import opened LoanRecord

  /** Month abbreviations, January first. */
  const Months: seq<string> :=
    ["JAN", "FEB", "MAR", "APR", "MAY", "JUN", "JUL", "AUG", "SEP", "OCT", "NOV", "DEC"]

  /** The abbreviation that month number m, from 0 to 12, receives:
      months 1 to 12 their own, and 0 the last entry of the list. */
  function MonthAbbreviation(m: nat): string
    requires m <= 12
  {
    if m == 0 then Months[11] else Months[m - 1]
  }

  /** For each field, the first group of the first match of that field's
      pattern in the document's text, before stripping; None when the
      pattern does not match. */
  type Search = Field -> Option<string>

  /** The exceptions the derivation of month and year can raise. */
  datatype DeriveError =
    | UnpackError      // the date does not split into exactly three parts
    | NotAnInteger     // int() rejects the month part
    | IndexOutOfRange  // the month index falls outside the list

  // ---------------------------------------------------------------------
  // Pattern matches
  // ---------------------------------------------------------------------

  /** One turn of the match loop: a field whose pattern matched takes the
      stripped capture; otherwise the record is unchanged. */
  function ApplyMatch(rec: Record, f: Field, search: Search): (r: Record)
    ensures r.Keys == if search(f).Some? then rec.Keys + {f} else rec.Keys
    ensures search(f).Some? ==> r[f] == PyStr.Strip(search(f).value)
    ensures forall h :: h in rec && (h != f || search(f).None?) ==> r[h] == rec[h]
  {
    match search(f)
    case None => rec
    case Some(g) => rec[f := PyStr.Strip(g)]
  }

  /** The match loop over fs, in order. */
  function MatchLoop(rec: Record, fs: seq<Field>, search: Search): (r: Record)
    ensures forall f :: f in r <==> f in rec || (f in fs && search(f).Some?)
    ensures forall f :: f in fs && search(f).Some? ==> r[f] == PyStr.Strip(search(f).value)
    ensures forall f :: f in rec && !(f in fs && search(f).Some?) ==> r[f] == rec[f]
    decreases |fs|
  {
    if |fs| == 0 then rec
    else MatchLoop(ApplyMatch(rec, fs[0], search), fs[1..], search)
  }

  /** The outcome of the match loop, field by field: a field that has a
      pattern and matched holds its stripped capture, every other field
      keeps its value. */
  function ApplyMatches(rec: Record, search: Search): Record {
    map f | f in rec :: if f.HasPattern() && search(f).Some? then PyStr.Strip(search(f).value) else rec[f]
  }

  /** The loop over any list that names exactly the fields with a
      pattern, on a record that has every field, gives the field-by-field
      outcome, whatever the order of the list. */
  lemma MatchLoopOver(rec: Record, fs: seq<Field>, search: Search)
    requires WellFormed(rec)
    requires forall f :: f in fs <==> f.HasPattern()
    ensures MatchLoop(rec, fs, search) == ApplyMatches(rec, search)
  {
    var r := MatchLoop(rec, fs, search);
    var p := ApplyMatches(rec, search);
    forall f ensures f in r && f in p && r[f] == p[f] {
    }
    assert r.Keys == p.Keys;
  }

  /** Running the loop over the pattern fields in the order of the patterns dictionary gives
      the field-by-field outcome: the key set is kept, Loan Month and Loan
      Year are untouched, and a field is overwritten exactly when its
      pattern matched. */
  lemma MatchLoopIsPointwise(rec: Record, search: Search)
    requires WellFormed(rec)
    ensures MatchLoop(rec, PatternOrder(), search) == ApplyMatches(rec, search)
  {
    PatternOrderFields();
    MatchLoopOver(rec, PatternOrder(), search);
  }

  // ---------------------------------------------------------------------
  // Loan Month and Loan Year
  // ---------------------------------------------------------------------

  /** The body of the try block: split the date on '/', unpack it into
      day, month and year, and look the month up as months[int(month) - 1]
      with Python's indexing, so that month 0 reads the last entry. */
  function MonthYear(date: string): (r: Result<(string, string), DeriveError>)
    ensures r == Failure(UnpackError) <==> PyStr.Count(date, '/') != 2
    ensures r == Failure(NotAnInteger) <==>
      var parts := PyStr.Split(date, '/');
      |parts| == 3 && PyStr.ParseInt(parts[1]).None?
    ensures r == Failure(IndexOutOfRange) <==>
      var parts := PyStr.Split(date, '/');
      |parts| == 3 && PyStr.ParseInt(parts[1]).Some? && !(-11 <= PyStr.ParseInt(parts[1]).value <= 12)
    ensures r.Success? ==>
      var parts := PyStr.Split(date, '/');
      && |parts| == 3 && PyStr.ParseInt(parts[1]).Some?
      && var m := PyStr.ParseInt(parts[1]).value;
      && -11 <= m <= 12
      && r.value.0 == (if m >= 1 then Months[m - 1] else Months[m + 11])
      && r.value.1 == parts[2]
    ensures r.Success? ==>
      && '/' !in r.value.1 && |r.value.1| < |date|
      && date == date[..|date| - |r.value.1|] + r.value.1
      && date[|date| - |r.value.1| - 1] == '/'
  {
    var parts := PyStr.Split(date, '/');
    PyStr.SplitLength(date, '/');
    if |parts| != 3 then Failure(UnpackError)
    else
      match PyStr.ParseInt(parts[1])
      case None => Failure(NotAnInteger)
      case Some(m) =>
        match PyStr.PyIndex(Months, m - 1)
        case None => Failure(IndexOutOfRange)
        case Some(abbr) =>
          PyStr.JoinSplit(date, '/');
          PyStr.JoinThree(parts, '/');
          var head := parts[0] + ['/'] + parts[1] + ['/'];
          assert date == head + parts[2];
          assert date[..|date| - |parts[2]|] == head;
          Success((abbr, parts[2]))
  }

  /** The derivation step. It is skipped while Loan Date is the sentinel;
      otherwise both derived fields are written when the try block
      succeeds, and nothing is written when it raises. No field but Loan
      Month and Loan Year ever changes, and no error escapes. */
  function DeriveMonthYear(rec: Record): (r: Record)
    requires LoanDate in rec
    ensures rec.Keys <= r.Keys <= rec.Keys + {LoanMonth, LoanYear}
    ensures forall f :: f in rec && f != LoanMonth && f != LoanYear ==> r[f] == rec[f]
    ensures rec[LoanDate] == NotFound ==> r == rec
    ensures rec[LoanDate] != NotFound && MonthYear(rec[LoanDate]).Failure? ==> r == rec
    ensures rec[LoanDate] != NotFound && MonthYear(rec[LoanDate]).Success? ==>
      && LoanMonth in r && LoanYear in r
      && r[LoanMonth] == MonthYear(rec[LoanDate]).value.0
      && r[LoanYear] == MonthYear(rec[LoanDate]).value.1
  {
    if rec[LoanDate] == NotFound then rec
    else
      match MonthYear(rec[LoanDate])
      case Failure(_) => rec
      case Success((month, year)) => rec[LoanMonth := month][LoanYear := year]
  }

  /** For a date of the DD/MM/YYYY shape the derivation succeeds exactly
      when the month is at most 12. Months 01 to 12 give their own
      abbreviation, month 00 wraps round to "DEC", and the year is the
      last four characters. */
  lemma MonthYearOfDate(w: string)
    requires DatePattern.DateShaped(w)
    ensures MonthYear(w).Success? <==> DatePattern.MonthNumber(w) <= 12
    ensures DatePattern.MonthNumber(w) <= 12 ==>
      MonthYear(w) == Success((MonthAbbreviation(DatePattern.MonthNumber(w)), w[6..]))
    ensures DatePattern.MonthNumber(w) > 12 ==> MonthYear(w) == Failure(IndexOutOfRange)
  {
    DatePattern.DateSplit(w);
    var parts := PyStr.Split(w, '/');
    assert parts[1] == [w[3], w[4]];
    PyStr.ParseTwoDigits(w[3], w[4]);
    var m: int := DatePattern.MonthNumber(w);
    assert PyStr.ParseInt(parts[1]) == Some(m);
    if m == 0 {
      assert PyStr.PyIndex(Months, m - 1) == Some(Months[11]);
    } else if m <= 12 {
      assert PyStr.PyIndex(Months, m - 1) == Some(Months[m - 1]);
    } else {
      assert PyStr.PyIndex(Months, m - 1) == None;
    }
  }

  /** The month "00" is not rejected: it reads index -1, the last month. */
  lemma ZeroMonthIsDecember(w: string)
    requires DatePattern.DateShaped(w) && w[3] == '0' && w[4] == '0'
    ensures MonthYear(w) == Success(("DEC", w[6..]))
  {
    MonthYearOfDate(w);
  }

  /** Month "13" is out of the list's range, and the derivation fails. */
  lemma ThirteenthMonthFails(w: string)
    requires DatePattern.DateShaped(w) && w[3] == '1' && w[4] == '3'
    ensures MonthYear(w) == Failure(IndexOutOfRange)
  {
    MonthYearOfDate(w);
  }

  // ---------------------------------------------------------------------
  // One statement, many statements
  // ---------------------------------------------------------------------

  /** The search used for a document: the concrete date pattern for Loan
      Date, the given search for every other field. */
  function DocumentSearch(text: string, search: Search): (d: Search)
    ensures d(LoanDate).Some? <==> exists i :: DatePattern.DateAt(text, i)
    ensures d(LoanDate).Some? ==> DatePattern.DateShaped(d(LoanDate).value)
    ensures forall f :: f != LoanDate ==> d(f) == search(f)
  {
    (f: Field) => if f == LoanDate then DatePattern.FindDate(text) else search(f)
  }

  /** What the match loop leaves in a field that has a free-form pattern:
      the stripped capture, or the sentinel when the pattern found
      nothing. */
  function Captured(search: Search, f: Field): string {
    match search(f)
    case Some(g) => PyStr.Strip(g)
    case None => NotFound
  }

  /** The record after the match loop: every field is present and the
      derived fields still hold the sentinel. */
  lemma MatchedShape(text: string, search: Search)
    ensures var m := ApplyMatches(InitRecord(), DocumentSearch(text, search));
      WellFormed(m) && m[LoanMonth] == NotFound && m[LoanYear] == NotFound
  {
  }

  /** After the match loop, a free-form field holds its stripped capture
      or the sentinel. */
  lemma MatchedFree(text: string, search: Search)
    ensures var m := ApplyMatches(InitRecord(), DocumentSearch(text, search));
      && WellFormed(m)
      && forall f: Field :: f.HasPattern() && f != LoanDate ==> m[f] == Captured(search, f)
  {
  }

  /** After the match loop, Loan Date holds the leftmost date or the
      sentinel; strip() leaves a date as it is. */
  lemma MatchedDate(text: string, search: Search)
    ensures var m := ApplyMatches(InitRecord(), DocumentSearch(text, search));
      && WellFormed(m)
      && (DatePattern.FindDate(text).None? ==> m[LoanDate] == NotFound)
      && (DatePattern.FindDate(text).Some? ==> m[LoanDate] == DatePattern.FindDate(text).value)
  {
    var d := DatePattern.FindDate(text);
    assert DocumentSearch(text, search)(LoanDate) == d;
    if d.Some? {
      DatePattern.DateIsStripped(d.value);
    }
  }

  /** The record of one statement after the match loop, before the
      derivation: every field is present, a free-form field holds its
      stripped capture or the sentinel, Loan Date holds the leftmost date
      of the text or the sentinel, and the derived fields the sentinel. */
  function Matched(text: string, search: Search): (m: Record)
    ensures WellFormed(m)
    ensures m[LoanMonth] == NotFound && m[LoanYear] == NotFound
    ensures forall f: Field :: f.HasPattern() && f != LoanDate ==> m[f] == Captured(search, f)
    ensures DatePattern.FindDate(text).None? ==> m[LoanDate] == NotFound
    ensures DatePattern.FindDate(text).Some? ==> m[LoanDate] == DatePattern.FindDate(text).value
  {
    MatchedShape(text, search);
    MatchedFree(text, search);
    MatchedDate(text, search);
    MatchLoopIsPointwise(InitRecord(), DocumentSearch(text, search));
    MatchLoop(InitRecord(), PatternOrder(), DocumentSearch(text, search))
  }

  /** The record extracted from a statement's text: the match loop
      followed by the derivation. Every field is present. */
  function Extract(text: string, search: Search): (r: Record)
    ensures WellFormed(r)
  {
    DeriveMonthYear(Matched(text, search))
  }

  /** The derivation touches only Loan Month and Loan Year, so every
      free-form field of the extracted record holds its stripped capture
      or the sentinel. */
  lemma ExtractFreeFields(text: string, search: Search)
    ensures forall f: Field :: f.HasPattern() && f != LoanDate ==>
      Extract(text, search)[f] == Captured(search, f)
  {
  }

  /** A field whose pattern matched holds a value with no leading or
      trailing whitespace. */
  lemma ExtractNoPadding(text: string, search: Search, f: Field)
    requires f.HasPattern() && f != LoanDate && search(f).Some?
    ensures var v := Extract(text, search)[f];
      v == [] || (!PyStr.IsSpace(v[0]) && !PyStr.IsSpace(v[|v| - 1]))
  {
    ExtractFreeFields(text, search);
    var g := search(f).value;
    assert Extract(text, search)[f] == Captured(search, f) == PyStr.Strip(g);
  }

  /** A statement in which no pattern matches, such as one with no text
      at all, gives a record with the sentinel in every field. */
  lemma NothingFound(text: string, search: Search)
    requires DatePattern.FindDate(text).None?
    requires forall f: Field :: search(f).None?
    ensures forall f: Field :: Extract(text, search)[f] == NotFound
  {
    ExtractFreeFields(text, search);
    ExtractUndated(text, search);
  }

  /** A statement without a date has the sentinel in all three date
      fields. */
  lemma ExtractUndated(text: string, search: Search)
    requires DatePattern.FindDate(text).None?
    ensures var r := Extract(text, search);
      r[LoanDate] == NotFound && r[LoanMonth] == NotFound && r[LoanYear] == NotFound
  {
  }

  /** The derivation on a record whose Loan Date is the date w and whose
      derived fields hold the sentinel: they receive w's month and year
      when its month is at most 12 and keep the sentinel otherwise. */
  lemma DeriveFromDate(m: Record, w: string)
    requires WellFormed(m) && m[LoanMonth] == NotFound && m[LoanYear] == NotFound
    requires DatePattern.DateShaped(w) && m[LoanDate] == w
    ensures var r := DeriveMonthYear(m);
      && r[LoanDate] == w
      && (DatePattern.MonthNumber(w) <= 12 ==>
            r[LoanMonth] == MonthAbbreviation(DatePattern.MonthNumber(w)) && r[LoanYear] == w[6..])
      && (DatePattern.MonthNumber(w) > 12 ==> r[LoanMonth] == NotFound && r[LoanYear] == NotFound)
  {
    assert w != NotFound by { assert |w| != |NotFound|; }
    MonthYearOfDate(w);
  }

  /** A statement whose leftmost date is w has w as its Loan Date; the
      month and year are derived from w when its month is at most 12 and
      stay the sentinel otherwise. */
  lemma ExtractDated(text: string, search: Search, w: string)
    requires DatePattern.FindDate(text) == Some(w)
    ensures DatePattern.DateShaped(w)
    ensures var r := Extract(text, search);
      && r[LoanDate] == w
      && (DatePattern.MonthNumber(w) <= 12 ==>
            r[LoanMonth] == MonthAbbreviation(DatePattern.MonthNumber(w)) && r[LoanYear] == w[6..])
      && (DatePattern.MonthNumber(w) > 12 ==> r[LoanMonth] == NotFound && r[LoanYear] == NotFound)
  {
    DeriveFromDate(Matched(text, search), w);
  }

  /** An uploaded statement: its text and the matches its patterns find. */
  datatype Document = Document(text: string, search: Search)

  /** The list of rows built from the uploaded statements, one per
      statement, in upload order. */
  function ExtractAll(docs: seq<Document>): (rows: seq<Record>)
    ensures |rows| == |docs|
    ensures forall i :: 0 <= i < |rows| ==> WellFormed(rows[i])
    ensures forall i, f :: 0 <= i < |docs| ==>
      f in rows[i] && rows[i][f] == Extract(docs[i].text, docs[i].search)[f]
  {
    seq(|docs|, i requires 0 <= i < |docs| => Extract(docs[i].text, docs[i].search))
  }

  /** Two records with every field have the same keys. */
  lemma SameKeys(a: Record, b: Record)
    requires WellFormed(a) && WellFormed(b)
    ensures a.Keys == b.Keys
  {
    assert forall f :: f in a.Keys <==> f in b.Keys;
  }

  /** Every row has the same twenty columns, however many fields resolved
      for its statement. */
  lemma UniformColumns(docs: seq<Document>)
    ensures forall i, j :: 0 <= i < |docs| && 0 <= j < |docs| ==>
      ExtractAll(docs)[i].Keys == ExtractAll(docs)[j].Keys
  {
    var rows := ExtractAll(docs);
    forall i, j | 0 <= i < |docs| && 0 <= j < |docs| ensures rows[i].Keys == rows[j].Keys {
      SameKeys(rows[i], rows[j]);
    }
  }

  /** A statement whose first digits open a date, as in
      "Loan Date : 29/03/2023", has that date as its Loan Date and the
      month and year derived from it. */
  lemma LabelledDate(lead: string, w: string, rest: string, search: Search)
    requires forall k :: 0 <= k < |lead| ==> !PyStr.IsAsciiDigit(lead[k])
    requires DatePattern.DateShaped(w)
    ensures var r := Extract(lead + w + rest, search);
      && r[LoanDate] == w
      && (DatePattern.MonthNumber(w) <= 12 ==>
            r[LoanMonth] == MonthAbbreviation(DatePattern.MonthNumber(w)) && r[LoanYear] == w[6..])
  {
    DatePattern.DateAfterDigitFreePrefix(lead, w, rest);
    ExtractDated(lead + w + rest, search, w);
  }

  /** The statement "Loan Date : 29/03/2023" and any other whose first
      date has month 03 gives Loan Month "MAR" and the date's year. */
  lemma MarchExample(lead: string, w: string, rest: string, search: Search)
    requires forall k :: 0 <= k < |lead| ==> !PyStr.IsAsciiDigit(lead[k])
    requires DatePattern.DateShaped(w) && w[3] == '0' && w[4] == '3'
    ensures var r := Extract(lead + w + rest, search);
      r[LoanDate] == w && r[LoanMonth] == "MAR" && r[LoanYear] == w[6..]
  {
    assert DatePattern.MonthNumber(w) == 3;
    assert MonthAbbreviation(3) == "MAR";
    LabelledDate(lead, w, rest, search);
  }
}
