# Loan statement field extractor — Dafny model

This project models the decision logic of `extract_details_from_pdf` in
`app.py`, the function that turns the text of a loan "Statement of Account"
into one row of the output spreadsheet. The model starts after the text has
been read and covers four steps:

1. The record is a dictionary of twenty fixed field names, each set to the
   sentinel `"NOT FOUND"`.
2. Each field that has a regular expression is searched for with
   `re.search`. When the pattern matches, the field is overwritten with
   `match.group(1).strip()`.
3. When `Loan Date` is no longer the sentinel, it is split on `/`. The month
   is looked up as `months[int(month) - 1]` in a twelve-entry list of
   abbreviations, and the year is taken verbatim.
4. Any exception raised by step 3 is swallowed. In that case neither
   derived field is written.

Files:

- `wrappers.dfy`: the `Option` and `Result` datatypes.
- `pystr.dfy`: the Python built-ins the function relies on, with their
  Python semantics spelled out:
  - `str.strip()`, using Python's whitespace set;
  - `str.split(sep)`, which keeps empty pieces;
  - `int(str)` in base 10: surrounding whitespace, an optional sign, ASCII
    digits and single underscores between digits, with no limit on the
    number of digits;
  - list indexing, with negative indices counting from the end and
    `IndexError` outside the list.
- `date_pattern.dfy`: the one fixed-width pattern `(\d{2}/\d{2}/\d{4})`,
  searched for as `re.search` does, so the leftmost match wins.
- `record.dfy`: the twenty fields in the dictionary's order, the fields that
  have a pattern, and the initial record.
- `extractor.dfy`: the match loop, the month/year derivation, one extraction
  and the list of rows built from several statements.

The free-form patterns (`(.*)`, `(\w+)`, `(\d+)`, `(\d+[,.]?\d*)` and the
date captures of Installment Start and Installment End, all matched with
`IGNORECASE`) are an input to the model. A `Search` maps each field to the
first group of that field's first match, or to `None`. `Loan Date` instead
uses the concrete date search of `date_pattern.dfy`.

One behaviour of `app.py` is easy to miss: a month of `00` is not
rejected. It reads `months[-1]` and gives `"DEC"`, and the model reproduces
that (`Extractor.ZeroMonthIsDecember`).

## Model

| member | source | states |
|---|---|---|
| LoanRecord.InitRecord | app.py:11-32 | The initial record has every one of the twenty fields as a key, exactly twenty keys, and every value is "NOT FOUND". |
| LoanRecord.ColumnsCover | app.py:11-32 | The dictionary's key list names every field. |
| LoanRecord.ColumnsDistinct | app.py:11-32 | The twenty columns are twenty pairwise distinct Field values, so the record has twenty distinct entries. |
| LoanRecord.PatternOrderFields | app.py:43-62 | The patterns dictionary has an entry for exactly the fields other than Loan Month and Loan Year. |
| LoanRecord.PatternOrderDistinct | app.py:43-62 | Each field's pattern is searched for once, since no field appears twice in the patterns dictionary. |
| DatePattern.FindDate | app.py:52 | The date search succeeds exactly when some DD/MM/YYYY window of ASCII digits occurs in the text. On success it returns a date-shaped window that starts at the leftmost position where the pattern matches. |
| DatePattern.FindDateFindsLeftmost | app.py:52 | Conversely, the leftmost date-shaped window of the text is exactly what the search returns. |
| DatePattern.DateAfterDigitFreePrefix | app.py:52 | When no digit precedes a date in the text, as in "Loan Date : 29/03/2023", the search returns that date. |
| DatePattern.DateIsStripped | app.py:67 | strip() leaves a date-shaped capture unchanged. |
| DatePattern.DateSplit | app.py:72 | A date-shaped string splits on '/' into exactly the day, month and year parts. |
| PyStr.Strip | app.py:67 | A stripped value is no longer than its input and neither begins nor ends with Python whitespace. |
| PyStr.StripByStrips | app.py:67 | Stripping removes exactly the run of padding characters at each end and keeps the middle slice. |
| PyStr.StrippedOfUnique | app.py:67 | Any slice obtained by removing the padding at both ends is the one strip() returns, so strip() is characterised by this property. |
| PyStr.StripIdempotent | app.py:67 | Stripping twice gives the same as stripping once. |
| PyStr.Split | app.py:72 | split(sep) returns at least one piece, and no piece contains the separator. |
| PyStr.SplitLength | app.py:72 | split(sep) returns one more piece than the string has separators, so the three-way unpacking succeeds exactly when there are two '/'. |
| PyStr.JoinSplit | app.py:72 | Joining the pieces of split(sep) with sep gives back the original string. |
| PyStr.SplitJoin | app.py:72 | Splitting the join of separator-free pieces gives back those pieces. |
| PyStr.ParseInt | app.py:74 | int() raises ValueError on any string without an ASCII digit, the empty string included. Its value on digits is stated by ParseFormatInt and ParseTwoDigits. |
| PyStr.ParseFormatInt | app.py:74 | int(str(i)) == i for every integer i of at most 4300 digits; the model has no digit limit. |
| PyStr.ParseTwoDigits | app.py:74 | int() of a two-digit month string, a leading zero included, is its two-digit value. |
| PyStr.PyIndex | app.py:74 | A list index succeeds exactly when it lies in -len..len-1; any other index raises IndexError. A non-negative index reads that element. |
| PyStr.PyIndexNegative | app.py:74 | A negative index names the same element as that index plus the list's length. |
| Extractor.ApplyMatch | app.py:65-67 | One turn of the loop: a matched field gains the key and holds the stripped capture; an unmatched field adds nothing, and every other field keeps its value. |
| Extractor.MatchLoop | app.py:64-67 | After the loop, a field is a key exactly when it already was one or its pattern matched. A matched field holds the stripped capture, and every other field keeps its value. |
| Extractor.MatchLoopOver | app.py:64-67 | On a record with every field, the loop's outcome does not depend on the order of the pattern list. It equals the field-by-field outcome. |
| Extractor.MatchLoopIsPointwise | app.py:43-67 | The loop over the patterns dictionary gives the field-by-field outcome. Loan Month and Loan Year are untouched, and a field is overwritten exactly when its pattern matched. |
| Extractor.MonthYear | app.py:72-75 | The try block raises an unpacking error exactly when the date does not contain exactly two '/'. It raises ValueError exactly when there are three parts and int() rejects the middle one, and IndexError exactly when int() gives some m outside -11..12. On success the month is months[m - 1] read with Python indexing, so m from 1 to 12 gives its own abbreviation and m from -11 to 0 counts back from "DEC". The year is the third part, the '/'-free text after the last '/'. |
| Extractor.DeriveMonthYear | app.py:69-77 | The derivation keeps the key set of a record that already has both derived fields, and adds at most those two otherwise. It changes no field but Loan Month and Loan Year, and nothing at all when Loan Date is the sentinel or the try block raises. Otherwise Loan Month and Loan Year receive exactly the month and year the try block computed from Loan Date. |
| Extractor.MonthYearOfDate | app.py:72-75 | For a DD/MM/YYYY date, the derivation succeeds exactly when MM <= 12, and the year is YYYY. Months 01 to 12 give their own abbreviation and month 00 gives the last one. Above 12 it raises IndexError. |
| Extractor.ZeroMonthIsDecember | app.py:73-74 | Month "00" reads index -1 and gives "DEC", with the year set. |
| Extractor.MarchExample | app.py:52-75 | A statement reading "Loan Date : 29/03/2023", or any other whose first date has month 03 with no digit before it, yields Loan Month "MAR" and the date's year as Loan Year. |
| Extractor.ThirteenthMonthFails | app.py:74-77 | Month "13" raises IndexError inside the try block. |
| Extractor.DocumentSearch | app.py:52-66 | Loan Date is searched with the concrete date pattern. Its capture exists exactly when the text holds a DD/MM/YYYY window, and it is date-shaped. Every other field uses its own pattern's capture. |
| Extractor.Matched | app.py:43-67 | After the match loop, every field is present. A free-form field holds its stripped capture or the sentinel, Loan Date holds the leftmost date or the sentinel, and Loan Month and Loan Year still hold the sentinel. |
| Extractor.Extract | app.py:10-79 | The returned record always has every one of the twenty fields. |
| Extractor.ExtractFreeFields | app.py:64-79 | In the returned record, a free-form field holds its stripped capture, or "NOT FOUND" when its pattern did not match. |
| Extractor.ExtractNoPadding | app.py:67 | A matched free-form field of the returned record has no leading or trailing whitespace. |
| Extractor.NothingFound | app.py:11-32 | When no pattern matches, for instance in an empty text, every field of the returned record is "NOT FOUND". |
| Extractor.ExtractUndated | app.py:69-70 | Without a date in the text, the derivation is skipped, and Loan Date, Loan Month and Loan Year are all "NOT FOUND". |
| Extractor.DeriveFromDate | app.py:69-77 | On a record whose Loan Date is a DD/MM/YYYY date, the derived fields receive the month's abbreviation and YYYY when MM <= 12. They stay "NOT FOUND" otherwise. |
| Extractor.ExtractDated | app.py:52-77 | When w is the leftmost date of the text, Loan Date is w. When w's month is at most 12, Loan Month is its abbreviation and Loan Year is its year; otherwise both stay "NOT FOUND". |
| Extractor.LabelledDate | app.py:52-75 | A text reading "Loan Date : DD/MM/YYYY ..." yields that date and, when MM <= 12, its month abbreviation and its year. |
| Extractor.ExtractAll | app.py:84-87 | There is one row per uploaded statement, in upload order. Row i has all twenty fields, and each field holds what extracting statement i gives it. |
| Extractor.UniformColumns | app.py:84-89 | All rows have the same key set, however many fields resolved for each statement. |

## Left out

- Reading the PDF with pdfplumber (app.py:34-37) is foreign I/O. The text is an input string.
- The Streamlit calls (title, text preview, uploader, table view, download button) are presentation only.
- Building the pandas DataFrame and writing the Excel file with openpyxl are library serialisation. Only the uniform column set that the serialisation relies on is stated.
- Full `re` semantics for the free-form patterns are abstracted as the `Search` input, which gives each field's first capture or nothing. This covers `(.*)`, `\w+`, `\d+`, `\d+[,.]?\d*`, the Installment Start and Installment End date captures, `\s*` and `IGNORECASE`. What the model keeps is how the capture is used: stripped and written, or the sentinel kept.
- DatePattern.FindDate: `\d` in a Python string pattern also matches non-ASCII decimal digits. The model matches ASCII digits only.
- PyStr.ParseInt: int() also accepts non-ASCII decimal digits, which the model does not. The model also has no limit on the number of digits, while CPython (3.11 and later, and the 3.7.14, 3.8.14, 3.9.14 and 3.10.7 releases) raises ValueError beyond 4300 digits. A three-part Loan Date whose month part has more than 4300 digits raises ValueError in CPython. In the model it gives IndexOutOfRange, or a month and a year when its value lies in -11..12 with leading zeros, so DeriveMonthYear can differ on such a record. A date-shaped Loan Date has a two-digit month, so neither gap reaches it.
- PyStr.ParseFormatInt: int(str(i)) == i is proved for every integer, with no digit limit. In CPython it holds only for integers of at most 4300 digits, since str(i) and int(s) raise ValueError beyond that.
- Extractor.Extract: the function itself only promises the full key set. The field values are stated by ExtractFreeFields, ExtractUndated and ExtractDated.
- Exceptions other than the three the try block can raise from a string date (unpacking, int() and IndexError) cannot occur in the model, and are not modelled.
