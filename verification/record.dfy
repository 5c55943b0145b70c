/** The record built for one loan statement: a dictionary from a fixed set
    of twenty field names to strings, where the sentinel "NOT FOUND" marks a
    field nothing was found for. */
module LoanRecord {
  import opened Wrappers

  /** The twenty fields of a record. Name() is the dictionary key and the
      spreadsheet column header. */
  datatype Field =
    | CustomerName | CustomerAddress | CustomerMobile
    | GuarantorName | GuarantorAddress | GuarantorMobile
    | Branch | LoanNo | LoanDate | LoanMonth | LoanYear
    | LoanAmount | PlanInterest | AgreementValue | TenureInMonths
    | InstallmentStart | InstallmentEnd
    | ReceiptAmount | ArrearsAmount | SettlementTotal
  {
    function Name(): string {
      match this
      case CustomerName => "Customer Name"
      case CustomerAddress => "Customer Address"
      case CustomerMobile => "Customer Mobile"
      case GuarantorName => "Guarantor Name"
      case GuarantorAddress => "Guarantor Address"
      case GuarantorMobile => "Guarantor Mobile"
      case Branch => "Branch"
      case LoanNo => "Loan No"
      case LoanDate => "Loan Date"
      case LoanMonth => "Loan Month"
      case LoanYear => "Loan Year"
      case LoanAmount => "Loan Amount"
      case PlanInterest => "Plan Interest"
      case AgreementValue => "Agreement Value"
      case TenureInMonths => "Tenure in Months"
      case InstallmentStart => "Installment Start"
      case InstallmentEnd => "Installment End"
      case ReceiptAmount => "Receipt Amount"
      case ArrearsAmount => "Arrears Amount"
      case SettlementTotal => "Settlement Total"
    }

    /** The field's position in the record, which is the order the
        dictionary is initialised in and the column order of the
        spreadsheet. */
    function Position(): (i: nat)
      ensures i < 20
    {
      match this
      case CustomerName => 0
      case CustomerAddress => 1
      case CustomerMobile => 2
      case GuarantorName => 3
      case GuarantorAddress => 4
      case GuarantorMobile => 5
      case Branch => 6
      case LoanNo => 7
      case LoanDate => 8
      case LoanMonth => 9
      case LoanYear => 10
      case LoanAmount => 11
      case PlanInterest => 12
      case AgreementValue => 13
      case TenureInMonths => 14
      case InstallmentStart => 15
      case InstallmentEnd => 16
      case ReceiptAmount => 17
      case ArrearsAmount => 18
      case SettlementTotal => 19
    }

    /** Every field has a regular expression except the two derived from
        the loan date. */
    predicate HasPattern() {
      this != LoanMonth && this != LoanYear
    }
  }

  /** The number of fields of a record. */
  const FieldCount := 20

  /** The field at a position: the inverse of Position(). */
  function FieldAt(i: nat): (f: Field)
    requires i < FieldCount
    ensures f.Position() == i
  {
    if i == 0 then CustomerName else
    if i == 1 then CustomerAddress else
    if i == 2 then CustomerMobile else
    if i == 3 then GuarantorName else
    if i == 4 then GuarantorAddress else
    if i == 5 then GuarantorMobile else
    if i == 6 then Branch else
    if i == 7 then LoanNo else
    if i == 8 then LoanDate else
    if i == 9 then LoanMonth else
    if i == 10 then LoanYear else
    if i == 11 then LoanAmount else
    if i == 12 then PlanInterest else
    if i == 13 then AgreementValue else
    if i == 14 then TenureInMonths else
    if i == 15 then InstallmentStart else
    if i == 16 then InstallmentEnd else
    if i == 17 then ReceiptAmount else
    if i == 18 then ArrearsAmount else
    SettlementTotal
  }

  /** Position() tells every field apart: a field is the one at its own
      position. */
  lemma AtPosition(f: Field)
    ensures FieldAt(f.Position()) == f
  {
    match f
    case CustomerName =>
    case CustomerAddress =>
    case CustomerMobile =>
    case GuarantorName =>
    case GuarantorAddress =>
    case GuarantorMobile =>
    case Branch =>
    case LoanNo =>
    case LoanDate =>
    case LoanMonth =>
    case LoanYear =>
    case LoanAmount =>
    case PlanInterest =>
    case AgreementValue =>
    case TenureInMonths =>
    case InstallmentStart =>
    case InstallmentEnd =>
    case ReceiptAmount =>
    case ArrearsAmount =>
    case SettlementTotal =>
  }

  /** The fields in the order the record is built, which is also the
      column order of the spreadsheet. */
  function Columns(): seq<Field> {
    seq(FieldCount, i requires 0 <= i < FieldCount => FieldAt(i))
  }

  /** The fields that have a regular expression, in the order they are
      searched for: every column but Loan Month and Loan Year, which sit at
      positions 9 and 10. */
  function PatternOrder(): seq<Field> {
    seq(FieldCount - 2, i requires 0 <= i < FieldCount - 2 => FieldAt(if i < 9 then i else i + 2))
  }

  predicate Distinct<T(==)>(s: seq<T>) {
    forall i, j :: 0 <= i < j < |s| ==> s[i] != s[j]
  }

  /** A sequence with no repetition has as many distinct elements as it
      has entries. */
  lemma {:induction false} DistinctCard<T>(s: seq<T>)
    requires Distinct(s)
    ensures |set x | x in s| == |s|
  {
    if |s| > 0 {
      DistinctCard(s[1..]);
      assert (set x | x in s) == {s[0]} + (set x | x in s[1..]);
      assert s[0] !in (set x | x in s[1..]);
    }
  }

  /** The column list names each of the twenty fields. */
  lemma ColumnsCover()
    ensures forall f: Field :: f in Columns()
  {
    forall f: Field ensures f in Columns() {
      AtPosition(f);
      assert Columns()[f.Position()] == f;
    }
  }

  /** The column list names no field twice, so it has twenty distinct
      entries. */
  lemma ColumnsDistinct()
    ensures Distinct(Columns()) && |set f | f in Columns()| == FieldCount
  {
    assert Distinct(Columns()) by {
      forall i, j | 0 <= i < j < |Columns()| ensures Columns()[i] != Columns()[j] {
        assert Columns()[i].Position() == i && Columns()[j].Position() == j;
      }
    }
    DistinctCard(Columns());
  }

  /** The search order names no field twice: each pattern is searched for
      once. */
  lemma PatternOrderDistinct()
    ensures Distinct(PatternOrder())
  {
    forall i, j | 0 <= i < j < |PatternOrder()| ensures PatternOrder()[i] != PatternOrder()[j] {
      var ki := if i < 9 then i else i + 2;
      var kj := if j < 9 then j else j + 2;
      assert PatternOrder()[i] == FieldAt(ki) && PatternOrder()[j] == FieldAt(kj);
    }
  }

  /** The search order names exactly the fields that have a pattern. */
  lemma PatternOrderFields()
    ensures forall f: Field :: f in PatternOrder() <==> f.HasPattern()
  {
    assert LoanMonth.Position() == 9 && LoanYear.Position() == 10;
    forall f: Field ensures f in PatternOrder() <==> f.HasPattern() {
      var k := f.Position();
      AtPosition(f);
      if f.HasPattern() {
        assert k != 9 && k != 10 by {
          AtPosition(LoanMonth);
          AtPosition(LoanYear);
        }
        var i := if k < 9 then k else k - 2;
        assert PatternOrder()[i] == f;
      }
      if f in PatternOrder() {
        var i :| 0 <= i < |PatternOrder()| && PatternOrder()[i] == f;
        assert f == FieldAt(if i < 9 then i else i + 2);
      }
    }
  }

  type Record = map<Field, string>

  /** The sentinel of an unresolved field. */
  const NotFound := "NOT FOUND"

  /** Every record has all twenty fields as keys. */
  predicate WellFormed(rec: Record) {
    forall f: Field :: f in rec
  }

  /** The record every extraction starts from: each of the twenty fields
      mapped to the sentinel. */
  function InitRecord(): (r: Record)
    ensures WellFormed(r) && |r| == FieldCount
    ensures forall f :: r[f] == NotFound
  {
    var r := map i | 0 <= i < FieldCount :: FieldAt(i) := NotFound;
    assert WellFormed(r) by {
      forall f: Field ensures f in r {
        AtPosition(f);
      }
    }
    ColumnsCover();
    ColumnsDistinct();
    assert r.Keys == set f | f in Columns();
    r
  }
}
