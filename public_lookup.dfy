/** The public lookup page: anyone types a warranty number and gets back a
    redacted view of the matching warranty, or a "not found" state. */
module PublicLookup {
  import opened Common
  import opened Text
  import opened Store

  /** The eight columns the lookup selects: no id, no owner, no timestamps. */
  datatype WarrantyInfo = WarrantyInfo(
    number: string,
    beneficiary: string,
    value: real,
    startDate: string,
    endDate: string,
    status: Status,
    kind: string,
    description: Option<string>)

  /** The public view of a row: the selected columns, copied. */
  function View(r: Row): (v: WarrantyInfo)
    ensures v.number == r.number && v.beneficiary == r.beneficiary && v.value == r.value
    ensures v.startDate == r.startDate && v.endDate == r.endDate && v.status == r.status
    ensures v.kind == r.kind && v.description == r.description
  {
    WarrantyInfo(r.number, r.beneficiary, r.value, r.startDate, r.endDate, r.status, r.kind, r.description)
  }

  /** The view does not depend on the row's id, owner or timestamps, so it
      cannot reveal them. */
  lemma ViewHidesInternals(r: Row, id: string, clientId: string, createdAt: string, updatedAt: string)
    ensures View(r.(id := id, clientId := clientId, createdAt := createdAt, updatedAt := updatedAt)) == View(r)
  {
  }

  /** `select(...).eq('warranty_number', key).single()`: the view of the one
      row whose number equals the key exactly; no row, or more than one, is
      an error. */
  function SelectSingle(rows: seq<Row>, key: string): Option<WarrantyInfo> {
    var hits := Hits(rows, key);
    if |hits| == 1 then Some(View(hits[0])) else None
  }

  /** The rows the `eq` filter keeps: those whose number equals the key. */
  function Hits(rows: seq<Row>, key: string): seq<Row> {
    Filter(rows, NumberIs(key))
  }

  function NumberIs(key: string): Row -> bool {
    (r: Row) => r.number == key
  }

  /** A lookup answer is the view of the one row whose number is exactly
      the key: `single()` answers only when no other row carries it. */
  lemma SelectSingleSound(rows: seq<Row>, key: string)
    ensures SelectSingle(rows, key).Some? ==>
      exists i | 0 <= i < |rows| ::
        && rows[i].number == key
        && SelectSingle(rows, key).value == View(rows[i])
        && forall j | 0 <= j < |rows| && rows[j].number == key :: j == i
  {
    var hits := Hits(rows, key);
    FilterSpec(rows, NumberIs(key));
    if |hits| == 1 {
      assert hits[0] in hits;
      var i :| 0 <= i < |rows| && rows[i] == hits[0];
      assert rows[i].number == key;
      forall j | 0 <= j < |rows| && rows[j].number == key
        ensures j == i
      {
        if j < i {
          FilterTwo(rows, NumberIs(key), j, i);
        } else if i < j {
          FilterTwo(rows, NumberIs(key), i, j);
        }
      }
    }
  }

  /** Two rows carrying the same number make that number impossible to
      look up: `single()` refuses more than one match. */
  lemma SelectSingleDuplicate(rows: seq<Row>, i: nat, j: nat)
    requires i < j < |rows| && rows[i].number == rows[j].number
    ensures SelectSingle(rows, rows[i].number) == None
  {
    FilterTwo(rows, NumberIs(rows[i].number), i, j);
  }

  /** Two positions that pass the predicate leave at least two elements. */
  lemma {:induction false} FilterTwo<T>(s: seq<T>, p: T -> bool, i: nat, j: nat)
    requires i < j < |s| && p(s[i]) && p(s[j])
    ensures |Filter(s, p)| >= 2
  {
    if i == 0 {
      FilterOne(s[1..], p, j - 1);
    } else {
      FilterTwo(s[1..], p, i - 1, j - 1);
    }
  }

  /** A position that passes the predicate leaves at least one element. */
  lemma {:induction false} FilterOne<T>(s: seq<T>, p: T -> bool, i: nat)
    requires i < |s| && p(s[i])
    ensures |Filter(s, p)| >= 1
  {
    if i > 0 {
      FilterOne(s[1..], p, i - 1);
    }
  }

  /** When warranty numbers are unique, a number that is in the table is
      found, with that row's public view. */
  lemma {:induction false} SelectSingleComplete(rows: seq<Row>, i: nat)
    requires i < |rows|
    requires forall j | 0 <= j < |rows| && j != i :: rows[j].number != rows[i].number
    ensures SelectSingle(rows, rows[i].number) == Some(View(rows[i]))
  {
    var key := rows[i].number;
    var hits := Hits(rows, key);
    OnlyHit(rows, i);
    assert multiset(hits) == multiset{rows[i]};
    assert |hits| == 1;
    assert hits[0] in multiset(hits);
  }

  /** With a unique number, the rows whose number is the key hold that one
      row exactly once. */
  lemma OnlyHit(rows: seq<Row>, i: nat)
    requires i < |rows|
    requires forall j | 0 <= j < |rows| && j != i :: rows[j].number != rows[i].number
    ensures multiset(Hits(rows, rows[i].number)) == multiset{rows[i]}
  {
    CountOnce(rows, i);
    FilterSpec(rows, NumberIs(rows[i].number));
  }

  lemma {:induction false} CountOnce(rows: seq<Row>, i: nat)
    requires i < |rows|
    requires forall j | 0 <= j < |rows| && j != i :: rows[j].number != rows[i].number
    ensures multiset(rows)[rows[i]] == 1
  {
    if i == 0 {
      assert rows == [rows[0]] + rows[1..];
      assert rows[0] !in rows[1..];
    } else {
      assert rows == [rows[0]] + rows[1..];
      CountOnce(rows[1..], i - 1);
    }
  }

  /** A key no row carries is not found. */
  lemma SelectSingleMissing(rows: seq<Row>, key: string)
    requires forall i | 0 <= i < |rows| :: rows[i].number != key
    ensures SelectSingle(rows, key) == None
  {
    var hits := Hits(rows, key);
    FilterSpec(rows, NumberIs(key));
    assert multiset(hits) == multiset{};
  }

  /** `statusConfig`: the label the page shows for each status. */
  function Label(s: Status): string {
    match s
    case Pending => "Pendente"
    case Confirmed => "Confirmada"
    case Issued => "Emitida"
    case Rejected => "Rejeitada"
  }

  /** Every status has a non-empty label, and no two statuses share one. */
  lemma LabelsDistinct(a: Status, b: Status)
    ensures Label(a) != ""
    ensures Label(a) == Label(b) <==> a == b
  {
  }

  /** How the store call ended: it answered (with data or with the
      `single()` error), it returned a transport error, or it threw. */
  datatype Reply = Answered | ErrorReturned | Thrown

  const EnterNumber: string := "Digite o número da carta de garantia"
  const NotFoundMessage: string := "Carta de garantia não encontrada"
  const FoundMessage: string := "Carta de garantia encontrada!"
  const LookupFailed: string := "Erro ao buscar garantia"

  /** What a search leaves on the page. */
  datatype Outcome = Outcome(warranty: Option<WarrantyInfo>, notFound: bool, toast: Toast)

  /** What a search of the non-blank `key` leaves behind. A single match
      shows its view; no match or a returned error sets the flag; a throw
      only toasts. */
  function SearchResult(rows: seq<Row>, key: string, reply: Reply): (r: Outcome)
    ensures reply == Answered ==> r.warranty == SelectSingle(rows, key) && r.notFound == r.warranty.None?
    ensures reply == ErrorReturned ==> r.warranty == None && r.notFound
    ensures reply == Thrown ==> r.warranty == None && !r.notFound && r.toast == Error(LookupFailed)
    ensures r.notFound ==> r.toast == Error(NotFoundMessage)
    ensures r.warranty.Some? ==> r.toast == Success(FoundMessage)
  {
    if reply == Thrown then Outcome(None, false, Error(LookupFailed))
    else
      var data := if reply == Answered then SelectSingle(rows, key) else None;
      if data.None? then Outcome(None, true, Error(NotFoundMessage))
      else Outcome(data, false, Success(FoundMessage))
  }

  class LookupPage {
    /** The text in the number field. */
    var warrantyNumber: string
    var loading: bool
    var warranty: Option<WarrantyInfo>
    var notFound: bool
    var toast: Option<Toast>

    constructor ()
      ensures warrantyNumber == "" && !loading && warranty == None && !notFound && toast == None
    {
      warrantyNumber := "";
      loading := false;
      warranty := None;
      notFound := false;
      toast := None;
    }

    /** Typing in the number field. */
    method SetWarrantyNumber(text: string)
      modifies this
      ensures warrantyNumber == text
      ensures loading == old(loading) && warranty == old(warranty)
      ensures notFound == old(notFound) && toast == old(toast)
    {
      warrantyNumber := text;
    }

    /** `handleSearch`. A blank field only raises a toast. Otherwise the
        previous result is cleared and the trimmed text is looked up: a
        single match shows its view, no match or an error sets `notFound`,
        a throw only toasts; loading is off afterwards in every case. */
    method HandleSearch(store: WarrantyStore, reply: Reply)
      modifies this
      ensures warrantyNumber == old(warrantyNumber)
      ensures Trim(warrantyNumber) == "" ==>
        && toast == Some(Error(EnterNumber))
        && loading == old(loading) && warranty == old(warranty) && notFound == old(notFound)
      ensures Trim(warrantyNumber) != "" ==>
        && !loading
        && var r := SearchResult(store.rows, Trim(warrantyNumber), reply);
           warranty == r.warranty && notFound == r.notFound && toast == Some(r.toast)
    {
      var key := Trim(warrantyNumber);
      if key == "" {
        toast := Some(Error(EnterNumber));
        return;
      }

      ghost var expected := SearchResult(store.rows, key, reply);
      loading := true;
      notFound := false;
      warranty := None;

      if reply == Thrown {
        toast := Some(Error(LookupFailed));
      } else {
        var data := if reply == Answered then SelectSingle(store.rows, key) else None;
        if data.None? {
          notFound := true;
          toast := Some(Error(NotFoundMessage));
        } else {
          warranty := data;
          toast := Some(Success(FoundMessage));
        }
      }
      assert warranty == expected.warranty && notFound == expected.notFound && toast == Some(expected.toast);
      loading := false;
    }
  }
}
