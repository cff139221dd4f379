/** The records the pages share: the `warranties` row type, the profile
    columns the admin list joins in, the signed-in user, where a page
    navigates and what it toasts, and the hard-coded admin predicate. */
module Common {

  datatype Option<T> = None | Some(value: T)

  /** The four-valued `status` column. */
  datatype Status = Pending | Confirmed | Issued | Rejected

  /** The string each status is stored and compared as. */
  function StatusName(s: Status): (name: string)
    ensures name != "all"
  {
    match s
    case Pending => "pending"
    case Confirmed => "confirmed"
    case Issued => "issued"
    case Rejected => "rejected"
  }

  /** Distinct statuses have distinct names, so comparing names is
      comparing statuses. */
  lemma StatusNameInjective(a: Status, b: Status)
    ensures StatusName(a) == StatusName(b) <==> a == b
  {
  }

  /** A row of the `warranties` table. `value` is the numeric column; dates
      and timestamps are the ISO strings the backend hands out. */
  datatype Row = Row(
    id: string,
    clientId: string,
    number: string,
    beneficiary: string,
    value: real,
    startDate: string,
    endDate: string,
    status: Status,
    kind: string,
    description: Option<string>,
    createdAt: string,
    updatedAt: string)

  /** The `profiles` columns the admin list selects with each warranty. */
  datatype ProfileSummary = ProfileSummary(
    fullName: string,
    email: string,
    companyName: Option<string>)

  /** A warranty as the admin page holds it: the row with its owner's
      profile joined in, absent when the owner has no profile. */
  datatype Warranty = Warranty(row: Row, profiles: Option<ProfileSummary>)

  /** The signed-in user as the identity service reports it. */
  datatype User = User(id: string, email: string)

  /** The pages a handler can navigate to: `/login`, `/dashboard` and
      `/admin`. */
  datatype Route = Login | Dashboard | Admin

  /** The last notification a handler raised. */
  datatype Toast = Success(message: string) | Error(message: string)

  /** `error.message || fallback`: an empty message falls back. */
  function MessageOr(message: string, fallback: string): (m: string)
    ensures message != "" ==> m == message
    ensures message == "" ==> m == fallback
    ensures fallback != "" ==> m != ""
  {
    if message != "" then message else fallback
  }

  const AdminEmail: string := "admin@techgarantias.com.br"

  /** The admin check both the login page and the admin page perform: an
      exact, case-sensitive comparison with one address. */
  predicate IsAdmin(email: string) {
    email == AdminEmail
  }

  // ------------------------------------------------ Array.prototype.filter

  /** `a` is `b` with some elements possibly left out and the rest in order. */
  predicate IsSubsequence<T(==)>(a: seq<T>, b: seq<T>)
    decreases |b|
  {
    a == [] || (b != [] && ((a[0] == b[0] && IsSubsequence(a[1..], b[1..])) || IsSubsequence(a, b[1..])))
  }

  /** `s.filter(p)`: the elements of `s` that satisfy `p`, in order. */
  function Filter<T>(s: seq<T>, p: T -> bool): (r: seq<T>)
    ensures |r| <= |s|
  {
    if s == [] then []
    else if p(s[0]) then [s[0]] + Filter(s[1..], p)
    else Filter(s[1..], p)
  }

  /** `filter` keeps, in order, exactly the elements that satisfy `p`, each
      as often as it occurs in `s`, and nothing else. */
  lemma {:induction false} FilterSpec<T(!new)>(s: seq<T>, p: T -> bool)
    ensures IsSubsequence(Filter(s, p), s)
    ensures forall x :: multiset(Filter(s, p))[x] == if p(x) then multiset(s)[x] else 0
    ensures forall x :: x in Filter(s, p) <==> x in s && p(x)
  {
    if s != [] {
      FilterSpec(s[1..], p);
      assert s == [s[0]] + s[1..];
    }
  }
}
