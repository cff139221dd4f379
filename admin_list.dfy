/** The admin console's list logic: the status filter, the free-text search
    and the per-status counts, all computed from the loaded warranties. */
module AdminList {
  import opened Common
  import opened Text

  /** The status filter value that switches the status step off. */
  const ShowAll: string := "all"

  /** The status step: `'all'` keeps the list as loaded; any other value
      keeps the warranties whose status is stored as exactly that string. */
  function StatusStep(ws: seq<Warranty>, statusFilter: string): seq<Warranty> {
    if statusFilter == ShowAll then ws else Filter(ws, StatusIs(statusFilter))
  }

  /** The status step's predicate. */
  function StatusIs(statusFilter: string): Warranty -> bool {
    (w: Warranty) => StatusName(w.row.status) == statusFilter
  }

  /** The search predicate: the lower-cased term occurs in the lower-cased
      warranty number, beneficiary, owner name or owner company. A missing
      profile or company contributes no match. */
  predicate Matches(w: Warranty, searchTerm: string) {
    var t := Lower(searchTerm);
    || Contains(Lower(w.row.number), t)
    || Contains(Lower(w.row.beneficiary), t)
    || (w.profiles.Some? && Contains(Lower(w.profiles.value.fullName), t))
    || (w.profiles.Some? && w.profiles.value.companyName.Some?
        && Contains(Lower(w.profiles.value.companyName.value), t))
  }

  /** The search step: an empty term skips it. */
  function SearchStep(ws: seq<Warranty>, searchTerm: string): seq<Warranty> {
    if searchTerm == "" then ws else Filter(ws, MatchesTerm(searchTerm))
  }

  /** The search step's predicate. */
  function MatchesTerm(searchTerm: string): Warranty -> bool {
    (w: Warranty) => Matches(w, searchTerm)
  }

  /** `filterWarranties`: the status step, then the search step. */
  function FilterWarranties(ws: seq<Warranty>, statusFilter: string, searchTerm: string): seq<Warranty> {
    SearchStep(StatusStep(ws, statusFilter), searchTerm)
  }

  /** Whether the status step keeps `w`. */
  predicate StatusKept(w: Warranty, statusFilter: string) {
    statusFilter == ShowAll || StatusName(w.row.status) == statusFilter
  }

  lemma {:induction false} SubsequenceTransitive<T>(a: seq<T>, b: seq<T>, c: seq<T>)
    requires IsSubsequence(a, b) && IsSubsequence(b, c)
    ensures IsSubsequence(a, c)
    decreases |c|
  {
    if a != [] {
      assert c != [];
      if b[0] == c[0] && IsSubsequence(b[1..], c[1..]) {
        if a[0] == b[0] && IsSubsequence(a[1..], b[1..]) {
          SubsequenceTransitive(a[1..], b[1..], c[1..]);
        } else {
          SubsequenceTransitive(a, b[1..], c[1..]);
        }
      } else {
        SubsequenceTransitive(a, b, c[1..]);
      }
    }
  }

  /** An empty term matches every warranty: the number always contains it. */
  lemma EmptyTermMatches(w: Warranty)
    ensures Matches(w, "")
  {
    assert Lower("") == "";
    ContainsEmpty(Lower(w.row.number));
  }

  /** The status step keeps, in order, exactly the warranties whose status
      passes the filter, each as often as it occurs. */
  lemma StatusStepSpec(ws: seq<Warranty>, statusFilter: string)
    ensures IsSubsequence(StatusStep(ws, statusFilter), ws)
    ensures forall w :: multiset(StatusStep(ws, statusFilter))[w]
                          == if StatusKept(w, statusFilter) then multiset(ws)[w] else 0
  {
    if statusFilter == ShowAll {
      SubsequenceReflexive(ws);
    } else {
      FilterSpec(ws, StatusIs(statusFilter));
    }
  }

  /** The search step keeps, in order, exactly the warranties the term
      matches, each as often as it occurs. */
  lemma SearchStepSpec(ws: seq<Warranty>, searchTerm: string)
    ensures IsSubsequence(SearchStep(ws, searchTerm), ws)
    ensures forall w :: multiset(SearchStep(ws, searchTerm))[w]
                          == if Matches(w, searchTerm) then multiset(ws)[w] else 0
  {
    if searchTerm == "" {
      SubsequenceReflexive(ws);
      forall w ensures Matches(w, searchTerm) {
        EmptyTermMatches(w);
      }
    } else {
      FilterSpec(ws, MatchesTerm(searchTerm));
    }
  }

  /** What `filterWarranties` keeps: exactly the loaded warranties that pass
      both steps, each as often as it was loaded, in their loaded order. */
  lemma FilterWarrantiesSpec(ws: seq<Warranty>, statusFilter: string, searchTerm: string)
    ensures IsSubsequence(FilterWarranties(ws, statusFilter, searchTerm), ws)
    ensures forall w :: w in FilterWarranties(ws, statusFilter, searchTerm) <==>
      w in ws && StatusKept(w, statusFilter) && Matches(w, searchTerm)
    ensures forall w :: multiset(FilterWarranties(ws, statusFilter, searchTerm))[w]
                          == if StatusKept(w, statusFilter) && Matches(w, searchTerm) then multiset(ws)[w] else 0
  {
    var s := StatusStep(ws, statusFilter);
    var r := SearchStep(s, searchTerm);
    StatusStepSpec(ws, statusFilter);
    SearchStepSpec(s, searchTerm);
    SubsequenceTransitive(r, s, ws);
    forall w
      ensures w in r <==> w in ws && StatusKept(w, statusFilter) && Matches(w, searchTerm)
    {
      assert w in r <==> multiset(r)[w] > 0;
      assert w in ws <==> multiset(ws)[w] > 0;
    }
  }

  lemma {:induction false} SubsequenceReflexive<T>(a: seq<T>)
    ensures IsSubsequence(a, a)
    decreases |a|
  {
    if a != [] {
      SubsequenceReflexive(a[1..]);
    }
  }

  /** With the filter on `'all'` and no search term, the whole loaded list is
      shown. */
  lemma ShowAllShowsEverything(ws: seq<Warranty>)
    ensures FilterWarranties(ws, ShowAll, "") == ws
  {
  }

  /** A filter value that is neither `'all'` nor a status name shows
      nothing. */
  lemma UnknownFilterShowsNothing(ws: seq<Warranty>, statusFilter: string, searchTerm: string)
    requires statusFilter != ShowAll
    requires forall s: Status :: StatusName(s) != statusFilter
    ensures FilterWarranties(ws, statusFilter, searchTerm) == []
  {
    var r := FilterWarranties(ws, statusFilter, searchTerm);
    FilterWarrantiesSpec(ws, statusFilter, searchTerm);
    assert forall w: Warranty :: !StatusKept(w, statusFilter);
    assert multiset(r) == multiset{};
  }

  /** Two warranties, "A1" pending and "B2" issued: the filter on `'issued'`
      shows only the second, and the search "a1" finds the first. */
  lemma FilterExample(a: Warranty, b: Warranty)
    requires a.row.number == "A1" && a.row.status == Pending
    requires b.row.number == "B2" && b.row.status == Issued
    ensures FilterWarranties([a, b], "issued", "") == [b]
    ensures a in FilterWarranties([a, b], ShowAll, "a1")
  {
    assert [a, b][1..] == [b] && [b][1..] == [];
    assert !StatusIs("issued")(a) && StatusIs("issued")(b);
    assert Filter([b], StatusIs("issued")) == [b];
    assert Lower("A1") == "a1";
    assert Lower("a1") == "a1";
    assert MatchesTerm("a1")(a);
  }

  /** The search is case-insensitive in the term: lower-casing it first
      changes nothing. */
  lemma MatchesIgnoresTermCase(w: Warranty, searchTerm: string)
    ensures Matches(w, Lower(searchTerm)) == Matches(w, searchTerm)
  {
    LowerProperties(searchTerm);
  }

  // ------------------------------------------------------------- stats

  datatype Stats = Stats(total: nat, pending: nat, confirmed: nat, issued: nat, rejected: nat)

  function CountStatus(ws: seq<Warranty>, s: Status): nat {
    |Filter(ws, HasStatus(s))|
  }

  function HasStatus(s: Status): Warranty -> bool {
    (w: Warranty) => w.row.status == s
  }

  /** The `stats` object: the list length and one count per status. */
  function ComputeStats(ws: seq<Warranty>): (st: Stats)
    ensures st.total == |ws|
    ensures st.pending <= st.total && st.confirmed <= st.total
    ensures st.issued <= st.total && st.rejected <= st.total
  {
    Stats(|ws|, CountStatus(ws, Pending), CountStatus(ws, Confirmed),
          CountStatus(ws, Issued), CountStatus(ws, Rejected))
  }

  lemma CountStatusCons(ws: seq<Warranty>, s: Status)
    requires ws != []
    ensures CountStatus(ws, s) == (if ws[0].row.status == s then 1 else 0) + CountStatus(ws[1..], s)
  {
  }

  /** Every warranty has one of the four statuses, so the four counts add up
      to the total. */
  lemma {:induction false} StatsAddUp(ws: seq<Warranty>)
    ensures var st := ComputeStats(ws);
      st.pending + st.confirmed + st.issued + st.rejected == st.total
  {
    if ws != [] {
      StatsAddUp(ws[1..]);
      CountStatusCons(ws, Pending);
      CountStatusCons(ws, Confirmed);
      CountStatusCons(ws, Issued);
      CountStatusCons(ws, Rejected);
    }
  }

  /** Filtering with the same predicate, written twice, gives the same list. */
  lemma {:induction false} FilterExtensional<T(!new)>(s: seq<T>, p: T -> bool, q: T -> bool)
    requires forall x :: p(x) == q(x)
    ensures Filter(s, p) == Filter(s, q)
  {
    if s != [] {
      FilterExtensional(s[1..], p, q);
    }
  }

  /** Each count is the length of the list the status filter shows for that
      status with no search term. */
  lemma CountIsFilteredLength(ws: seq<Warranty>, s: Status)
    ensures CountStatus(ws, s) == |FilterWarranties(ws, StatusName(s), "")|
  {
    forall w: Warranty ensures (StatusName(w.row.status) == StatusName(s)) == (w.row.status == s) {
      StatusNameInjective(w.row.status, s);
    }
    FilterExtensional(ws, HasStatus(s), StatusIs(StatusName(s)));
  }
}
