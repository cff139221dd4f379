/** The admin console page: its gate on the signed-in user, the loaded and
    filtered warranty lists, and the status buttons. The page's state is an
    object whose fields are the component's state variables; the effect that
    re-runs `filterWarranties` whenever the list, the term or the filter
    changes is the invariant `Valid()`. */
module AdminConsole {
  import opened Common
  import opened AdminList
  import opened Store

  /** What `checkUser` decides for the current user. */
  datatype Gate = Redirect(to: Route) | Enter

  /** `checkUser`'s decision: nobody signed in goes to the login page,
      anyone but the admin address goes to the client dashboard, and only
      the admin address gets in. */
  function AdminGate(currentUser: Option<User>): (g: Gate)
    ensures g == Enter <==> currentUser.Some? && IsAdmin(currentUser.value.email)
    ensures g == Redirect(Login) <==> currentUser.None?
    ensures currentUser.Some? && !IsAdmin(currentUser.value.email) ==> g == Redirect(Dashboard)
  {
    match currentUser
    case None => Redirect(Login)
    case Some(u) => if !IsAdmin(u.email) then Redirect(Dashboard) else Enter
  }

  const StatusUpdated: string := "Status atualizado com sucesso!"
  const StatusUpdateFailed: string := "Erro ao atualizar status"

  class AdminPage {
    var user: Option<User>
    var warranties: seq<Warranty>
    var filteredWarranties: seq<Warranty>
    var loading: bool
    var selectedWarranty: Option<Warranty>
    var searchTerm: string
    var statusFilter: string
    /** Where the page last navigated to, if anywhere. */
    var route: Option<Route>
    /** The last toast the page raised, if any. */
    var toast: Option<Toast>

    /** The shown list is always the filtered loaded list. */
    ghost predicate Valid()
      reads this
    {
      filteredWarranties == FilterWarranties(warranties, statusFilter, searchTerm)
    }

    constructor ()
      ensures Valid()
      ensures user == None && warranties == [] && filteredWarranties == []
      ensures loading && selectedWarranty == None
      ensures searchTerm == "" && statusFilter == ShowAll
      ensures route == None && toast == None
    {
      user := None;
      warranties := [];
      filteredWarranties := [];
      loading := true;
      selectedWarranty := None;
      searchTerm := "";
      statusFilter := ShowAll;
      route := None;
      toast := None;
    }

    /** The counters at the top of the page. */
    function CurrentStats(): (st: Stats)
      reads this
      ensures st.total == |warranties|
      ensures st.pending + st.confirmed + st.issued + st.rejected == st.total
    {
      StatsAddUp(warranties);
      ComputeStats(warranties)
    }

    /** `checkUser`: redirects anyone who is not the admin; for the admin,
        records the user and loads the warranties. */
    method CheckUser(currentUser: Option<User>, store: WarrantyStore, failure: Option<string>)
      requires Valid()
      modifies this
      ensures Valid()
      ensures AdminGate(currentUser).Redirect? ==>
        && route == Some(AdminGate(currentUser).to)
        && user == old(user) && warranties == old(warranties) && loading == old(loading)
      ensures AdminGate(currentUser) == Enter ==>
        && user == currentUser && route == old(route) && !loading
        && warranties == if failure.None? then store.Select() else old(warranties)
      ensures searchTerm == old(searchTerm) && statusFilter == old(statusFilter)
      ensures selectedWarranty == old(selectedWarranty) && toast == old(toast)
    {
      match AdminGate(currentUser)
      case Redirect(to) =>
        route := Some(to);
      case Enter =>
        user := currentUser;
        LoadWarranties(store, failure);
    }

    /** `loadWarranties`: on success the list becomes the store's joined
        rows; on failure it stays; either way loading ends. */
    method LoadWarranties(store: WarrantyStore, failure: Option<string>)
      requires Valid()
      modifies this
      ensures Valid()
      ensures warranties == if failure.None? then store.Select() else old(warranties)
      ensures !loading
      ensures user == old(user) && route == old(route) && toast == old(toast)
      ensures searchTerm == old(searchTerm) && statusFilter == old(statusFilter)
      ensures selectedWarranty == old(selectedWarranty)
    {
      if failure.None? {
        warranties := store.Select();
      }
      loading := false;
      filteredWarranties := FilterWarranties(warranties, statusFilter, searchTerm);
    }

    /** Typing in the search box. */
    method SetSearchTerm(term: string)
      requires Valid()
      modifies this
      ensures Valid() && searchTerm == term
      ensures warranties == old(warranties) && statusFilter == old(statusFilter)
      ensures user == old(user) && loading == old(loading) && route == old(route)
      ensures toast == old(toast) && selectedWarranty == old(selectedWarranty)
    {
      searchTerm := term;
      filteredWarranties := FilterWarranties(warranties, statusFilter, searchTerm);
    }

    /** Choosing a value in the status select. */
    method SetStatusFilter(filter: string)
      requires Valid()
      modifies this
      ensures Valid() && statusFilter == filter
      ensures warranties == old(warranties) && searchTerm == old(searchTerm)
      ensures user == old(user) && loading == old(loading) && route == old(route)
      ensures toast == old(toast) && selectedWarranty == old(selectedWarranty)
    {
      statusFilter := filter;
      filteredWarranties := FilterWarranties(warranties, statusFilter, searchTerm);
    }

    /** Opening the details dialog of a warranty. */
    method OpenDetails(w: Warranty)
      modifies this
      ensures selectedWarranty == Some(w)
      ensures warranties == old(warranties) && filteredWarranties == old(filteredWarranties)
      ensures searchTerm == old(searchTerm) && statusFilter == old(statusFilter)
      ensures user == old(user) && loading == old(loading) && route == old(route) && toast == old(toast)
    {
      selectedWarranty := Some(w);
    }

    /** `updateWarrantyStatus`: on success the store row with that id has the
        new status and nothing else in the store changed, the page toasts
        success, reloads and closes the dialog; on failure the store and the
        page's lists are as they were and the page toasts the error. Nothing
        here checks who is signed in. */
    method UpdateWarrantyStatus(store: WarrantyStore, id: string, newStatus: Status,
                                failure: Option<string>, reloadFailure: Option<string>)
      requires Valid() && store.Valid()
      modifies this, store
      ensures Valid() && store.Valid() && store.profiles == old(store.profiles)
      ensures failure.Some? ==>
        && store.rows == old(store.rows)
        && toast == Some(Error(MessageOr(failure.value, StatusUpdateFailed)))
        && warranties == old(warranties) && selectedWarranty == old(selectedWarranty)
        && loading == old(loading)
      ensures failure.None? ==>
        && store.rows == SetStatus(old(store.rows), id, newStatus)
        && toast == Some(Success(StatusUpdated))
        && selectedWarranty == None && !loading
        && warranties == if reloadFailure.None? then store.Select() else old(warranties)
      ensures user == old(user) && route == old(route)
      ensures searchTerm == old(searchTerm) && statusFilter == old(statusFilter)
    {
      var err := store.UpdateStatus(id, newStatus, failure);
      if err.Some? {
        toast := Some(Error(MessageOr(err.value, StatusUpdateFailed)));
      } else {
        toast := Some(Success(StatusUpdated));
        LoadWarranties(store, reloadFailure);
        selectedWarranty := None;
      }
    }
  }

  /** After a successful update and reload, the warranty with that id shows
      the new status, and every warranty's number is the one it had. */
  lemma ReloadShowsNewStatus(rows: seq<Row>, profiles: map<string, ProfileSummary>, i: nat, s: Status)
    requires i < |rows|
    ensures var ws := Join(SetStatus(rows, rows[i].id, s), profiles);
      && |ws| == |rows| && ws[i].row.status == s
      && forall j | 0 <= j < |rows| :: ws[j].row.number == rows[j].number
  {
  }
}
