/** The users list screen as a state machine. The screen holds one page of
    users fetched from the server and patches that page in place after each
    create, update or delete; it never re-fetches after a mutation. Each
    handler is one atomic transition, and the settled service call it awaits
    is an input. */
module UsersPage {
  import opened Values
  import opened UserList

  /** Page size and sort key of every `getActiveUsers` call. */
  const PageSize: int := 10
  const SortField: string := "name"

  /** The body of a page response. */
  datatype UsersResponse = UsersResponse(content: seq<User>, totalPages: int, number: int)

  /** The arguments of one `getActiveUsers(page, size, sort)` call. */
  datatype PageRequest = PageRequest(page: int, size: int, sort: string)

  /** The screen's state hooks. */
  datatype Screen = Screen(
    users: seq<User>,
    loading: bool,
    currentPage: int,
    totalPages: int,
    isCreateOpen: bool,
    selectedUser: Option<User>,
    isUserDetailsOpen: bool)

  /** What the user can do on the rendered screen, each with the settled
      result of the service call it makes (if any). */
  datatype Action =
    | SetCreateOpen(open: bool)                          // create dialog trigger / dismissal
    | CloseDetails                                       // details dialog dismissal (it has no trigger)
    | CreateUser(result: Settled<User>)                  // save in the create dialog
    | EditUser(user: User)                               // edit button of a table row
    | UpdateUser(updated: User, ack: Settled<()>)        // save in the details dialog
    | DeleteUser(userId: string, ack: Settled<()>)       // delete in a row or the details dialog
    | ChangePage(page: int)                              // pagination control

  /** The state when the screen mounts. */
  function Initial(): (r: Screen)
    ensures r.users == [] && r.loading
    ensures r.currentPage == 0 && r.totalPages == 0
    ensures !r.isCreateOpen && !r.isUserDetailsOpen && r.selectedUser.None?
  {
    Screen([], true, 0, 0, false, None, false)
  }

  // ---------------------------------------------------------------------------
  // Fetching a page
  // ---------------------------------------------------------------------------

  /** The call `fetchUsers` makes: the current page, sorted by name. */
  function FetchRequest(s: Screen): (r: PageRequest)
    ensures r.page == s.currentPage && r.size == 10 && r.sort == "name"
  {
    PageRequest(s.currentPage, PageSize, SortField)
  }

  /** `fetchUsers` begins: the spinner replaces the screen. */
  function BeginFetch(s: Screen): (r: Screen)
    ensures r.loading
    ensures r.(loading := s.loading) == s
  {
    s.(loading := true)
  }

  /** `fetchUsers` ends. On success the page window is replaced wholesale by
      the response; on failure it is kept. Loading ends either way. */
  function EndFetch(s: Screen, result: Settled<UsersResponse>): (r: Screen)
    ensures !r.loading
    ensures result.Fulfilled? ==>
              && r.users == result.value.content
              && r.totalPages == result.value.totalPages
              && r.currentPage == result.value.number
    ensures result.Rejected? ==> r.users == s.users && r.totalPages == s.totalPages && r.currentPage == s.currentPage
    ensures r.isCreateOpen == s.isCreateOpen && r.isUserDetailsOpen == s.isUserDetailsOpen
    ensures r.selectedUser == s.selectedUser
  {
    match result
    case Fulfilled(data) =>
      s.(users := data.content, totalPages := data.totalPages, currentPage := data.number, loading := false)
    case Rejected =>
      s.(loading := false)
  }

  /** The effect keyed on `currentPage`: whenever a transition changes the
      current page, `fetchUsers` runs again and begins loading. */
  function Commit(before: Screen, after: Screen): (r: Screen)
    ensures r.(loading := after.loading) == after
    ensures r.loading <==> after.loading || after.currentPage != before.currentPage
  {
    if after.currentPage != before.currentPage then BeginFetch(after) else after
  }

  // ---------------------------------------------------------------------------
  // Handlers
  // ---------------------------------------------------------------------------

  /** `handleCreateUser`: on success the user the server returned is appended
      and the create dialog closes; on failure nothing changes. */
  function CreateDone(s: Screen, result: Settled<User>): (r: Screen)
    ensures result.Rejected? ==> r == s
    ensures result.Fulfilled? ==>
              && |r.users| == |s.users| + 1
              && r.users[..|s.users|] == s.users
              && r.users[|s.users|] == result.value
              && !r.isCreateOpen
              && r.(users := s.users, isCreateOpen := s.isCreateOpen) == s
  {
    match result
    case Fulfilled(created) => s.(users := s.users + [created], isCreateOpen := false)
    case Rejected => s
  }

  /** `handleDeleteUser`: on success every user with the id is dropped from
      the page and nothing else changes; on failure nothing changes. */
  function DeleteDone(s: Screen, userId: string, ack: Settled<()>): (r: Screen)
    ensures ack.Rejected? ==> r == s
    ensures ack.Fulfilled? ==>
              && (forall u :: u in r.users <==> u in s.users && u.id != userId)
              && r.(users := s.users) == s
  {
    match ack
    case Fulfilled(_) => s.(users := RemoveById(s.users, userId))
    case Rejected => s
  }

  /** `handleEditUser`: the user is selected and the details dialog opens. */
  function SelectForEdit(s: Screen, user: User): (r: Screen)
    ensures r.selectedUser == Some(user) && r.isUserDetailsOpen
    ensures r.(selectedUser := s.selectedUser, isUserDetailsOpen := s.isUserDetailsOpen) == s
  {
    s.(selectedUser := Some(user), isUserDetailsOpen := true)
  }

  /** `handleUpdateUser`: on success every user with `updated`'s id is
      replaced by `updated` in place and the details dialog closes; on
      failure nothing changes. */
  function UpdateDone(s: Screen, updated: User, ack: Settled<()>): (r: Screen)
    ensures ack.Rejected? ==> r == s
    ensures ack.Fulfilled? ==>
              && |r.users| == |s.users|
              && (forall i :: 0 <= i < |s.users| ==>
                    r.users[i] == if s.users[i].id == updated.id then updated else s.users[i])
              && !r.isUserDetailsOpen
              && r.(users := s.users, isUserDetailsOpen := s.isUserDetailsOpen) == s
  {
    match ack
    case Fulfilled(_) => s.(users := ReplaceById(s.users, updated), isUserDetailsOpen := false)
    case Rejected => s
  }

  /** `handlePageChange`: only the current page changes. */
  function PageChange(s: Screen, page: int): (r: Screen)
    ensures r.currentPage == page
    ensures r.(currentPage := s.currentPage) == s
  {
    s.(currentPage := page)
  }

  // ---------------------------------------------------------------------------
  // The rendered screen
  // ---------------------------------------------------------------------------

  /** Whether the screen as rendered offers the action. While loading only the
      spinner is rendered; the create form exists only inside the open create
      dialog, and the details form only inside the open details dialog once
      a user is selected. */
  predicate Offered(s: Screen, a: Action)
  {
    && !s.loading
    && match a
       case CreateUser(_) => s.isCreateOpen
       case UpdateUser(_, _) => s.isUserDetailsOpen && s.selectedUser.Some?
       case _ => true
  }

  /** The handler an action runs, before the page effect. */
  function Apply(s: Screen, a: Action): Screen
  {
    match a
    case SetCreateOpen(open) => s.(isCreateOpen := open)
    case CloseDetails => s.(isUserDetailsOpen := false)
    case CreateUser(result) => CreateDone(s, result)
    case EditUser(user) => SelectForEdit(s, user)
    case UpdateUser(updated, ack) => UpdateDone(s, updated, ack)
    case DeleteUser(userId, ack) => DeleteDone(s, userId, ack)
    case ChangePage(page) => PageChange(s, page)
  }

  /** One user action on the screen, followed by the page effect. Nothing
      happens while loading or from a form whose dialog is closed; only a
      page change touches the pagination or starts a fetch, and only edit
      selection opens the details dialog. */
  function Step(s: Screen, a: Action): (r: Screen)
    ensures s.loading ==> r == s
    ensures a.CreateUser? && !s.isCreateOpen ==> r == s
    ensures a.UpdateUser? && !(s.isUserDetailsOpen && s.selectedUser.Some?) ==> r == s
    ensures !a.ChangePage? ==>
              r.currentPage == s.currentPage && r.totalPages == s.totalPages && r.loading == s.loading
    ensures !a.EditUser? && !s.isUserDetailsOpen ==> !r.isUserDetailsOpen
    ensures r.users != s.users ==> !s.loading && (a.CreateUser? || a.UpdateUser? || a.DeleteUser?)
  {
    if Offered(s, a) then Commit(s, Apply(s, a)) else s
  }

  /** A fetch settles, followed by the page effect. */
  function Settle(s: Screen, result: Settled<UsersResponse>): Screen
  {
    Commit(s, EndFetch(s, result))
  }

  // ---------------------------------------------------------------------------
  // Properties of the screen
  // ---------------------------------------------------------------------------

  /** While loading nothing the user does has any effect; in particular no
      second fetch can be started while one is in flight. */
  lemma LoadingBlocksActions(s: Screen, a: Action)
    requires s.loading
    ensures Step(s, a) == s
  {
  }

  /** Create, update, delete, edit selection and the dialog toggles never
      touch the pagination state, so none of them starts a fetch. */
  lemma MutationsKeepPagination(s: Screen, a: Action)
    requires !a.ChangePage?
    ensures Step(s, a).currentPage == s.currentPage
    ensures Step(s, a).totalPages == s.totalPages
    ensures Step(s, a).loading == s.loading
  {
  }

  /** A failed create, update or delete leaves the whole screen unchanged. */
  lemma FailedMutationChangesNothing(s: Screen, a: Action)
    requires || (a.CreateUser? && a.result.Rejected?)
             || (a.UpdateUser? && a.ack.Rejected?)
             || (a.DeleteUser? && a.ack.Rejected?)
    ensures Step(s, a) == s
  {
  }

  /** Changing to another page starts exactly one fetch, of that page; asking
      for the page already shown does nothing. */
  lemma PageChangeFetches(s: Screen, page: int)
    requires !s.loading
    ensures page != s.currentPage ==>
              && Step(s, ChangePage(page)).loading
              && FetchRequest(Step(s, ChangePage(page))) == PageRequest(page, PageSize, SortField)
              && Step(s, ChangePage(page)).users == s.users
    ensures page == s.currentPage ==> Step(s, ChangePage(page)) == s
  {
  }

  /** A fetch that settles ends loading, unless the server answered with a
      page number other than the one shown, in which case the effect fetches
      that page next. A failed fetch always ends loading. */
  lemma SettleEndsLoading(s: Screen, result: Settled<UsersResponse>)
    ensures Settle(s, result).loading <==> result.Fulfilled? && result.value.number != s.currentPage
    ensures Settle(s, result).loading ==> FetchRequest(Settle(s, result)).page == result.value.number
  {
  }

  /** The requested page comes back as the page shown: a successful fetch of
      page p whose response reports p leaves the screen ready on page p with
      exactly the returned users. */
  lemma FetchShowsRequestedPage(s: Screen, data: UsersResponse)
    requires data.number == FetchRequest(s).page
    ensures var r := Settle(BeginFetch(s), Fulfilled(data));
            && !r.loading && r.currentPage == s.currentPage
            && r.users == data.content && r.totalPages == data.totalPages
  {
  }

  /** Mounting fetches page 0 and, when the server reports page 0, lands
      ready on it. */
  lemma MountFetchesFirstPage(data: UsersResponse)
    requires data.number == 0
    ensures FetchRequest(Initial()) == PageRequest(0, 10, "name")
    ensures var r := Settle(Initial(), Fulfilled(data));
            !r.loading && r.users == data.content && r.totalPages == data.totalPages && r.currentPage == 0
  {
  }

  /** A successful delete leaves no user with the id; every other user keeps
      its multiplicity and the survivors keep their relative order. */
  lemma DeleteIsFilter(s: Screen, userId: string)
    requires !s.loading
    ensures var r := Step(s, DeleteUser(userId, Fulfilled(())));
            && (forall u :: u in r.users ==> u.id != userId)
            && (forall u: User :: u.id != userId ==> multiset(r.users)[u] == multiset(s.users)[u])
            && IsSubsequence(r.users, s.users)
            && r.currentPage == s.currentPage && r.totalPages == s.totalPages
  {
    RemoveByIdCounts(s.users, userId);
    RemoveByIdKeepsOrder(s.users, userId);
  }

  /** Deleting, by its id, a user that the server just created and whose id
      was new to the page restores the page's list. */
  lemma DeleteUndoesCreate(s: Screen, created: User)
    requires !s.loading && s.isCreateOpen
    requires forall u :: u in s.users ==> u.id != created.id
    ensures Step(Step(s, CreateUser(Fulfilled(created))), DeleteUser(created.id, Fulfilled(()))).users == s.users
  {
    RemoveByIdAppend(s.users, [created], created.id);
    RemoveByIdUnchanged(s.users, created.id);
  }

  /** After a successful create the returned user appears once more than
      before, at the end, and the create dialog is closed. */
  lemma CreateAppendsServerUser(s: Screen, created: User)
    requires !s.loading && s.isCreateOpen
    ensures var r := Step(s, CreateUser(Fulfilled(created)));
            && r.users == s.users + [created]
            && multiset(r.users)[created] == multiset(s.users)[created] + 1
            && !r.isCreateOpen
  {
  }

  /** Saving the details of the selected user, when the server accepts it,
      puts the saved value at exactly the positions of its id, keeps the
      list's length and closes the dialog. */
  lemma UpdateReplacesMatching(s: Screen, updated: User)
    requires !s.loading && s.isUserDetailsOpen && s.selectedUser.Some?
    ensures var r := Step(s, UpdateUser(updated, Fulfilled(())));
            && |r.users| == |s.users|
            && (forall i :: 0 <= i < |s.users| ==> (r.users[i] == updated || r.users[i] == s.users[i]))
            && (forall i :: 0 <= i < |s.users| && s.users[i].id == updated.id ==> r.users[i] == updated)
            && (forall i :: 0 <= i < |s.users| && s.users[i].id != updated.id ==> r.users[i] == s.users[i])
            && !r.isUserDetailsOpen && r.selectedUser == s.selectedUser
  {
  }

  /** Delete "1" on page 0 of 3 holding users "1" (A) and "2" (B) leaves just
      B, still on page 0 of 3. */
  lemma DeleteScenario(a: User, b: User)
    requires a.id == "1" && a.name == "A" && b.id == "2" && b.name == "B"
    ensures var s := Screen([a, b], false, 0, 3, false, None, false);
            var r := Step(s, DeleteUser("1", Fulfilled(())));
            r.users == [b] && r.currentPage == 0 && r.totalPages == 3 && !r.loading
  {
    var s := Screen([a, b], false, 0, 3, false, None, false);
    assert [a, b][1..] == [b];
    assert RemoveById([b], "1") == [b] + RemoveById([], "1");
  }
}
