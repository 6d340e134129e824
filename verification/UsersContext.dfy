/**
 The users context provider: the user collection, the derived view shown in the table,
 the search term, the sort descriptor and the fetch flags, with the transitions the
 provider exposes. Each transition is one atomic step from state to state.
 */
module UsersContext {
  import opened Wrappers
  import opened Strings
  import opened Users
  import opened Sorting
  import opened Search

  /** `sortConfig`: the last clicked key and its direction, `null` being `None`. */
  datatype SortConfig = SortConfig(key: Option<SortKey>, direction: Option<Direction>)

  datatype State = State(
    users: seq<User>,
    filteredUsers: seq<User>,
    loading: bool,
    error: Option<string>,
    searchTerm: string,
    sortConfig: SortConfig)

  /** The provider's initial state. */
  function Init(): State
  {
    State([], [], false, None, "", SortConfig(None, None))
  }

  /** The error text a failed fetch leaves behind. */
  const FetchFailedMessage: string := "Failed to fetch users"

  /** The view never holds a user the collection does not hold (counting duplicates). */
  predicate ViewWithinUsers(s: State)
  {
    multiset(s.filteredUsers) <= multiset(s.users)
  }

  // ---------------------------------------------------------------- fetch

  /** `fetchAllUsers` before its request settles: only `loading` changes. */
  function FetchStarted(s: State): (r: State)
    ensures r.loading
    ensures r.(loading := s.loading) == s
  {
    s.(loading := true)
  }

  /** `fetchAllUsers` once the request settles, `Some(data)` on success, `None` on failure. */
  function FetchSettled(s: State, outcome: Option<seq<User>>): (r: State)
  {
    match outcome
    case Some(data) => s.(users := data, filteredUsers := data, error := None, loading := false)
    case None => s.(error := Some(FetchFailedMessage), loading := false)
  }

  /** The whole of `fetchAllUsers`, the remote result being the parameter `outcome`. */
  function FetchAllUsers(s: State, outcome: Option<seq<User>>): (r: State)
    ensures !r.loading
    ensures outcome.Some? ==> r.users == outcome.value && r.filteredUsers == outcome.value && r.error.None?
    ensures outcome.None? ==> r.users == s.users && r.filteredUsers == s.filteredUsers
                              && r.error == Some(FetchFailedMessage)
    ensures r.searchTerm == s.searchTerm && r.sortConfig == s.sortConfig
  {
    FetchSettled(FetchStarted(s), outcome)
  }

  // ---------------------------------------------------------------- sort

  /** The direction `handleSort` moves to when `key` is clicked. */
  function NextDirection(config: SortConfig, key: SortKey): Option<Direction>
  {
    if config.key == Some(key) && config.direction == Some(Ascending) then Some(Descending)
    else if config.key == Some(key) && config.direction == Some(Descending) then None
    else Some(Ascending)
  }

  /** The descriptor `handleSort` stores when `key` is clicked. */
  function NextConfig(config: SortConfig, key: SortKey): SortConfig
  {
    SortConfig(Some(key), NextDirection(config, key))
  }

  /** `handleSort(key)` (exposed as `setSortConfig`). */
  function HandleSort(s: State, key: SortKey): (r: State)
    ensures r.sortConfig == NextConfig(s.sortConfig, key)
    ensures r.sortConfig.key == Some(key)
    ensures s.sortConfig.key != Some(key) ==> r.sortConfig.direction == Some(Ascending)
    ensures r.sortConfig.direction.None? ==> r.filteredUsers == s.users
    ensures r.sortConfig.direction.Some? ==>
      && multiset(r.filteredUsers) == multiset(s.filteredUsers)
      && Sorted(key, r.sortConfig.direction.value, r.filteredUsers)
    ensures r.sortConfig.direction.Some? && key.IsComposite() ==> r.filteredUsers == s.filteredUsers
    ensures r.users == s.users && r.searchTerm == s.searchTerm
    ensures r.loading == s.loading && r.error == s.error
  {
    var direction := NextDirection(s.sortConfig, key);
    var s' := s.(sortConfig := NextConfig(s.sortConfig, key));
    match direction
    case None => s'.(filteredUsers := s.users)
    case Some(d) =>
      SortUsersSorted(key, d, s.filteredUsers);
      SortCompositeIsIdentity(key, d, s.filteredUsers);
      s'.(filteredUsers := SortUsers(key, d, s.filteredUsers))
  }

  /** The sort in `handleSort` is stable: users with equal key values keep the relative
      order they had in the previous view. */
  lemma HandleSortStable(s: State, key: SortKey, z: User)
    ensures var r := HandleSort(s, key);
            r.sortConfig.direction.Some? ==>
              SameKeyAs(key, z, r.filteredUsers) == SameKeyAs(key, z, s.filteredUsers)
  {
    match NextDirection(s.sortConfig, key)
    case None =>
    case Some(d) => SortUsersStable(key, d, s.filteredUsers, z);
  }

  /** Repeated clicks on one key cycle ascending, descending, unsorted, ascending again. */
  lemma SortDirectionCycles(c: SortConfig, key: SortKey)
    ensures var c1 := NextConfig(c, key);
            var c2 := NextConfig(c1, key);
            var c3 := NextConfig(c2, key);
            && (c.key != Some(key) ==> c1.direction == Some(Ascending))
            && (c1.direction == Some(Ascending) ==> c2.direction == Some(Descending))
            && (c1.direction == Some(Descending) ==> c2.direction.None?)
            && (c1.direction.None? ==> c2.direction == Some(Ascending))
            && NextConfig(c3, key) == c1
  {
  }

  /** From a state not sorted on `key`, three clicks on it return to the unsorted full list. */
  lemma ThreeClicksRestoreUsers(s: State, key: SortKey)
    requires s.sortConfig.key != Some(key)
    ensures var r := HandleSort(HandleSort(HandleSort(s, key), key), key);
            r.sortConfig == SortConfig(Some(key), None) && r.filteredUsers == s.users
  {
  }

  // ---------------------------------------------------------------- search

  /** `handleSearch(term)` (exposed as `setSearchTerm`): records the term and filters the
      full collection, whatever the current view or sort. */
  function HandleSearch(s: State, term: string): (r: State)
    ensures r.searchTerm == term
    ensures r.users == s.users && r.sortConfig == s.sortConfig
    ensures r.loading == s.loading && r.error == s.error
    ensures AllWhitespace(term) ==> r.filteredUsers == s.users
    ensures !AllWhitespace(term) ==>
      && IsSubsequence(r.filteredUsers, s.users)
      && (forall u :: multiset(r.filteredUsers)[u] == if Matches(u, Lower(term)) then multiset(s.users)[u] else 0)
  {
    s.(searchTerm := term, filteredUsers := ApplySearchFilter(s.users, term))
  }

  /** The search result depends on the collection and the term only: the current view and
      the active sort play no part. */
  lemma SearchIgnoresView(s: State, t: State, term: string)
    requires s.users == t.users
    ensures HandleSearch(s, term).filteredUsers == HandleSearch(t, term).filteredUsers
  {
  }

  // ---------------------------------------------------------------- add

  /** The largest id in a non-empty collection (`Math.max(...users.map(u => u.id))`). */
  function MaxId(users: seq<User>): (m: int)
    requires |users| > 0
    ensures forall i :: 0 <= i < |users| ==> users[i].id <= m
    ensures exists i :: 0 <= i < |users| && users[i].id == m
    decreases |users|
  {
    if |users| == 1 then users[0].id
    else
      var rest := MaxId(users[1..]);
      assert forall i :: 1 <= i < |users| ==> users[i] == users[1..][i - 1];
      if users[0].id > rest then users[0].id else rest
  }

  /** The id `addUser` gives a new user. */
  function NewId(users: seq<User>): (id: int)
    ensures forall i :: 0 <= i < |users| ==> users[i].id < id
    ensures |users| == 0 ==> id == 1
    ensures |users| > 0 ==> exists i :: 0 <= i < |users| && users[i].id == id - 1
  {
    if |users| > 0 then MaxId(users) + 1 else 1
  }

  /** The record `addUser` builds from the form data. */
  function NewUser(id: int, form: UserFormData): User
  {
    User(
      id, form.name, form.username, form.email,
      Address("", "", "", "", Geo("", "")),
      form.phone, form.website,
      Company(form.company, "", ""))
  }

  /** No two users in `users` share an id. */
  predicate DistinctIds(users: seq<User>)
  {
    forall i, j :: 0 <= i < j < |users| ==> users[i].id != users[j].id
  }

  /** `addUser(form)`: appends the new record to both the collection and the view. */
  function AddUser(s: State, form: UserFormData): (r: State)
    ensures |r.users| == |s.users| + 1 && r.users[..|s.users|] == s.users
    ensures |r.filteredUsers| == |s.filteredUsers| + 1 && r.filteredUsers[..|s.filteredUsers|] == s.filteredUsers
    ensures var u := r.users[|s.users|];
      && r.filteredUsers[|s.filteredUsers|] == u
      && (forall i :: 0 <= i < |s.users| ==> s.users[i].id < u.id)
      && (|s.users| == 0 ==> u.id == 1)
      && (|s.users| > 0 ==> u.id == MaxId(s.users) + 1)
      && u.name == form.name && u.username == form.username && u.email == form.email
      && u.phone == form.phone && u.website == form.website
      && u.company == Company(form.company, "", "")
      && u.address == Address("", "", "", "", Geo("", ""))
    ensures r.searchTerm == s.searchTerm && r.sortConfig == s.sortConfig
    ensures r.loading == s.loading && r.error == s.error
  {
    var u := NewUser(NewId(s.users), form);
    s.(users := s.users + [u], filteredUsers := s.filteredUsers + [u])
  }

  /** Adding keeps ids distinct: the new id is fresh. */
  lemma AddUserKeepsIdsDistinct(s: State, form: UserFormData)
    requires DistinctIds(s.users)
    ensures DistinctIds(AddUser(s, form).users)
  {
    var r := AddUser(s, form);
    forall i, j | 0 <= i < j < |r.users|
      ensures r.users[i].id != r.users[j].id
    {
      if j < |s.users| {
        assert r.users[i] == s.users[i] && r.users[j] == s.users[j];
      } else {
        assert r.users[i] == s.users[i];
      }
    }
  }

  // ---------------------------------------------------------------- runs

  /** One call into the provider. */
  datatype Event =
    | Fetch(outcome: Option<seq<User>>)
    | Sort(key: SortKey)
    | Search(term: string)
    | Add(form: UserFormData)

  function Step(s: State, e: Event): State
  {
    match e
    case Fetch(outcome) => FetchAllUsers(s, outcome)
    case Sort(key) => HandleSort(s, key)
    case Search(term) => HandleSearch(s, term)
    case Add(form) => AddUser(s, form)
  }

  function Run(s: State, events: seq<Event>): State
    decreases |events|
  {
    if |events| == 0 then s else Run(Step(s, events[0]), events[1..])
  }

  lemma StepKeepsViewWithinUsers(s: State, e: Event)
    requires ViewWithinUsers(s)
    ensures ViewWithinUsers(Step(s, e))
  {
    match e
    case Search(term) => SearchKeepsViewWithinUsers(s, term);
    case Add(form) => AddKeepsViewWithinUsers(s, form);
    case _ =>
  }

  lemma SearchKeepsViewWithinUsers(s: State, term: string)
    ensures ViewWithinUsers(HandleSearch(s, term))
  {
    var r := HandleSearch(s, term);
    if !AllWhitespace(term) {
      assert forall u :: multiset(r.filteredUsers)[u] <= multiset(s.users)[u];
    }
  }

  lemma AddKeepsViewWithinUsers(s: State, form: UserFormData)
    requires ViewWithinUsers(s)
    ensures ViewWithinUsers(AddUser(s, form))
  {
    var r := AddUser(s, form);
    assert r.users == s.users + [r.users[|s.users|]];
    assert r.filteredUsers == s.filteredUsers + [r.filteredUsers[|s.filteredUsers|]];
  }

  /** Whatever sequence of calls is made from the initial state, the view stays within
      the collection. */
  lemma {:induction false} RunKeepsViewWithinUsers(s: State, events: seq<Event>)
    requires ViewWithinUsers(s)
    ensures ViewWithinUsers(Run(s, events))
    decreases |events|
  {
    if |events| > 0 {
      StepKeepsViewWithinUsers(s, events[0]);
      RunKeepsViewWithinUsers(Step(s, events[0]), events[1..]);
    }
  }

  lemma ReachableViewWithinUsers(events: seq<Event>)
    ensures ViewWithinUsers(Run(Init(), events))
  {
    RunKeepsViewWithinUsers(Init(), events);
  }
}
