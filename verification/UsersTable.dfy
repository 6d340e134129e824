/**
 The table view over the users context: its sortable headers, the arrow shown next to
 the active header, and the message shown when the view is empty.
 */
module UsersTable {
  import opened Wrappers
  import opened Strings
  import opened Users
  import opened Sorting
  import opened UsersContext

  /** The arrow rendered next to a header: `Up` is ↑, `Down` is ↓. */
  datatype Indicator = Up | Down

  /** `getSortIndicator(column)`. */
  function SortIndicator(config: SortConfig, column: SortKey): (r: Option<Indicator>)
    ensures config.key != Some(column) ==> r.None?
    ensures r == Some(Up) <==> config.key == Some(column) && config.direction == Some(Ascending)
    ensures r == Some(Down) <==> config.key == Some(column) && config.direction == Some(Descending)
    ensures config.direction.None? ==> r.None?
  {
    if config.key != Some(column) then None
    else
      match config.direction
      case Some(Ascending) => Some(Up)
      case Some(Descending) => Some(Down)
      case None => None
  }

  /** The header cells, left to right: the only keys the table lets a user sort on. */
  const Columns: seq<SortKey> := [NameKey, UsernameKey, EmailKey, WebsiteKey]

  /** `handleSortClick` on the header in position `i`. */
  function ClickHeader(s: State, i: nat): (r: State)
    requires i < |Columns|
    ensures r.sortConfig.key == Some(Columns[i])
    ensures var d := r.sortConfig.direction;
      && (d == Some(Ascending) ==>
            forall a, b :: 0 <= a < b < |r.filteredUsers| ==>
              var va, vb := KeyValue(Columns[i], r.filteredUsers[a]), KeyValue(Columns[i], r.filteredUsers[b]);
              va == vb || ValueLess(va, vb))
      && (d == Some(Descending) ==>
            forall a, b :: 0 <= a < b < |r.filteredUsers| ==>
              var va, vb := KeyValue(Columns[i], r.filteredUsers[a]), KeyValue(Columns[i], r.filteredUsers[b]);
              va == vb || ValueLess(vb, va))
  {
    HandleSort(s, Columns[i])
  }

  /** Three clicks on one header bring its arrow back to what it was; starting from another
      column, they clear the arrow and show the whole collection unsorted. */
  lemma ThreeClicksOnHeader(s: State, i: nat)
    requires i < |Columns|
    ensures var r := ClickHeader(ClickHeader(ClickHeader(s, i), i), i);
      && SortIndicator(r.sortConfig, Columns[i]) == SortIndicator(s.sortConfig, Columns[i])
      && (s.sortConfig.key != Some(Columns[i]) ==>
            SortIndicator(r.sortConfig, Columns[i]).None? && r.filteredUsers == s.users)
  {
  }

  const NoMatchingUsers: string := "No matching users found."
  const NoUsersAvailable: string := "No users available."

  /** The text of the single row shown instead of users, if any. */
  function EmptyMessage(filteredUsers: seq<User>, searchTerm: string): (r: Option<string>)
    ensures r.Some? <==> |filteredUsers| == 0
    ensures r.Some? ==> (r.value == NoMatchingUsers <==> searchTerm != "")
    ensures r.Some? ==> (r.value == NoUsersAvailable <==> searchTerm == "")
  {
    if |filteredUsers| == 0 then
      Some(if searchTerm != "" then NoMatchingUsers else NoUsersAvailable)
    else None
  }

  /** With no users loaded, searching for blanks shows the no-match message, although the
      blank term filtered nothing out. */
  lemma BlankSearchOnEmptyCollection(s: State, term: string)
    requires s.users == [] && term != ""
    requires AllWhitespace(term)
    ensures var r := HandleSearch(s, term);
      EmptyMessage(r.filteredUsers, r.searchTerm) == Some(NoMatchingUsers)
  {
  }
}
