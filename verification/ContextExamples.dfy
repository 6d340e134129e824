/**
 A worked run of the users context: after a search, cycling a column back to unsorted
 brings a non-matching user back into view while the search term is still set.
 */
module ContextExamples {
  import opened Wrappers
  import opened Strings
  import opened Users
  import opened Search
  import opened UsersContext

  /** Two users: only the first matches the term "AL". */
  const Alice: User :=
    User(1, "Alice", "alice", "al@x.io", Address("", "", "", "", Geo("", "")), "", "", Company("", "", ""))
  const Bob: User :=
    User(2, "Bob", "bob", "bo@x.io", Address("", "", "", "", Geo("", "")), "", "", Company("", "", ""))

  lemma AliceMatches()
    ensures Matches(Alice, "al")
  {
    assert Lower("Alice") == "alice";
    assert "al" <= "alice";
  }

  lemma BobDoesNotMatch()
    ensures !Matches(Bob, "al")
  {
    assert Lower("Bob") == "bob";
    assert Lower("bo@x.io") == "bo@x.io";
    IncludesNeedsFirstChar("bob", "al");
    IncludesNeedsFirstChar("bo@x.io", "al");
  }

  lemma TermIsNotBlank()
    ensures Lower("AL") == "al"
    ensures !IsBlank("AL")
  {
    assert !IsWhitespace("AL"[0]);
    TrimEmptyIffAllWhitespace("AL");
  }

  lemma FilterKeepsFirst(a: User, b: User, lowerTerm: string)
    requires Matches(a, lowerTerm) && !Matches(b, lowerTerm)
    ensures FilterMatching([a, b], lowerTerm) == [a]
  {
    assert [a, b][1..] == [b];
    assert FilterMatching([b], lowerTerm) == [];
  }

  lemma SearchKeepsOnlyAlice()
    ensures HandleSearch(FetchAllUsers(Init(), Some([Alice, Bob])), "AL").filteredUsers == [Alice]
  {
    AliceMatches();
    BobDoesNotMatch();
    TermIsNotBlank();
    FilterKeepsFirst(Alice, Bob, "al");
  }

  /** Returning to unsorted shows the full collection even while a search term is set. */
  lemma UnsortedViewIgnoresSearchTerm()
    ensures var searched := HandleSearch(FetchAllUsers(Init(), Some([Alice, Bob])), "AL");
            var r := HandleSort(HandleSort(HandleSort(searched, NameKey), NameKey), NameKey);
            && searched.filteredUsers == [Alice]
            && r.searchTerm == "AL"
            && r.filteredUsers == [Alice, Bob]
            && !Matches(Bob, Lower("AL"))
  {
    BobDoesNotMatch();
    TermIsNotBlank();
    SearchKeepsOnlyAlice();
    var searched := HandleSearch(FetchAllUsers(Init(), Some([Alice, Bob])), "AL");
    assert searched.users == [Alice, Bob] && searched.sortConfig.key.None?;
    ThreeClicksRestoreUsers(searched, NameKey);
  }
}
