/**
 The search filter of the users context (`applySearchFilter`): a whitespace-only term
 shows every user, any other term keeps, in their original order, the users whose
 lowercased name or email contains the lowercased term. The term itself is not trimmed
 before matching.
 */
module Search {
  import opened Strings
  import opened Users

  /** The filter's test on one user, given the already lowercased term. */
  predicate Matches(u: User, lowerTerm: string)
  {
    Includes(Lower(u.name), lowerTerm) || Includes(Lower(u.email), lowerTerm)
  }

  /** `a` can be obtained from `b` by deleting elements. */
  predicate IsSubsequence(a: seq<User>, b: seq<User>)
    decreases |b|
  {
    if |a| == 0 then true
    else if |b| == 0 then false
    else (a[0] == b[0] && IsSubsequence(a[1..], b[1..])) || IsSubsequence(a, b[1..])
  }

  /** `users.filter(...)` with the test above. */
  function FilterMatching(users: seq<User>, lowerTerm: string): (r: seq<User>)
    ensures IsSubsequence(r, users)
    ensures forall i :: 0 <= i < |r| ==> Matches(r[i], lowerTerm)
    ensures forall u :: multiset(r)[u] == if Matches(u, lowerTerm) then multiset(users)[u] else 0
    decreases |users|
  {
    if |users| == 0 then []
    else
      assert users == [users[0]] + users[1..];
      var rest := FilterMatching(users[1..], lowerTerm);
      if Matches(users[0], lowerTerm) then [users[0]] + rest else rest
  }

  /** The term the source tests with `!term.trim()`. */
  predicate IsBlank(term: string)
  {
    Trim(term) == ""
  }

  /** `applySearchFilter(term)` over the full collection `users`. */
  function ApplySearchFilter(users: seq<User>, term: string): (r: seq<User>)
    ensures AllWhitespace(term) ==> r == users
    ensures !AllWhitespace(term) ==>
      && IsSubsequence(r, users)
      && (forall i :: 0 <= i < |r| ==> Matches(r[i], Lower(term)))
      && (forall u :: multiset(r)[u] == if Matches(u, Lower(term)) then multiset(users)[u] else 0)
  {
    TrimEmptyIffAllWhitespace(term);
    if IsBlank(term) then users else FilterMatching(users, Lower(term))
  }

  /** A user matches exactly when the lowercased term occurs in its lowercased name or email. */
  lemma MatchesIffOccurs(u: User, term: string)
    ensures Matches(u, Lower(term)) <==>
      (exists i :: OccursAt(Lower(u.name), Lower(term), i)) || (exists i :: OccursAt(Lower(u.email), Lower(term), i))
  {
    IncludesIffOccurs(Lower(u.name), Lower(term));
    IncludesIffOccurs(Lower(u.email), Lower(term));
  }

  /** The search is case-insensitive: two terms that lowercase alike give the same view. */
  lemma SearchIgnoresCase(users: seq<User>, t1: string, t2: string)
    requires Lower(t1) == Lower(t2)
    ensures ApplySearchFilter(users, t1) == ApplySearchFilter(users, t2)
  {
    LowerKeepsWhitespace(t1);
    LowerKeepsWhitespace(t2);
    TrimEmptyIffAllWhitespace(t1);
    TrimEmptyIffAllWhitespace(t2);
  }
}
