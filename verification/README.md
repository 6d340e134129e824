# Users directory state container — Dafny model

This project models the client-side logic of a browser user directory (a React single-page
application). The app fetches user records from a remote API. It shows them in a table that
can be searched and sorted, and a form lets the visitor append a user locally. Only the state
container, `UsersProvider`, holds real logic. It keeps:

- the fetched collection `users`;
- the derived view `filteredUsers`;
- the search term;
- the tri-state sort descriptor `sortConfig`;
- the `loading` and `error` flags.

Its transitions are fetch, sort, search and add. Next to it the model covers two small pieces:
the add-user form's validation schema and submit handler, and the table's sort arrow,
sortable headers and empty-view message.

Every transition is a pure function from state to state over immutable records:

- `Wrappers.dfy`: `Option`, used for every `null`-able value.
- `Strings.dfy`: the JavaScript string operations the container uses. These are `<` on strings,
  `includes`, `trim` (with the exact ECMAScript whitespace set) and `toLowerCase` (ASCII letters only).
- `Users.dfy`: the `User` record, the form data, `keyof User` as `SortKey`, and the values the comparator reads.
- `Sorting.dfy`: the `handleSort` comparator, and the stable sort that `Array.prototype.sort` performs with it.
- `Search.dfy`: `applySearchFilter`.
- `UsersContext.dfy`: the provider state and its transitions. It also has `Step`/`Run` over a sequence of calls,
  used to state an invariant of every reachable state.
- `AddUserForm.dfy`: the zod schema, the default values, and submit.
- `UsersTable.dfy`: the sort indicator, the header clicks and the empty-table message.
- `ContextExamples.dfy`: a concrete run. After a search, sorting back to unsorted shows a user who does not match the term.

Some behaviours look surprising, but the model keeps them because the code does them:

- Cycling back to unsorted sets the view to the full collection. The search filter is dropped
  while the term stays in the search box (src/context/UsersContext.tsx:71-74 sets the view to
  a copy of `users`).
- Search always filters the full collection and ignores the active sort.
- An added user is appended to the view even if it does not match the current term.
- The whitespace test uses the trimmed term, but matching uses the untrimmed lowercased term.

src/App.tsx and the form test import `UsersProvider` from src/context/UsersProvider. That file
is not part of this model. The model follows the provider defined in src/context/UsersContext.tsx.

## Model

| member | source | states |
|---|---|---|
| Strings.StrLessIrreflexive | src/context/UsersContext.tsx:81-86 | no string is `<` itself |
| Strings.StrLessAsymmetric | src/context/UsersContext.tsx:81-86 | `a < b` and `b < a` never both hold for strings |
| Strings.StrLessTransitive | src/context/UsersContext.tsx:81-86 | string `<` is transitive |
| Strings.StrLessTotal | src/context/UsersContext.tsx:81-86 | two different strings are always ordered one way or the other |
| Strings.IncludesIffOccurs | src/context/UsersContext.tsx:103-104 | `s.includes(t)` holds exactly when `t` occurs at some position of `s` |
| Strings.IncludesNeedsFirstChar | src/context/UsersContext.tsx:103-104 | a non-empty term can only be included in a string that contains its first character |
| Strings.TrimStart | src/context/UsersContext.tsx:95 | the result is a suffix of the input; everything dropped is whitespace; the result does not start with whitespace |
| Strings.TrimEnd | src/context/UsersContext.tsx:95 | the result is a prefix of the input; everything dropped is whitespace; the result does not end with whitespace |
| Strings.TrimEmptyIffAllWhitespace | src/context/UsersContext.tsx:95 | `!term.trim()` holds exactly when every character of the term is whitespace, the empty term included |
| Strings.Lower | src/context/UsersContext.tsx:100-104 | lowercasing keeps the length, maps each ASCII capital to its small letter, leaves every other character alone, and leaves no capital behind |
| Strings.LowerIdempotent | src/context/UsersContext.tsx:100-104 | lowercasing twice gives the same result as lowercasing once |
| Strings.LowerKeepsWhitespace | src/context/UsersContext.tsx:95-100 | a term is whitespace-only exactly when its lowercased form is |
| Users.KeyValue | src/context/UsersContext.tsx:81-84 | the compared field value is a number exactly for `id`; every other non-composite key compares strings |
| Users.ValueLessStrictTotal | src/context/UsersContext.tsx:81-86 | JavaScript `<` on two numbers or on two strings is a strict total order |
| Sorting.Compare | src/context/UsersContext.tsx:76-88 | the comparator returns -1, 0 or 1, and always 0 for `address` and `company` |
| Sorting.InOrderTransitive | src/context/UsersContext.tsx:81-86 | "may stand before" in a sorted view is transitive, in either direction |
| Sorting.CompareMeaning | src/context/UsersContext.tsx:76-88 | 0 means equal key values; a non-positive result means non-decreasing order for ascending and non-increasing for descending; swapping the arguments negates the result |
| Sorting.CompareIsConsistent | src/context/UsersContext.tsx:76-88 | the comparator is reflexive, total and transitive, so the sort result does not depend on which stable sort is used |
| Sorting.Insert | src/context/UsersContext.tsx:76-88 | inserting keeps every element and adds exactly the new one |
| Sorting.SortUsers | src/context/UsersContext.tsx:76-88 | the sorted view is a permutation of the view it sorted |
| Sorting.InsertSorted | src/context/UsersContext.tsx:76-88 | inserting into a sorted view keeps it sorted |
| Sorting.SortUsersSorted | src/context/UsersContext.tsx:76-88 | the sorted view is non-decreasing on the key for ascending and non-increasing for descending |
| Sorting.InsertStable | src/context/UsersContext.tsx:76-88 | among users with equal keys, an inserted user lands after the ones already present |
| Sorting.SortUsersStable | src/context/UsersContext.tsx:76-88 | users with equal key values keep their relative order |
| Sorting.SortCompositeIsIdentity | src/context/UsersContext.tsx:77-79 | sorting on `address` or `company` leaves the view exactly as it was |
| Search.FilterMatching | src/context/UsersContext.tsx:100-106 | the result is an order-preserving subsequence of the collection; every kept user matches; each matching user is kept with all its occurrences and no other user is |
| Search.ApplySearchFilter | src/context/UsersContext.tsx:94-109 | a whitespace-only term gives the full collection; any other term gives exactly the users whose lowercased name or email contains the lowercased untrimmed term, in collection order |
| Search.MatchesIffOccurs | src/context/UsersContext.tsx:100-105 | a user matches exactly when the lowercased term occurs in its lowercased name or in its lowercased email |
| Search.SearchIgnoresCase | src/context/UsersContext.tsx:100-105 | two terms that lowercase alike give the same view |
| UsersContext.FetchStarted | src/context/UsersContext.tsx:46 | starting a fetch raises `loading` and changes nothing else |
| UsersContext.FetchAllUsers | src/context/UsersContext.tsx:45-58 | success replaces the collection and the view by the data and clears the error; failure sets "Failed to fetch users" and keeps both lists; `loading` ends false; term and sort are untouched |
| UsersContext.HandleSort | src/context/UsersContext.tsx:60-91 | the key becomes the clicked key and a new key starts ascending; unsorted shows the full collection; a sorted view is a permutation of the previous view ordered on the key; composite keys keep the view; nothing else changes |
| UsersContext.HandleSortStable | src/context/UsersContext.tsx:76-88 | in a sorted view, users with equal key values keep the relative order they had in the previous view, as the stable `Array.prototype.sort` keeps them |
| UsersContext.SortDirectionCycles | src/context/UsersContext.tsx:60-69 | a click on a new key starts ascending; further clicks on it go descending, unsorted, then ascending again, so after the first click the descriptor repeats every three clicks |
| UsersContext.ThreeClicksRestoreUsers | src/context/UsersContext.tsx:60-74 | three clicks on a key that is not the active one end unsorted on that key, showing the full collection |
| UsersContext.HandleSearch | src/context/UsersContext.tsx:142-145 | records the term; the view is the full collection for a blank term, otherwise the matching subsequence of the collection; collection, sort and flags are untouched |
| UsersContext.SearchIgnoresView | src/context/UsersContext.tsx:94-109 | the search result depends only on the collection and the term, not on the current view or sort |
| UsersContext.MaxId | src/context/UsersContext.tsx:114 | the maximum is one of the ids and no id exceeds it |
| UsersContext.NewId | src/context/UsersContext.tsx:114 | the new id is 1 for an empty collection, otherwise one more than some existing id, and in every case greater than every existing id |
| UsersContext.AddUser | src/context/UsersContext.tsx:112-139 | the new record is appended to both lists and existing elements are unchanged; its id is 1 for an empty collection and the largest id plus one otherwise; the form fields are copied; `company.name` comes from the form and every other nested field is empty |
| UsersContext.AddUserKeepsIdsDistinct | src/context/UsersContext.tsx:112-139 | if ids were distinct before an add, they are distinct after it |
| UsersContext.StepKeepsViewWithinUsers | src/context/UsersContext.tsx:45-145 | every transition keeps the view a sub-multiset of the collection |
| UsersContext.SearchKeepsViewWithinUsers | src/context/UsersContext.tsx:94-109 | after a search the view is a sub-multiset of the collection, whatever the view was before |
| UsersContext.AddKeepsViewWithinUsers | src/context/UsersContext.tsx:112-139 | an add keeps the view a sub-multiset of the collection |
| UsersContext.RunKeepsViewWithinUsers | src/context/UsersContext.tsx:45-145 | any sequence of calls keeps the view a sub-multiset of the collection |
| UsersContext.ReachableViewWithinUsers | src/context/UsersContext.tsx:31-43 | every state reachable from the initial state has its view within its collection |
| ContextExamples.UnsortedViewIgnoresSearchTerm | src/context/UsersContext.tsx:71-74 | in a concrete run, a search keeps one of two users; three clicks on Name then show both, although the term is still set and the second user does not match it |
| AddUserForm.Errors | src/components/AddUserForm.tsx:9-16 | name needs at least 2 characters, username 3, phone 6 and company 2; email must pass the email check; website is never reported |
| AddUserForm.DefaultFormErrors | src/components/AddUserForm.tsx:28-35 | the untouched form fails on exactly name, username, email, phone and company, provided the empty string is not an email |
| AddUserForm.SampleFormValid | src/tests/AddUserForm.test.tsx:60-65 | the record the form test fills in passes every rule, provided its address is accepted as an email |
| AddUserForm.Submit | src/components/AddUserForm.tsx:38-41 | invalid data changes nothing; valid data has exactly the effect of `addUser` on the unchanged form data: one user carrying the submitted fields, with a fresh id, appended to both the collection and the view, all else kept |
| AddUserForm.SubmittedUserSatisfiesSchema | src/components/AddUserForm.tsx:9-16 | every user the form adds meets the schema's length rules and the email check |
| UsersTable.SortIndicator | src/components/UsersTable.tsx:19-27 | no arrow unless the column is the active key; ↑ exactly for that key ascending; ↓ exactly for descending; none when unsorted |
| UsersTable.ClickHeader | src/components/UsersTable.tsx:56-67 | a header click makes that column the key; when sorted, the rows are in non-decreasing (ascending) or non-increasing (descending) order of that column's values |
| UsersTable.ThreeClicksOnHeader | src/components/UsersTable.tsx:19-27 | three clicks on one header restore its arrow; starting from another column they leave no arrow and the full collection |
| UsersTable.EmptyMessage | src/components/UsersTable.tsx:71-74 | a message appears exactly when the view is empty: "No matching users found." when the term is non-empty (whitespace included), "No users available." otherwise |
| UsersTable.BlankSearchOnEmptyCollection | src/components/UsersTable.tsx:71-74 | with no users, a whitespace-only search shows "No matching users found." |

## Left out

- The HTTP client (src/services/userService.ts) is not modelled. The fetch result enters `FetchAllUsers` as the parameter `outcome`: `Some(data)` on success, `None` on failure.
- The async flow, React state batching and stale closures are left out. Each provider call is one atomic transition over the latest state. `loading` is true only between `FetchStarted` and the settled result.
- The `console.error(err)` call on a failed fetch (src/context/UsersContext.tsx:54) is left out. It is logging only and changes no state.
- `selectedUser`, in the provider and in the table, is left out. It is a bare setter with no logic.
- The context object, `useUsers` and src/hooks/useUsers.ts are left out. They only pass the provider's value around.
- Presentation is left out: the modal, layout, pages, routing, styles, the spinner, clipboard writes and `navigate('/')` after submit.
- AddUserForm.Errors: email validity is the parameter `isEmail`, because the library's email pattern is not visible. Lengths are counted in characters (Unicode scalar values). zod counts UTF-16 code units, so the two differ for characters outside the Basic Multilingual Plane.
- AddUserForm.Submit: react-hook-form's validation and submit machinery and `isSubmitting` are reduced to "the handler runs only when the schema reports no error".
- Strings.Lower: `toLowerCase` is modelled for ASCII letters only. Full Unicode case mapping is not modelled.
- Strings.StrLess: strings are sequences of Unicode scalar values. JavaScript compares UTF-16 code units, so the order can differ for strings that mix characters above U+FFFF with characters from U+E000 to U+FFFF.
- UsersContext.NewId: ids are unbounded integers. JavaScript numbers (doubles) are not modelled, nor a `Math.max(...)` spread over an array too large for the call stack.
- `website` is always a string. An undefined website, which the schema allows and the comparator would meet, is not representable.
