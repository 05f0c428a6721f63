# Gym member directory — a verified Dafny model

This project models the in-memory member directory of a small Kotlin gym
management program (`GymManagementSystem` in `src/Main.kt`) and its
`Session` class. It also proves properties of the model.

The directory owns a mutable, ordered list of members and has four
operations:

- `addMember` appends a member. Duplicates are kept.
- `filterMembersByType` returns the members whose membership type equals
  the query, ignoring case, in directory order.
- `sortMembersByName` reorders the list in place by name. The sort is
  ordinal and stable.
- `findMemberByName` returns the first member whose name equals the query,
  ignoring case, or nothing.

A `Session` has an identifier, a start time and an optional end time.
`extend` adds the duration, which may be negative, to the current end,
or to the start when no end is set yet.

Layout:

- `wrappers.dfy` (`Wrappers`): `Option`, standing for Kotlin's nullable
  types. `GetOr` is the elvis operator `?:`.
- `text.dfy` (`Text`): `String.compareTo` as `CompareTo`, and
  `String.equals(ignoreCase = true)` as `EqualsIgnoreCase`. Both are
  character by character, as in the JVM. `CompareTo` has lemmas that make
  it a total order. A reference definition by lower-casing gives
  `EqualsIgnoreCase` its case-insensitive meaning.
- `lists.dfy` (`Lists`): Kotlin's `filter` and `find` as generic functions
  on sequences, with their characterising lemmas.
- `gym.dfy` (`Gym`): the `Member` record and the `GymManagementSystem`
  class. The class has a `seq<Member>` field `members`. The methods
  `AddMember` and `SortMembersByName` change that field. The queries are
  functions that read it. `SortByName` is the specification of the
  stable sort. The file also holds the demonstration from `main`.
- `session.dfy` (`Sessions`): the `Session` class. `sessionID` and
  `startTime` are `const`, as they are `val` in Kotlin. `endTime` is an
  `Option<int>` of minutes. `Extend` takes a 64-bit `Long` duration.

Design decisions:

- The list field is a `seq` that the methods reassign. `sortBy` becomes
  an assignment of `SortByName(members)`.
- `SortByName` is an insertion sort, and Kotlin's `sortBy` ends in the
  JVM's TimSort. `StableSortIsUnique` shows that the choice does not
  matter. Every name-sorted arrangement that keeps each group of equally
  named members in order equals `SortByName`. So any stable sort, TimSort
  included, gives the same list.
- `filterMembersByType` and `findMemberByName` are Dafny functions. So
  they cannot change `members`, which is the source's promise that they
  leave the directory unchanged.
- The Kotlin `extend` takes any `Long` and does not check its sign. So
  `Extend` accepts negative durations, and `NegativeExtendMovesBackward`
  shows that the end time then moves backward, possibly before the
  start. The invariant `Session.Valid` (end not before start) is proved
  to hold only across non-negative extensions.

## Model

| member | source | states |
|---|---|---|
| Gym.GymManagementSystem.constructor | src/Main.kt:39-40 | a new directory holds no members |
| Gym.GymManagementSystem.AddMember | src/Main.kt:42-43 | the member is appended at the end; the length grows by exactly one, earlier entries are unchanged, and an existing equal member is not rejected |
| Gym.GymManagementSystem.FilterMembersByType | src/Main.kt:48-49 | every result has the requested type ignoring case; the result is a subsequence of the directory, in order; it holds every matching member as often as the directory does and nothing else; it is empty exactly when no member matches |
| Gym.GymManagementSystem.SortMembersByName | src/Main.kt:53-54 | afterwards the directory is sorted by name under `compareTo`, is a permutation of the previous list, keeps each group of equally named members in its previous order, and equals `SortByName` of the previous list |
| Gym.GymManagementSystem.FindMemberByName | src/Main.kt:59-60 | the result is absent exactly when no member's name matches ignoring case; otherwise it is a matching member of the directory, namely the one at the first matching position |
| Gym.HasType | src/Main.kt:49 | the filter condition, which `TypeMatcher` wraps as the lambda passed to `filter` (type equals the query ignoring case), holds whenever the type equals the query exactly |
| Gym.HasName | src/Main.kt:60 | the search condition, which `NameMatcher` wraps as the lambda passed to `find` (name equals the query ignoring case), holds whenever the name equals the query exactly |
| Gym.NameLe | src/Main.kt:54 | the order `sortBy { it.name }` uses: a member may precede one with the same name, and when `a` may not precede `b`, `b`'s name compares strictly smaller |
| Gym.SortByName | src/Main.kt:54 | the sorted list is ordered non-decreasingly by name and is a permutation of the input |
| Gym.InsertByName | src/Main.kt:54 | inserting adds exactly the one member to the multiset of the list |
| Gym.InsertByNameSorted | src/Main.kt:54 | inserting into a name-sorted list keeps it name-sorted |
| Gym.SortByNameKeepsGroups | src/Main.kt:54 | stability: for every name, the members with that exact name appear in the same order before and after sorting |
| Gym.SortedSameGroupsEqual | src/Main.kt:54 | two name-sorted lists with equal name groups are equal |
| Gym.StableSortIsUnique | src/Main.kt:54 | any name-sorted list with the same name groups as `s` is `SortByName(s)`, so every stable sort by name yields the same result |
| Gym.SortByNameIdempotent | src/Main.kt:54 | sorting twice gives the same list as sorting once |
| Gym.FilterIgnoresQueryCase | src/Main.kt:49 | queries for types that are equal ignoring case ("Premium", "premium", "PREMIUM") return the same list |
| Gym.FindIgnoresQueryCase | src/Main.kt:60 | searches for names that are equal ignoring case return the same result |
| Gym.DemoPopulate | src/Main.kt:78-88 | a fresh directory after adding John Doe, Jane Smith and Alice Johnson holds exactly those three, in that order |
| Gym.DemoScenario | src/Main.kt:78-99 | after adding John Doe, Jane Smith and Alice Johnson, the premium filter yields [John Doe, Alice Johnson], sorting yields [Alice Johnson, Jane Smith, John Doe], and searching "Jane Smith" yields Jane Smith's record |
| Gym.DemoFilter | src/Main.kt:91-92 | filtering the three demonstration members on "Premium" yields John Doe then Alice Johnson |
| Gym.DemoNameOrder | src/Main.kt:81-83 | by `compareTo`, Alice Johnson precedes Jane Smith, and Jane Smith precedes John Doe |
| Gym.DemoSort | src/Main.kt:95 | sorting the three demonstration members yields Alice Johnson, Jane Smith, John Doe |
| Gym.DemoFind | src/Main.kt:98-99 | searching the sorted demonstration list for "Jane Smith" finds Jane Smith |
| Lists.Filter | src/Main.kt:49 | every kept element satisfies the predicate; the result is no longer than the input; it is empty exactly when no element satisfies the predicate |
| Lists.FilterIsSubsequence | src/Main.kt:49 | the filtered list is a subsequence of the input: the order is kept |
| Lists.FilterCount | src/Main.kt:49 | every satisfying element is kept as often as it occurs, and no other element is kept |
| Lists.FilterConcat | src/Main.kt:42-49 | filtering a list with a member appended is the old filter result followed by the filter of the new member |
| Lists.FilterSamePredicate | src/Main.kt:49 | filters whose predicates agree on every element give the same result |
| Lists.Find | src/Main.kt:60 | the result is None exactly when nothing satisfies the predicate; otherwise it is a satisfying element of the list, namely the element at the first satisfying position |
| Lists.FindIsFirstOfFilter | src/Main.kt:60 | `find` returns the head of the corresponding `filter`, or None when the filter is empty |
| Lists.FindConcat | src/Main.kt:42-60 | searching a list with a member appended finds the old match if there was one, else checks the new member |
| Text.Lowercase | src/Main.kt:49 | lower-casing keeps the length and lower-cases each position |
| Text.CharEqualsIgnoreCase | src/Main.kt:49 | the JVM's per-character case-insensitive test (equal, or equal upper cases, or equal lower cases of the upper cases) holds exactly when the lower cases are equal |
| Text.EqualsIgnoreCase | src/Main.kt:49 | `equals(ignoreCase = true)`: equal strings always match and strings of different lengths never do |
| Text.EqualsIgnoreCaseIffSameLowercase | src/Main.kt:49 | two strings are equal ignoring case exactly when their lower-cased forms are equal, in both directions |
| Text.EqualsIgnoreCaseIsEquivalence | src/Main.kt:49 | equality ignoring case is reflexive, symmetric and transitive |
| Text.CompareTo | src/Main.kt:54 | `String.compareTo`: zero exactly for equal strings, and the length difference when the first string is a prefix of the second |
| Text.CompareToFirstDiff | src/Main.kt:54 | `String.compareTo` lexicographic case: when the strings agree before position k and differ at k, the result is the difference of the characters at k |
| Text.CompareToAntisymmetric | src/Main.kt:54 | swapping the arguments of `compareTo` negates the result |
| Text.CompareToTransitive | src/Main.kt:54 | the order `compareTo(a, b) <= 0` is transitive |
| Wrappers.Option.GetOr | src/Main.kt:71 | the elvis operator `?:`: the held value if there is one, else the default |
| Sessions.ExtendedEnd | src/Main.kt:71 | the new end is the previous end plus the duration, or the start plus the duration when there was no end |
| Sessions.Session.constructor | src/Main.kt:65-68 | a new session has the given identifier and start time, and no end time |
| Sessions.Session.Extend | src/Main.kt:70-71 | the end time becomes the previous end, or the start if there was none, plus the duration; the identifier and start time do not change; a non-negative extension keeps the end not before the start |
| Sessions.ExtendIsMonotonic | src/Main.kt:71 | with a non-negative duration the new end is not before the previous end, or not before the start on the first extension |
| Sessions.NegativeExtendMovesBackward | src/Main.kt:70-71 | a negative duration is accepted and moves the end time backward, on a first extension to before the start |
| Sessions.ExtendTwiceIsExtendBySum | src/Main.kt:71 | two extensions in a row equal one extension by the sum of the durations |
| Sessions.SessionScenario | src/Main.kt:107-108 | a fresh session has no end, and extending by 60 minutes (as `main` does) gives an end at start + 60; a further extension by 30, beyond what `main` does, gives start + 90 |

## Left out

- Console output is left out. This covers `displayInfo`, the confirmation of `addMember`, the sorted-names notice of `sortMembersByName` and the new end-time notice of `extend`. It is output only.
- `Member.renewMembership`, `Instructor.scheduleTraining` and `Instructor.conductTraining` are left out. They only print and change no state.
- `Member.checkIn` and the `checkInTime` field are left out. `checkIn` reads the system clock, and nothing in the directory reads the field. So `Member` is an immutable value of `id`, `name` and `membershipType`.
- Session construction does not read the clock or draw a UUID. The identifier and start time are constructor parameters.
- Timestamps are whole minutes on an unbounded integer line. The model has no calendar and no date formatting.
- Sessions.Session.Extend: does not model the `DateTimeException` that `LocalDateTime.plusMinutes` throws when the result leaves the supported date range. That range is about a billion years either side of year 0.
- The `Person`/`Instructor` hierarchy is left out beyond the member record's fields.
- Members are values, not object references. Two distinct `Member` objects with equal fields cannot be told apart in the model.
- Text.EqualsIgnoreCase folds only ASCII letters. The JVM uses the full Unicode case tables, so non-ASCII letters such as 'é' and 'É' match in the source but not in the model.
- Text.CompareTo compares Dafny characters, which are Unicode scalar values. The JVM compares UTF-16 code units. The two orders agree on strings of Basic Multilingual Plane characters. They can differ between supplementary characters and the characters from U+E000 to U+FFFF. The returned values can differ as well: the model counts lengths and differences in Unicode scalars, the JVM in UTF-16 code units. Only the sign is used by the sort.
