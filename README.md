# User dashboard: the `Home` view-model in Dafny

This project models the logic of the `Home` page of the user dashboard
(`src/pages/index.js`). The page shows a table of users from a random-user web
service. Its logic covers:

- the four pieces of state: the user list, the search term, the search-mode
  flag and the sort configuration;
- the three fetches (a page of 10, a pool of 500 to search, 10 users of one
  gender) and what each does to the list on success and on failure;
- the column-header sort: the toggle rule, the ascending sort of a copy, and
  the reversal for descending;
- `getNestedPropertyValue`, i.e. `path.split(".")` followed by a property
  lookup per key;
- the search filter: exact match of the lower-cased first or last name
  against the lower-cased term;
- the event handlers, the mount effect, and the two render gates: the
  "there is no data match" message and the page buttons;
- `formatTanggal`'s zero padding and assembly of `DD-MM-YYYY HH:MM` from the
  date's components.

Modules, one file each:

| file | module | what it holds |
|---|---|---|
| `wrappers.dfy` | `Wrappers` | `Option` |
| `js_values.dfy` | `JsValues` | JSON-like records (`Undefined`, `Str`, `Obj`), property access, `split(".")` with `Join` as its inverse, the `reduce` over keys, ASCII `toLowerCase` |
| `string_order.dfy` | `StringOrder` | JavaScript's `<` on strings as a lexicographic order, and the comparator's -1/1/0 |
| `sorting.dfy` | `Sorting` | the ascending sort of an array in place (insertion sort), in-place reversal, and sortedness and permutation facts |
| `users.dfy` | `Users` | the record shape the table reads, and the path strings of the five sortable columns |
| `search.dfy` | `Search` | the `filter` callback and the filter over the pool |
| `date_format.dfy` | `DateFormat` | `toString`, `padStart(2, "0")`, `formatTanggal`, and a positional parser that reads its output back |
| `home.dfy` | `Dashboard` | the component as a class `Home` whose methods are the fetches and handlers, plus two scenario methods |

How the JavaScript is modelled:

- Every network response is a parameter of the method that awaits it. `Ok(records)` stands for the response's `results`. `NoResults` stands for a response whose `data` has no `results`. `Failure` stands for a request whose `catch` only logs.
- Property access on `undefined` throws a TypeError, modelled as `None`. A missing field reads as `Undefined` (inherited prototype members are not modelled). Values other than objects have no fields in the model.
- `dataUser` starts as the empty string, which is falsy. It is modelled as `Absent`; spreading it gives `[]`.
- A TypeError inside the search's `filter` is caught by the same `try` as a failed request. Either way the list is left unchanged.
- A ghost log `requests` records the requests issued, in order.

## Model

| member | source | states |
|---|---|---|
| JsValues.Prop | src/pages/index.js:85 | `value[key]`: throws (None) on `undefined`; a missing field reads as `undefined` |
| JsValues.FirstDot | src/pages/index.js:84 | the position found is a dot and no earlier character is one |
| JsValues.Split | src/pages/index.js:84 | `split(".")` gives at least one part and no part contains a dot |
| JsValues.JoinSplit | src/pages/index.js:84 | joining the parts of a split with dots gives back the path |
| JsValues.SplitJoin | src/pages/index.js:84 | splitting a dot-join of dot-free parts gives back the parts, so splitting is injective |
| JsValues.SplitDotted | src/pages/index.js:84 | the split of `p.q` is the split of `p` followed by the split of `q` |
| JsValues.SplitSingle | src/pages/index.js:84 | a path without a dot splits into itself alone |
| JsValues.GetPathAppend | src/pages/index.js:85 | reducing over `a ++ b` is reducing over `a` and then over `b` from that result, a thrown error propagating |
| JsValues.NestedDotted | src/pages/index.js:83-86 | `getNestedPropertyValue(obj, p.q)` continues from `getNestedPropertyValue(obj, p)` along `q` |
| JsValues.NestedSingle | src/pages/index.js:83-86 | for a dot-free path the lookup is one property access |
| JsValues.NestedField | src/pages/index.js:83-86 | for `outer.inner` the lookup is `obj[outer][inner]` |
| JsValues.GetPath | src/pages/index.js:85 | `keys.reduce((value, key) => value[key], obj)`: one property access per key from the left, a throw ending the reduce; its laws are `GetPathAppend` and `NestedField` |
| JsValues.GetNestedPropertyValue | src/pages/index.js:83-86 | the split path reduced over the object; its laws are `NestedDotted`, `NestedSingle` and `NestedField` |
| JsValues.ToLowerCase | src/pages/index.js:89 | lower-casing keeps the length, turns every upper-case ASCII letter into its lower-case letter (code + 32), leaves no upper-case letter and keeps every other character |
| JsValues.LowerIdempotent | src/pages/index.js:39-40 | lower-casing an already lower-cased name changes nothing |
| JsValues.LowerOfLower | src/pages/index.js:89 | a term without upper-case letters is its own lower-case form |
| JsValues.LowerCons | src/pages/index.js:89 | lower-casing works character by character from the front |
| StringOrder.Less | src/pages/index.js:70-71 | JavaScript's `<` on strings: the first differing character decides, and a proper prefix comes first; the lemmas below prove it a strict total order |
| StringOrder.Compare | src/pages/index.js:70-72 | the comparator's -1, 1 or 0; `CompareSpec` ties it to `Less` |
| StringOrder.LessIrreflexive | src/pages/index.js:70-71 | no string is below itself |
| StringOrder.LessAsymmetric | src/pages/index.js:70-71 | `a < b` and `b < a` never both hold |
| StringOrder.LessTransitive | src/pages/index.js:70-71 | the string order is transitive |
| StringOrder.LessTotal | src/pages/index.js:70-71 | of two different strings one is below the other |
| StringOrder.LessEqTransitive | src/pages/index.js:70-71 | the non-strict order is transitive |
| StringOrder.NotLessThenLessEq | src/pages/index.js:70-71 | when `a < b` fails, `b <= a` |
| StringOrder.CompareSpec | src/pages/index.js:70-72 | the comparator is negative exactly when `a < b`, positive exactly when `a > b`, zero exactly on equal strings, and antisymmetric |
| Sorting.Reversed | src/pages/index.js:76 | the list `reverse()` leaves; `ReversedTwice`, `ReversedPermutation` and `ReversedAscending` state its properties |
| Sorting.SortKey | src/pages/index.js:67-68 | the string `getNestedPropertyValue(row, column)` gives for a row that resolves |
| Sorting.ColumnKey | src/pages/index.js:66-68 | the key function by which the comparator of a click on `column` orders rows |
| Sorting.AscendingPairwise | src/pages/index.js:66-73 | ascending adjacent pairs give ascending order between any two positions |
| Sorting.ReversedTwice | src/pages/index.js:76 | reversing twice gives back the list |
| Sorting.ReversedPermutation | src/pages/index.js:76 | reversal keeps the multiset of rows |
| Sorting.ReversedAscending | src/pages/index.js:75-77 | a list is ascending exactly when its reversal is descending |
| Sorting.SortAscending | src/pages/index.js:66-73 | the array ends ascending by the key and is a permutation of its old contents |
| Sorting.InsertLeft | src/pages/index.js:66-73 | moving one element left past greater keys extends the sorted prefix by one, keeps the multiset and leaves the elements after it as they were |
| Sorting.ReverseInPlace | src/pages/index.js:76 | `reverse()` leaves exactly the reversal of the old contents |
| Sorting.AllResolvePermutation | src/pages/index.js:66-68 | a permutation of rows whose column resolves to a string still has that property |
| Users.FieldAt | src/pages/index.js:85 | a two-level path into a record reads back the inner field |
| Users.FieldTop | src/pages/index.js:85 | a one-level path into a record reads back the field |
| Users.MakeUserNames | src/pages/index.js:39-40 | `user.name.first`, `user.name.last` and the "name.first" column read back the record's names |
| Users.MakeUserNestedColumns | src/pages/index.js:186-242 | the "login.username" and "registered.date" columns read back the record's fields |
| Users.MakeUserTopColumns | src/pages/index.js:214-228 | the "email" and "gender" columns read back the record's fields |
| Search.LowerName | src/pages/index.js:39-40 | `user.name.first.toLowerCase()` (or `last`): None when the access or the call throws |
| Search.Keep | src/pages/index.js:38-40 | the callback with the short circuit of the logical or: the last name is read only when the first does not match; `KeepExact` gives its value |
| Search.FilterUsers | src/pages/index.js:37-41 | `filter` from the left, None when a call throws; `FilterDefined`, `FilterSubsequence`, `FilterCounts` and `FilterMembers` characterise it |
| Search.KeepExact | src/pages/index.js:38-40 | for a user with string names the callback does not throw, and keeps the user exactly when the lower-cased first or last name equals the term |
| Search.FilterDefined | src/pages/index.js:37-41 | the filter completes exactly when the callback completes on every user |
| Search.FilterSubsequence | src/pages/index.js:37-41 | the result is a subsequence of the pool, so pool order is kept |
| Search.FilterCounts | src/pages/index.js:37-41 | every kept user appears as often as in the pool, every other user not at all |
| Search.FilterMembers | src/pages/index.js:37-41 | a user is in the result exactly when it is in the pool and is kept |
| Search.UpperTermKeepsNothing | src/pages/index.js:39-40 | a term with an upper-case letter matches no user, which is why the handler lower-cases it |
| Search.KeepNamed | src/pages/index.js:38-40 | the callback's verdict on a record built from two names |
| Search.FilterKeepDropKeep | src/pages/index.js:37-41 | filtering a kept, a dropped and a kept user leaves the two kept ones in order |
| Search.SearchExample | src/pages/index.js:37-41 | searching "Alice" keeps "Alice Smith" and "Bob ALICE" and drops "Malice Jones": matching is exact, not by substring |
| DateFormat.IntToString | src/pages/index.js:124 | the year interpolated into the template, with a `-` when negative; `IntToStringValue` reads it back |
| DateFormat.Pad2 | src/pages/index.js:122-126 | `n.toString().padStart(2, "0")`; `Pad2Small`, `Pad2Large` and `Pad2Value` state it |
| DateFormat.FormatTanggal | src/pages/index.js:119-131 | the `DD-MM-YYYY HH:MM` template over the components, the month shifted by one; `FormatParseRoundTrip` reads it back |
| DateFormat.NatToString | src/pages/index.js:122 | `toString()` of a non-negative number is a digit string with one digit exactly below 10 and no leading zero |
| DateFormat.NatToStringValue | src/pages/index.js:122 | the decimal string reads back as the number |
| DateFormat.IntToStringValue | src/pages/index.js:124 | the year's string, with its sign, reads back as the year |
| DateFormat.PadStart | src/pages/index.js:122 | `padStart` reaches at least the length, ends with the string and fills the front with the fill character |
| DateFormat.DigitRoundTrip | src/pages/index.js:122 | one digit reads back as its value |
| DateFormat.Pad2Small | src/pages/index.js:122-126 | a component below 10 gets a leading "0" |
| DateFormat.Pad2Large | src/pages/index.js:122-126 | a component from 10 on is left as its plain decimal form |
| DateFormat.Pad2Value | src/pages/index.js:122-126 | a component below 100 becomes exactly two digits that read back as it |
| DateFormat.FormatParseRoundTrip | src/pages/index.js:119-131 | `DD-MM-YYYY HH:MM` has length 12 plus the year's length and reads back as day, month + 1, year, hours and minutes |
| Dashboard.NextDirection | src/pages/index.js:61-64 | descending only when the clicked column is the active one and ascending; `ClickCycle` states the cycle |
| Dashboard.Click | src/pages/index.js:80 | the configuration a click stores: the column and the new direction |
| Dashboard.Fetched | src/pages/index.js:18-27 | the list after a page or gender fetch: the results, `undefined` when the response has none, unchanged on failure |
| Dashboard.Searched | src/pages/index.js:29-47 | the list after a search: the filtered pool, unchanged on failure, on a missing `results` or on a throw inside the filter; `SearchedExact` and `NothingKept` state it |
| Dashboard.ClickCycle | src/pages/index.js:60-64 | clicks on a new column go ascending, descending, ascending |
| Dashboard.SearchedExact | src/pages/index.js:29-47 | a successful search over users with string names loads a subsequence of the pool holding each matching user as often as the pool does and no other user |
| Dashboard.NothingKept | src/pages/index.js:37-43 | a search in which nobody matches loads the empty list |
| Dashboard.Home.constructor | src/pages/index.js:10-16 | the initial state: no list, empty term, not searching, no sort column, ascending |
| Dashboard.Home.Rows | src/pages/index.js:66 | `[...dataUser]`: the loaded rows, or [] for the initial empty string |
| Dashboard.Home.Rendered | src/pages/index.js:115-117 | the page renders anything only when the list is truthy |
| Dashboard.Home.ShowsNoDataMessage | src/pages/index.js:270 | the no-data message: rendered, in search mode and an empty list |
| Dashboard.Home.ShowsPagination | src/pages/index.js:275 | the page buttons: rendered and not in search mode |
| Dashboard.Home.FetchData | src/pages/index.js:18-27 | issues a page request; the list becomes the results on success and is unchanged on failure |
| Dashboard.Home.SearchData | src/pages/index.js:29-47 | issues the pool request; the list becomes the filtered pool, unchanged on failure or a thrown callback |
| Dashboard.Home.FilterGender | src/pages/index.js:49-58 | issues a gender request; the list becomes the results on success and is unchanged on failure |
| Dashboard.Home.Mount | src/pages/index.js:109-113 | with no list yet, fetches page 1; otherwise does nothing |
| Dashboard.Home.SortData | src/pages/index.js:60-81 | the new configuration follows the toggle rule; the list is a permutation of the old rows, ascending by the column, or descending (the reversal of an ascending list) |
| Dashboard.Home.HandleSearchInput | src/pages/index.js:149 | typing sets the term |
| Dashboard.Home.HandleSearchButton | src/pages/index.js:88-92 | searches with the lower-cased term, enters search mode and clears the sort; the page buttons are hidden, and the no-data message shows exactly when the list is empty |
| Dashboard.Home.HandleResetButton | src/pages/index.js:94-98 | clears the term, leaves search mode and fetches page 1; the sort configuration is kept; no no-data message, and page buttons whenever anything is rendered |
| Dashboard.Home.HandleJumpLink | src/pages/index.js:100-102 | fetches page num; mode, term and sort are unchanged |
| Dashboard.Home.HandleFilterGender | src/pages/index.js:104-107 | fetches users of the gender and clears the sort; mode and term are unchanged |
| Dashboard.SortTwiceThenJump | src/pages/index.js:60-102 | two clicks on one column give ascending, then descending over the same rows; a later page change replaces the rows but keeps the descending indicator |
| Dashboard.EmptySearchThenReset | src/pages/index.js:270-275 | a search matching nobody shows the no-data message and hides the page buttons; reset reverses both |

Behaviour of the code worth knowing:

- Only the search button (line 91) and the gender handler (line 106) reset
  `sortConfig`. Reset and page jump keep it (`HandleResetButton`,
  `HandleJumpLink`, `SortTwiceThenJump`), so after a page change the header
  still shows the old direction over unsorted rows.
- A page jump does not touch `searchShow` (lines 100-102). The page buttons
  are hidden in search mode (line 275), so a jump is only reachable outside
  it.

## Left out

- Network, `axios` and the service's behaviour: responses are parameters; the URLs, the page size and the meaning of `gender=All` to the service are not modelled.
- Asynchrony: each fetch is applied at once, in the order the handlers are called. Responses that arrive out of order, and the order in which one handler's `setState` calls and its fetch's result take effect, are not modelled.
- Responses: a response without `data.results` is `NoResults`. `fetchData` and `filterGender` (lines 23 and 54) then store `undefined` and the page renders nothing (line 115), which `Fetched` models as `Absent`; `searchData` throws inside its `try` and keeps the list. A response without `data` at all is modelled as `Failure`.
- Dashboard.Home.Rows: `Absent` stands for both falsy values. Spreading `undefined` in `sortData` would throw, but with nothing rendered no column header exists to click, so the model spreads it as the empty string.
- Dashboard.Home.SortData: requires every row's column to resolve to a string. JavaScript's `<` on `undefined` or on mixed types is not modelled, and such a comparator is not a consistent order.
- Dashboard.Home.SortData: the order among rows with equal keys is not stated. JavaScript's sort is stable; the model's insertion sort is too, but stability is not proved.
- Sorting.SortAscending: an insertion sort stands in for the engine's `Array.prototype.sort`; only the result's properties are shared.
- StringOrder.Less: orders strings by Dafny characters. JavaScript compares UTF-16 code units; the two agree on the Basic Multilingual Plane.
- JsValues.ToLowerCase: lower-cases ASCII letters only. JavaScript's Unicode case mapping is not modelled.
- JsValues.Prop: strings have no properties in the model (JavaScript has `length` and indices), `undefined` and `null` are not distinguished, and the prototype chain is not modelled: a key such as `constructor` or `toString` that the record does not hold reads as `undefined`, where JavaScript finds the inherited member.
- DateFormat.FormatTanggal: takes the date's components as integers. `new Date(inputDate)`, time zones, and an invalid date's `NaN` output are not modelled.
- The markup is not modelled: the table rows, the `↑`/`↓` glyphs, the icons and the styling. Only the two gates at lines 270 and 275 and the `if (!dataUser) return null` at line 115 are modelled, as predicates of `Home`.
- `console.error` logging on failure is left out; failures only leave the state unchanged.
