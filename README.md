# Hotel reservation: query strings, reservation flow and booking domain in Dafny

This project models three parts of a Spring hotel-reservation application and proves properties of them.

**The query-string library.** The Thymeleaf expression object `QueryStringHelper` pages and sorts result lists by rewriting the current query string. Every operation parses the text with `QueryString.of`. `of` rejects null text, and rejects text whose `&`-separated pieces are not all `key=value`. The parsed state maps each key to a list of `KeyValueIndex` entries. Each entry carries its overall position in the original text and a `deleted` flag. An operation rewrites, deletes, adjusts or adds entries in place. `reconstructQueryString` then joins the live entries in overall-index order.

In the model:
- `QueryStrings.QueryString` is a class whose `state` field is a `map<string, seq<KeyValueIndex>>`. Its methods update that field with the source's loops. Each method's contract ties the new state to a specification function in `QueryStringOps`.
- `QueryStringState` holds parsing, the collector and reconstruction, with the round-trip lemmas.
- `QueryStringOps` states what each operation does to the values and to the live entries of the state.
- `QueryStringHelper` holds the helper's composite operations as functions returning `Result`. A thrown exception becomes `Err` with the exception's kind.
- The one-line helper methods (`replaceFirst`, `removeAll`, `getFirstValue`, `add` and the rest) are `QueryString.Of` followed by the class method of the same name. They get no separate member.
- `QueryStringUtil` (`toQueryString`, `extractSortField`) and `SortDirection` have their own modules.
- `JavaStrings` gives the JDK behaviour the code relies on: `String.split` with a literal separator drops trailing empty pieces, `trim` removes characters up to `' '`, `Integer.parseInt` is range-checked to 32 bits, `int` addition wraps, and `toUpperCase`/`toLowerCase` act on ASCII letters.

**The reservation flow.** `ReservationFlow` tracks the active step and the completed steps of the six-step booking wizard, with numbered step descriptions. `ReservationFlowForms` moves a step counter forward and back within its list of step names. Both are classes whose methods update their fields.

**The domain.** The model covers these classes:
- `Guest`: names stored lower-cased, and the adults-first comparator.
- `Extra`: the per-night price over a stay.
- `ReservationDates`: the nights between two dates.
- `Hotel`, `Room` and `Reservation`: the hourly check-in slots, and the room/hotel and room/reservation links.
- `MealPlan`: the food cost with the 60% child discount.
- `PendingPayment`: the expiry-year and expiry-month choices, the last four card digits, and the completed payment.
- `Utils`: the `toCsv`, `capitalize` and `capitalizeWords` functions.

Setters are methods with `modifies` clauses. Derived values are functions reading the object.

Where the documentation comments and the code disagree, the model follows the code:
- The comment on `QueryString.of` (QueryString.java:38-41) asks for "at least 1 key=value pair". The code (`hasAtLeastOneKeyValuePair`) requires every `&`-separated piece to be a valid pair, so `a=1&b` is rejected, and so it is in the model.
- The helper methods' comments promise a result for a null or empty query string. In each case below the code calls `QueryString.of` first, which throws, so the model returns `Err(IllegalArgument)`:
  - `getAllValues` (QueryStringHelper.java:424): the comment promises an empty list.
  - `add` (QueryStringHelper.java:462): the comment promises the new pair in query-string form.
  - `addAll` (QueryStringHelper.java:492): the comment promises all the pairs joined into a query string.
  - `removeAllAndAdd` (QueryStringHelper.java:525): the comment promises all the new pairs joined. The first `QueryString.of` sits outside the `try`, so its `catch` never sees this case.
  - `createNewSort` (QueryStringHelper.java:1170): the comment promises only the new sort fields. The method calls `removeAllAndAdd` and throws with it.
  - `isFieldSorted` (QueryStringHelper.java:1200): the comment promises `false`.
  - `getCurrentSortDirectionAsc`/`Desc` (QueryStringHelper.java:1283): the comment promises `null`.
  - The remaining helpers (`replaceFirst`, `removeAll`, paging, sorting and the rest): the comments promise `""`.
- `removeNthAndAdd` (QueryStringHelper.java:566) is the exception: its comment promises all the new pairs joined for a null or empty query, but the code returns `""` before parsing. The model returns `Ok("")`.
- The comment on `validExpiryYears` speaks of ten years. The code lists eleven (offsets 0 to 10), and so does the model.

## Model

| member | source | states |
|---|---|---|
| QueryStrings.QueryString.constructor | src/main/java/com/demo/thymeleaf/utils/QueryString.java:29-33 | The new object keeps the original text and holds the well-formed state that parsing that text gives (every live entry under its own key, no overall index used twice). |
| QueryStrings.QueryString.CollectPairs | src/main/java/com/demo/thymeleaf/utils/QueryString.java:840-847 | The accumulating loop builds exactly the state the collector specification `Collect` describes for the parsed pairs. |
| QueryStrings.QueryString.Of | src/main/java/com/demo/thymeleaf/utils/QueryString.java:43-49 | Succeeds exactly when the text is non-null and every `&`-separated piece is a valid `key=value` pair, and otherwise fails with an illegal-argument error; on success the object holds the parsed state. |
| QueryStrings.QueryString.ReplaceFirst | src/main/java/com/demo/thymeleaf/utils/QueryString.java:108-117 | The state becomes the specification's ReplaceFirst of the old state, which keeps WellFormed; the result is the reconstruction of the new state. |
| QueryStrings.QueryString.ReplaceN | src/main/java/com/demo/thymeleaf/utils/QueryString.java:126-135 | The state becomes ReplaceN of the old state and stays WellFormed; the result is the reconstruction of the new state. |
| QueryStrings.QueryString.ReplacePrefix | src/main/java/com/demo/thymeleaf/utils/QueryString.java:126-135 | Setting the first values of one key's list in a loop gives the same list as replacing positions 0 to m-1 with the given values. |
| QueryStrings.QueryString.ReplaceNth | src/main/java/com/demo/thymeleaf/utils/QueryString.java:174-193 | The state becomes ReplaceNth of the old state under the instruction map (a null map changes nothing) and stays WellFormed; the result is the reconstruction. |
| QueryStrings.QueryString.ApplyAllInstructions | src/main/java/com/demo/thymeleaf/utils/QueryString.java:174-193 | Walking over the instruction keys one at a time gives exactly the state that applies every key's instructions at once. |
| QueryStrings.QueryString.ReplacedEveryKey | src/main/java/com/demo/thymeleaf/utils/QueryString.java:174-193 | Once no key is left pending, the per-key rewrite equals the specification ReplaceNth. |
| QueryStrings.QueryString.ApplyInstructions | src/main/java/com/demo/thymeleaf/utils/QueryString.java:144-156 | The loop over one key's position-to-value instructions rewrites exactly the instructed positions. |
| QueryStrings.QueryString.RemoveFirst | src/main/java/com/demo/thymeleaf/utils/QueryString.java:201-207 | The state becomes RemoveFirst of the old state and stays WellFormed; the result is the reconstruction of the new state. |
| QueryStrings.QueryString.RemoveAll | src/main/java/com/demo/thymeleaf/utils/QueryString.java:215-221 | The state becomes RemoveAll of the old state (a null key list changes nothing) and stays WellFormed; the result is the reconstruction. |
| QueryStrings.QueryString.RemoveKeys | src/main/java/com/demo/thymeleaf/utils/QueryString.java:215-221 | The loop over the keys removes exactly the given keys from the map and nothing else. |
| QueryStrings.QueryString.RemoveN | src/main/java/com/demo/thymeleaf/utils/QueryString.java:230-250 | The state becomes RemoveN of the old state and stays WellFormed; the result is the reconstruction of the new state. |
| QueryStrings.QueryString.DeletePrefix | src/main/java/com/demo/thymeleaf/utils/QueryString.java:237-247 | The loop marks deleted exactly the positions 0 to n-1 of one key's list. |
| QueryStrings.QueryString.RemoveNth | src/main/java/com/demo/thymeleaf/utils/QueryString.java:270-276 | The state becomes RemoveNth of the old state and stays WellFormed; the result is the reconstruction of the new state. |
| QueryStrings.QueryString.ApplyToKeyValues | src/main/java/com/demo/thymeleaf/utils/QueryString.java:317-326 | Applies the operation to the given relative positions of the key's list when the key is present with a non-empty list, and otherwise leaves the state unchanged. |
| QueryStrings.QueryString.RemoveManyNth | src/main/java/com/demo/thymeleaf/utils/QueryString.java:295-298 | The state becomes RemoveManyNth of the old state and stays WellFormed; the result is the reconstruction of the new state. |
| QueryStrings.QueryString.AdjustNumericValueBy | src/main/java/com/demo/thymeleaf/utils/QueryString.java:350-362 | The state becomes AdjustNumericValueBy of the old state and stays WellFormed; the result is the reconstruction of the new state. |
| QueryStrings.QueryString.RemoveKeyMatchingValue | src/main/java/com/demo/thymeleaf/utils/QueryString.java:377-389 | The state becomes RemoveKeyMatchingValue of the old state and stays WellFormed; the result is the reconstruction of the new state. |
| QueryStrings.QueryString.RemoveAnyKeyMatchingValue | src/main/java/com/demo/thymeleaf/utils/QueryString.java:404-413 | The state becomes RemoveAnyKeyMatchingValue of the old state and stays WellFormed; the result is the reconstruction of the new state. |
| QueryStrings.QueryString.FilterEveryKey | src/main/java/com/demo/thymeleaf/utils/QueryString.java:404-413 | The loop over every key gives the state in which each list has lost exactly its case-insensitive matches. |
| QueryStrings.QueryString.MappedExceptStep | src/main/java/com/demo/thymeleaf/utils/QueryString.java:404-413 | Handling one more pending key changes that key's list alone. |
| QueryStrings.QueryString.FilteredEveryKey | src/main/java/com/demo/thymeleaf/utils/QueryString.java:404-413 | Once no key is left pending, the per-key filter equals the specification RemoveAnyKeyMatchingValue. |
| QueryStrings.QueryString.Add | src/main/java/com/demo/thymeleaf/utils/QueryString.java:469-485 | The state becomes Add of the old state and stays WellFormed; the result is the reconstruction of the new state. |
| QueryStrings.QueryString.AddAll | src/main/java/com/demo/thymeleaf/utils/QueryString.java:493-510 | The state becomes AddAll of the old state (a null list changes nothing) and stays WellFormed; the result is the reconstruction of the new state. |
| QueryStrings.QueryString.SetSortDirection | src/main/java/com/demo/thymeleaf/utils/QueryString.java:546-581 | The state becomes SetSortDirection of the old state and stays WellFormed; the result is the reconstruction of the new state. |
| QueryStrings.QueryString.FindSortField | src/main/java/com/demo/thymeleaf/utils/QueryString.java:551-571 | The search loop returns -1 exactly when no `sort` value names the field, and otherwise returns the first position whose value names it, together with that value's tokens. |
| QueryStrings.QueryString.ToggleSortDefaultAsc | src/main/java/com/demo/thymeleaf/utils/QueryString.java:521-523 | The state becomes the specification's toggle with ASC as the default, and stays WellFormed; the result is the reconstruction. |
| QueryStrings.QueryString.ToggleSortDefaultDesc | src/main/java/com/demo/thymeleaf/utils/QueryString.java:533-535 | The state becomes the specification's toggle with DESC as the default, and stays WellFormed; the result is the reconstruction. |
| QueryStrings.AppliedDelete | src/main/java/com/demo/thymeleaf/utils/QueryString.java:295-298 | Deleting through applyToKeyValues is the same as DeleteWhere on the set of the given positions. |
| QueryStrings.AppliedAdjust | src/main/java/com/demo/thymeleaf/utils/QueryString.java:350-362 | Adjusting through applyToKeyValues is the same as AdjustWhere on the given positions. |
| QueryStrings.NoSortMatchExtends | src/main/java/com/demo/thymeleaf/utils/QueryString.java:551-571 | The search loop's invariant: if no earlier value matches and the current one does not, none up to and including it matches. |
| QueryStrings.FirstSortMatchNone | src/main/java/com/demo/thymeleaf/utils/QueryString.java:551-571 | When no value names the field, the first-match search finds nothing. |
| QueryStrings.FirstSortMatchIs | src/main/java/com/demo/thymeleaf/utils/QueryString.java:551-571 | A position that names the field, with no earlier position naming it, is the first match. |
| QueryStringState.FromPair | src/main/java/com/demo/thymeleaf/utils/QueryString.java:699-704 | A pair yields a key/value exactly when it has two elements and neither one is blank after trimming; the result carries those two strings and is not deleted. |
| QueryStringState.FromKeyValue | src/main/java/com/demo/thymeleaf/utils/QueryString.java:711-716 | A null key or value gives nothing; otherwise the result is what `fromPair` gives for the two strings. |
| QueryStringState.UpdateValue | src/main/java/com/demo/thymeleaf/utils/QueryString.java:795-797 | Only the value changes: the overall index and the key stay, and the entry is live. |
| QueryStringState.Delete | src/main/java/com/demo/thymeleaf/utils/QueryString.java:749-752 | Only the deleted flag changes: the entry keeps its index, key and value. |
| QueryStringState.InvalidPairs | src/main/java/com/demo/thymeleaf/utils/QueryString.java:54-58 | "", "=", "key", "=value" and "key=" are each not a valid pair. |
| QueryStringState.IsValidPair | src/main/java/com/demo/thymeleaf/utils/QueryString.java:54-58 | Defines `isValidPair`: splitting on `=` (trailing empty tokens dropped) gives exactly two tokens, the first non-empty. InvalidPairs and its four companions state which shapes fail, and RendersAreValidPairs that every canonical `key=value` passes. |
| QueryStringState.HasAtLeastOneKeyValuePair | src/main/java/com/demo/thymeleaf/utils/QueryString.java:63-74 | Defines `hasAtLeastOneKeyValuePair`: null fails; otherwise every `&`-piece must be a valid pair, with the whole text tested when the split gives no piece. Of is Ok exactly when it holds; NoPiecesMeansInvalid and OfRejectsNullAndEmpty state its edge cases. |
| QueryStringState.InvalidWithoutEquals | src/main/java/com/demo/thymeleaf/utils/QueryString.java:54-58 | A string without `=` ("" or "key") is not a valid pair. |
| QueryStringState.InvalidEqualsOnly | src/main/java/com/demo/thymeleaf/utils/QueryString.java:54-58 | "=" splits into no pieces, so it is not a valid pair. |
| QueryStringState.InvalidWithoutKey | src/main/java/com/demo/thymeleaf/utils/QueryString.java:54-58 | "=value" has an empty first piece, so it is not a valid pair. |
| QueryStringState.InvalidWithoutValue | src/main/java/com/demo/thymeleaf/utils/QueryString.java:54-58 | "key=" loses its trailing empty piece, so it is not a valid pair. |
| QueryStringState.NoPiecesMeansInvalid | src/main/java/com/demo/thymeleaf/utils/QueryString.java:63-74 | When splitting on `&` leaves no pieces, the whole text is not a valid pair, so the fallback branch always rejects. |
| QueryStringState.ParsePieces | src/main/java/com/demo/thymeleaf/utils/QueryString.java:656-662 | Parsing keeps at most one key/value per piece, and every kept key/value is live. |
| QueryStringState.Of | src/main/java/com/demo/thymeleaf/utils/QueryString.java:43-49 | The parse succeeds exactly when the text is non-null and every `&`-separated piece is a valid `key=value` pair (so `a=1&b` is rejected), and otherwise fails with an illegal-argument error. |
| QueryStringState.OfRejectsNullAndEmpty | src/main/java/com/demo/thymeleaf/utils/QueryString.java:63-74 | A null query string and the empty string are both rejected with an illegal-argument error. |
| QueryStringState.OfRejectsMalformed | src/main/java/com/demo/thymeleaf/utils/QueryString.java:54-74 | "=", "=value", "key" and "key=" are each rejected. |
| QueryStringState.LiveEntries | src/main/java/com/demo/thymeleaf/utils/QueryString.java:92-99 | The entries `reconstructQueryString` keeps (the non-deleted ones) are a subset of all entries. |
| QueryStringState.NextOverallIndex | src/main/java/com/demo/thymeleaf/utils/QueryString.java:678-684 | The next index is above every overall index in the state: 1 when the state is empty, and otherwise one more than the largest index. |
| QueryStringState.LiveIndexesDistinct | src/main/java/com/demo/thymeleaf/utils/QueryString.java:92-99 | In a well-formed state no two live entries share an overall index, so sorting by that index orders them completely. |
| QueryStringState.Renders | src/main/java/com/demo/thymeleaf/utils/QueryString.java:92-99 | Rendering keeps the order and turns each entry into its `key=value` text. |
| QueryStringState.OrderedSpec | src/main/java/com/demo/thymeleaf/utils/QueryString.java:92-99 | The entries `reconstructQueryString` joins are exactly the live entries, in strictly increasing overall-index order. |
| QueryStringState.MergeEntries | src/main/java/com/demo/thymeleaf/utils/QueryString.java:840-847 | Merging an entry into the state adds exactly that entry, and adds it to the live entries only when it is not deleted. |
| QueryStringState.MergeFreshWellFormed | src/main/java/com/demo/thymeleaf/utils/QueryString.java:840-847 | Merging an entry whose overall index is fresh keeps the state well formed. |
| QueryStringState.IndexMapBelowFresh | src/main/java/com/demo/thymeleaf/utils/QueryString.java:678-684 | Every index already used lies below a fresh entry's index and below the next overall index. |
| QueryStringState.MergeFreshAppends | src/main/java/com/demo/thymeleaf/utils/QueryString.java:469-485 | Merging a fresh live entry keeps the state well formed, makes the next index one past it, and appends it at the end of the reconstruction order. |
| QueryStringState.Indexed | src/main/java/com/demo/thymeleaf/utils/QueryString.java:823-869 | The i-th parsed pair is numbered with overall index i. |
| QueryStringState.CollectOrdered | src/main/java/com/demo/thymeleaf/utils/QueryString.java:823-869 | Collecting parsed pairs gives a well-formed state whose reconstruction order is the parse order, with indexes 0 to n-1. |
| QueryStringState.ReconstructCreateState | src/main/java/com/demo/thymeleaf/utils/QueryString.java:656-662 | Reconstructing a freshly parsed state gives the valid pairs of the original text in their original order, joined with `&`. |
| QueryStringState.CreateState | src/main/java/com/demo/thymeleaf/utils/QueryString.java:656-662 | Defines `createState`: the `&`-pieces parsed by `fromKeyValue`, the failures dropped, collected by the query collector. CreateStateCanonical states the result is well formed and canonical, CollectOrdered that it keeps parse order with indexes 0..n-1. |
| QueryStringState.Reconstruct | src/main/java/com/demo/thymeleaf/utils/QueryString.java:92-99 | Defines `reconstructQueryString`: the live entries sorted by overall index, each rendered `key=value`, joined with `&`. OrderedSpec states the order holds exactly the live entries in increasing index; ReconstructCreateState, CanonicalRoundTrip and ReconstructReparses state what it gives back. |
| QueryStringState.RenderSplits | src/main/java/com/demo/thymeleaf/utils/QueryString.java:733-735 | A canonical key/value's text splits on `=` back into its key and value, and holds no `&`. |
| QueryStringState.FromKeyValueTextOfRender | src/main/java/com/demo/thymeleaf/utils/QueryString.java:706-709 | Parsing a canonical key/value's own text gives that key/value back, and the text is a valid pair. |
| QueryStringState.ParsePiecesOfRenders | src/main/java/com/demo/thymeleaf/utils/QueryString.java:656-662 | Parsing the rendered texts of canonical key/values gives exactly those key/values back. |
| QueryStringState.RendersAreValidPairs | src/main/java/com/demo/thymeleaf/utils/QueryString.java:54-58 | The text of every canonical key/value is a valid pair. |
| QueryStringState.CanonicalRoundTrip | src/main/java/com/demo/thymeleaf/utils/QueryString.java:43-99 | For one or more canonical key/values, their `&`-joined text is accepted by `of`, parses back to the same list, and reconstructs to the same text. |
| QueryStringState.KeyValues | src/main/java/com/demo/thymeleaf/utils/QueryString.java:92-99 | The key/values of the entries, in order. |
| QueryStringState.FromKeyValueTextCanonical | src/main/java/com/demo/thymeleaf/utils/QueryString.java:706-709 | Whatever a piece without `&` parses to is canonical. |
| QueryStringState.CreateStateCanonical | src/main/java/com/demo/thymeleaf/utils/QueryString.java:656-662 | A freshly parsed state is well formed and holds only canonical key/values. |
| QueryStringState.ReconstructReparses | src/main/java/com/demo/thymeleaf/utils/QueryString.java:92-99 | A well-formed canonical state reconstructs to "" when nothing is live, and otherwise to a string that `of` accepts and that parses back to its live key/values in order. |
| QueryStringOps.Values | src/main/java/com/demo/thymeleaf/utils/QueryString.java:447-453 | The values of a key's entries, in order. |
| QueryStringOps.GetFirstValue | src/main/java/com/demo/thymeleaf/utils/QueryString.java:427-433 | The first value exists exactly when the key's list is non-empty, deleted entries included, and it is the head of that list (the first of GetAllValues). |
| QueryStringOps.GetAllValues | src/main/java/com/demo/thymeleaf/utils/QueryString.java:447-453 | Defines `getAllValues`: the values of the key's whole list, deleted entries included, or nothing when the key is absent or its list is empty. GetValuesCreateState states it gives the key's values in parse order on a fresh parse; AddKeyValueValues that `add` loses none of them. |
| QueryStringOps.CollectValues | src/main/java/com/demo/thymeleaf/utils/QueryString.java:447-453 | The values held for a key in the collected state are that key's values in parse order. |
| QueryStringOps.GetValuesCreateState | src/main/java/com/demo/thymeleaf/utils/QueryString.java:427-453 | On a freshly parsed query, getAllValues gives the key's values in order, and getFirstValue gives the first of them or nothing. |
| QueryStringOps.SameShapeWellFormed | src/main/java/com/demo/thymeleaf/utils/QueryString.java:144-156 | A state with the same keys, list lengths and overall indexes as a well-formed state is well formed. |
| QueryStringOps.SameShapeNext | src/main/java/com/demo/thymeleaf/utils/QueryString.java:678-684 | States of the same shape have the same next overall index. |
| QueryStringOps.ReplaceWhere | src/main/java/com/demo/thymeleaf/utils/QueryString.java:144-156 | Rewriting positions of a list keeps its length and its overall indexes. |
| QueryStringOps.ReplaceFirst | src/main/java/com/demo/thymeleaf/utils/QueryString.java:108-117 | replaceFirst keeps the state's keys, list lengths and indexes. |
| QueryStringOps.ReplaceN | src/main/java/com/demo/thymeleaf/utils/QueryString.java:126-135 | replaceN keeps the state's keys, list lengths and indexes. |
| QueryStringOps.ReplaceNth | src/main/java/com/demo/thymeleaf/utils/QueryString.java:174-193 | replaceNth keeps the state's keys, list lengths and indexes. |
| QueryStringOps.ReplaceWhereEffect | src/main/java/com/demo/thymeleaf/utils/QueryString.java:144-156 | Only the instructed positions of the instructed key change, each to its new live value; everything else stays and the state stays well formed. |
| QueryStringOps.ReplaceNValues | src/main/java/com/demo/thymeleaf/utils/QueryString.java:126-135 | The key's first m values become the first m given values, where m is the smaller of the two counts; the rest stay, and other keys are untouched. |
| QueryStringOps.ReplaceFirstNList | src/main/java/com/demo/thymeleaf/utils/QueryString.java:126-135 | On one list, replacing the first values gives the given values followed by the rest of the old values. |
| QueryStringOps.ReplaceFirstValues | src/main/java/com/demo/thymeleaf/utils/QueryString.java:108-117 | After replaceFirst the key's first value is the new one (when the key had a value), its other values and count stay, and other keys are untouched. |
| QueryStringOps.ReplaceNthValues | src/main/java/com/demo/thymeleaf/utils/QueryString.java:174-193 | Each value of each key becomes its instructed value when an instruction names its position, and otherwise stays; the count stays. |
| QueryStringOps.DeleteWhere | src/main/java/com/demo/thymeleaf/utils/QueryString.java:749-752 | Deleting positions keeps the list's length and indexes. |
| QueryStringOps.DeleteAt | src/main/java/com/demo/thymeleaf/utils/QueryString.java:201-276 | Deleting keeps the state's keys, list lengths and indexes. |
| QueryStringOps.Below | src/main/java/com/demo/thymeleaf/utils/QueryString.java:237-247 | The positions below n. |
| QueryStringOps.DeleteAtLive | src/main/java/com/demo/thymeleaf/utils/QueryString.java:201-298 | Deleting positions of a key removes exactly the targeted live entries from the reconstruction, and keeps the state well formed. |
| QueryStringOps.DeleteAtKeepsNoNew | src/main/java/com/demo/thymeleaf/utils/QueryString.java:201-298 | No entry becomes live through a delete, and no targeted entry stays live. |
| QueryStringOps.DeleteAtKeepsUntargeted | src/main/java/com/demo/thymeleaf/utils/QueryString.java:201-298 | Every live entry that was not targeted stays live. |
| QueryStringOps.RemoveAllLive | src/main/java/com/demo/thymeleaf/utils/QueryString.java:215-221 | After removeAll, the live entries are exactly those whose key is not in the list. |
| QueryStringOps.RemoveFirstLive | src/main/java/com/demo/thymeleaf/utils/QueryString.java:201-207 | removeFirst removes exactly the key's entry at position 0 from the live entries. |
| QueryStringOps.RemoveNthLive | src/main/java/com/demo/thymeleaf/utils/QueryString.java:270-276 | removeNth removes exactly the key's entry at the given position from the live entries. |
| QueryStringOps.RemoveManyNthLive | src/main/java/com/demo/thymeleaf/utils/QueryString.java:295-298 | removeManyNth removes exactly the key's entries at the given positions from the live entries. |
| QueryStringOps.RemoveNLive | src/main/java/com/demo/thymeleaf/utils/QueryString.java:230-250 | removeN removes exactly the key's entries at positions 0 to n-1; when n is not positive or the key is missing, nothing changes. |
| QueryStringOps.AdjustValue | src/main/java/com/demo/thymeleaf/utils/QueryString.java:350-362 | Adjusting a value keeps the entry's index, key and deleted flag. |
| QueryStringOps.AdjustWhere | src/main/java/com/demo/thymeleaf/utils/QueryString.java:350-362 | Adjusting positions keeps the list's length and indexes. |
| QueryStringOps.AdjustNumericValueBy | src/main/java/com/demo/thymeleaf/utils/QueryString.java:350-362 | Adjusting keeps the state's keys, list lengths and indexes. |
| QueryStringOps.AdjustValueEffect | src/main/java/com/demo/thymeleaf/utils/QueryString.java:350-362 | A value that parses as an int and passes the predicate becomes the 32-bit wrapped sum as text; any other value is left exactly as it was. |
| QueryStringOps.AdjustNumericValues | src/main/java/com/demo/thymeleaf/utils/QueryString.java:350-362 | Only the chosen positions of the key change, each by the wrapped int addition when it parses and passes the predicate; other keys, other positions and the next index stay. |
| QueryStringOps.WithoutMatches | src/main/java/com/demo/thymeleaf/utils/QueryString.java:377-413 | Filtering keeps exactly the entries whose value is not case-insensitively equal to the match, and keeps the indexes distinct. |
| QueryStringOps.FilteredWellFormed | src/main/java/com/demo/thymeleaf/utils/QueryString.java:377-413 | Filtering lists out of a well-formed state keeps it well formed. |
| QueryStringOps.FilteredLive | src/main/java/com/demo/thymeleaf/utils/QueryString.java:377-413 | When each list keeps exactly the entries a predicate accepts, the live entries are exactly the old live entries it accepts. |
| QueryStringOps.RemoveKeyMatchingValueLive | src/main/java/com/demo/thymeleaf/utils/QueryString.java:377-389 | The live entries lost are exactly those of the key whose value matches case-insensitively, so no matching value of the key is left. |
| QueryStringOps.RemoveAnyKeyMatchingValueLive | src/main/java/com/demo/thymeleaf/utils/QueryString.java:404-413 | The live entries lost are exactly those, under any key, whose value matches case-insensitively. |
| QueryStringOps.NextIsFresh | src/main/java/com/demo/thymeleaf/utils/QueryString.java:678-684 | An entry at the next overall index is fresh: no entry already uses that index. |
| QueryStringOps.AddKeyValueValues | src/main/java/com/demo/thymeleaf/utils/QueryString.java:469-485 | After add, the value is among the key's values, and no key loses a value. |
| QueryStringOps.AddKeyValueAppends | src/main/java/com/demo/thymeleaf/utils/QueryString.java:469-485 | Add appends a new entry at the end of the reconstruction order exactly when the key does not already hold the value, and otherwise changes nothing. |
| QueryStringOps.ReconstructAppend | src/main/java/com/demo/thymeleaf/utils/QueryString.java:92-99 | Appending an entry at the end of the order appends `&key=value` to the reconstruction, or gives `key=value` alone when nothing was live. |
| QueryStringOps.AddReconstruct | src/main/java/com/demo/thymeleaf/utils/QueryString.java:469-485 | An invalid pair leaves the state alone; a duplicate value leaves the text alone; otherwise the new pair appears at the end of the reconstruction. |
| QueryStringOps.AddPairStep | src/main/java/com/demo/thymeleaf/utils/QueryString.java:493-510 | One step of addAll keeps the old order as a prefix, adds at most one entry, and that entry is the pair. |
| QueryStringOps.AddPairsKeeps | src/main/java/com/demo/thymeleaf/utils/QueryString.java:493-510 | addAll keeps the state well formed, keeps the old reconstruction order as a prefix, and no key loses a value. |
| QueryStringOps.AddPairsPresent | src/main/java/com/demo/thymeleaf/utils/QueryString.java:493-510 | After addAll, every valid pair's value is among its key's values. |
| QueryStringOps.AddPairsFromList | src/main/java/com/demo/thymeleaf/utils/QueryString.java:493-510 | Every entry that addAll appends comes from a valid pair of the list. |
| QueryStringOps.FirstWhere | src/main/java/com/demo/thymeleaf/utils/QueryString.java:551-571 | The search returns the first position the predicate accepts, or nothing when no position is accepted. |
| QueryStringOps.FirstSortMatch | src/main/java/com/demo/thymeleaf/utils/QueryString.java:551-571 | The first `sort` value whose field token equals the field after trimming, or nothing when none does. |
| QueryStringOps.SetSortDirection | src/main/java/com/demo/thymeleaf/utils/QueryString.java:546-581 | Rewriting a sort direction keeps the state's keys, list lengths and indexes. |
| QueryStringOps.RewriteSortAt | src/main/java/com/demo/thymeleaf/utils/QueryString.java:572-577 | Rewriting one sort value keeps the state's shape. |
| QueryStringOps.NewSortValueReads | src/main/java/com/demo/thymeleaf/utils/QueryString.java:572-577 | The rewritten value still names the field, and its direction is the mapper applied to the old direction. |
| QueryStringOps.NewSortTokens | src/main/java/com/demo/thymeleaf/utils/QueryString.java:572-577 | The rewritten value is the trimmed field alone when the new direction is NONE, and otherwise the field followed by the direction. |
| QueryStringOps.RewriteSortAtFrame | src/main/java/com/demo/thymeleaf/utils/QueryString.java:572-577 | Rewriting touches only the one matched `sort` value and leaves it live. |
| QueryStringOps.RewriteSortAtReads | src/main/java/com/demo/thymeleaf/utils/QueryString.java:572-577 | After the rewrite the same position is still the first match, and it reads back the mapped direction. |
| QueryStringOps.SetSortDirectionEffect | src/main/java/com/demo/thymeleaf/utils/QueryString.java:546-581 | A null field, a missing `sort` key or no match leaves the state alone; otherwise only the first matching value changes, and it reads back the mapped direction. |
| QueryStringOps.FirstMatchUnchanged | src/main/java/com/demo/thymeleaf/utils/QueryString.java:551-571 | Changing positions after the first match, and keeping a match at that position, keeps it the first match. |
| QueryStringOps.ToggleTwiceRestores | src/main/java/com/demo/thymeleaf/utils/QueryString.java:521-535 | Toggling a field's explicit direction twice brings back the direction it started with. |
| QueryStringUtil.ValidPairs | src/main/java/com/demo/thymeleaf/utils/QueryStringUtil.java:10-17 | Only pairs that `fromPair` accepts are kept, and each kept pair is live with non-blank key and value. |
| QueryStringUtil.ToQueryString | src/main/java/com/demo/thymeleaf/utils/QueryStringUtil.java:10-17 | A null pair list fails with a null pointer; every non-null list gives a string. |
| QueryStringUtil.ValidPairsMembers | src/main/java/com/demo/thymeleaf/utils/QueryStringUtil.java:10-17 | A key/value is kept exactly when some pair of the list yields it. |
| QueryStringUtil.ValidPairsAppend | src/main/java/com/demo/thymeleaf/utils/QueryStringUtil.java:10-17 | Filtering a concatenation gives the concatenation of the filtered parts. |
| QueryStringUtil.ToQueryStringNoPairs | src/main/java/com/demo/thymeleaf/utils/QueryStringUtil.java:10-17 | A list with no valid pair gives the empty string. |
| QueryStringUtil.ToQueryStringRoundTrip | src/main/java/com/demo/thymeleaf/utils/QueryStringUtil.java:10-17 | The result splits on `&` into the valid pairs' texts, is accepted by `of`, and parses back to exactly the valid pairs. |
| QueryStringUtil.ExtractSortField | src/main/java/com/demo/thymeleaf/utils/QueryStringUtil.java:26-32 | A null or empty value gives "". |
| QueryStringUtil.ExtractSortFieldBeforeComma | src/main/java/com/demo/thymeleaf/utils/QueryStringUtil.java:26-32 | The extracted field is the text before the first comma. |
| QueryStringUtil.ExtractSortFieldOfWithSortField | src/main/java/com/demo/thymeleaf/utils/QueryStringUtil.java:26-32 | Extracting the field from `withSortField(field)` gives the field back, for every direction. |
| SortDirections.Value | src/main/java/com/demo/thymeleaf/utils/SortDirection.java:3-6 | The text of a direction is empty exactly for NONE. |
| SortDirections.Toggle | src/main/java/com/demo/thymeleaf/utils/SortDirection.java:40-49 | Toggling never gives NONE; ASC and DESC flip; NONE gives DESC when the default is ASC and ASC for a DESC or NONE default. |
| SortDirections.From | src/main/java/com/demo/thymeleaf/utils/SortDirection.java:14-23 | `from` gives a direction other than NONE only for that direction's own text. |
| SortDirections.FromValue | src/main/java/com/demo/thymeleaf/utils/SortDirection.java:14-23 | Reading back a direction's text gives the direction. |
| SortDirections.ToggleTwice | src/main/java/com/demo/thymeleaf/utils/SortDirection.java:40-49 | Toggling ASC or DESC twice gives it back. |
| SortDirections.SplitWithSortField | src/main/java/com/demo/thymeleaf/utils/SortDirection.java:57-62 | `withSortField` splits on commas into the field alone for NONE and into the field and the direction text otherwise. |
| SortDirections.WithSortField | src/main/java/com/demo/thymeleaf/utils/SortDirection.java:57-62 | Defines `withSortField`: the field alone for NONE, otherwise the field, a comma and the direction's text. SplitWithSortField states it splits back into field and direction, and ExtractSortFieldOfWithSortField that extractSortField recovers the field. |
| QueryStringHelper.AllValuesOf | src/main/java/com/demo/thymeleaf/expression/QueryStringHelper.java:431-433 | getAllValues fails with an illegal argument exactly when `of` rejects the query, and otherwise gives the key's values in the order they appear. |
| QueryStringHelper.RemoveManyNthOf | src/main/java/com/demo/thymeleaf/expression/QueryStringHelper.java:303-305 | removeManyNth fails with an illegal argument exactly when `of` rejects the query. |
| QueryStringHelper.AdjustNumericValueByOf | src/main/java/com/demo/thymeleaf/expression/QueryStringHelper.java:627-629 | adjustNumericValueBy fails with an illegal argument exactly when `of` rejects the query. |
| QueryStringHelper.SetSortDirectionOf | src/main/java/com/demo/thymeleaf/expression/QueryStringHelper.java:744-751 | Applying a direction mapper fails with an illegal argument exactly when `of` rejects the query. |
| QueryStringHelper.AddAfterRemoval | src/main/java/com/demo/thymeleaf/expression/QueryStringHelper.java:533-543 | Adding pairs after removal fails only with a null pointer, and only when the pair list is null. |
| QueryStringHelper.RemovedAll | src/main/java/com/demo/thymeleaf/expression/QueryStringHelper.java:533-543 | The state left after removing the keys is well formed. |
| QueryStringHelper.RemoveAllAndAdd | src/main/java/com/demo/thymeleaf/expression/QueryStringHelper.java:533-543 | A rejected query fails with an illegal argument; an accepted query with a non-null pair list always succeeds; the only other failure is a null pointer for a null pair list. |
| QueryStringHelper.RemovedEverything | src/main/java/com/demo/thymeleaf/expression/QueryStringHelper.java:533-543 | When every parsed pair's key is removed, nothing is left and the reconstruction is "". |
| QueryStringHelper.RemoveAllAndAddEmptied | src/main/java/com/demo/thymeleaf/expression/QueryStringHelper.java:539-542 | When the removal empties the query, the result is `toQueryString` of the pairs to add. |
| QueryStringHelper.ReparseRemoved | src/main/java/com/demo/thymeleaf/expression/QueryStringHelper.java:536-538 | The non-empty text left after removal is accepted by `of` again and parses back to the same pairs, so the second `of` never throws. |
| QueryStringHelper.AddPairsExtends | src/main/java/com/demo/thymeleaf/expression/QueryStringHelper.java:537-538 | Adding pairs keeps the old reconstruction as a prefix of the new one. |
| QueryStringHelper.RemoveAllAndAddKeeps | src/main/java/com/demo/thymeleaf/expression/QueryStringHelper.java:533-543 | When something is left after removal, the result succeeds and starts with the text that was left. |
| QueryStringHelper.RemoveAllAndAddOne | src/main/java/com/demo/thymeleaf/expression/QueryStringHelper.java:533-543 | Removing a key and adding one pair for it gives the remaining text followed by `&key=value`, or `key=value` alone. |
| QueryStringHelper.RemovedKeyAbsent | src/main/java/com/demo/thymeleaf/expression/QueryStringHelper.java:533-543 | A removed key has no values in the re-parsed remainder. |
| QueryStringHelper.AddOneAbsentKey | src/main/java/com/demo/thymeleaf/utils/QueryString.java:469-485 | Adding a pair whose key is absent appends `&key=value` to the reconstruction. |
| QueryStringHelper.AddSinglePair | src/main/java/com/demo/thymeleaf/utils/QueryString.java:493-510 | addAll of one valid pair is add of that pair. |
| QueryStringHelper.RemoveEachAsWritten | src/main/java/com/demo/thymeleaf/expression/QueryStringHelper.java:574-597 | The reduce as written: each step re-parses the text with `of`, so it can only fail with an illegal argument. |
| QueryStringHelper.RemoveEach | src/main/java/com/demo/thymeleaf/expression/QueryStringHelper.java:574-597 | The corrected reduce stops once the text is empty; it can only fail with an illegal argument. |
| QueryStringHelper.RemoveNthAndAddAsWritten | src/main/java/com/demo/thymeleaf/expression/QueryStringHelper.java:574-597 | removeNthAndAdd as written: a null or empty query gives ""; a null instruction or pair list gives the query unchanged; the only failure is an illegal argument. |
| QueryStringHelper.RemoveNthAndAdd | src/main/java/com/demo/thymeleaf/expression/QueryStringHelper.java:574-597 | The corrected removeNthAndAdd keeps the same null and empty cases, and its only failure is an illegal argument. |
| QueryStringHelper.RemoveManyNthReparses | src/main/java/com/demo/thymeleaf/expression/QueryStringHelper.java:303-305 | removeManyNth on an accepted query succeeds and leaves either "" or a query that `of` accepts again. |
| QueryStringHelper.RemoveEachReparses | src/main/java/com/demo/thymeleaf/expression/QueryStringHelper.java:574-597 | The corrected reduce never fails when started from "" or from an accepted query, and it ends on "" or on an accepted query. |
| QueryStringHelper.RemoveNthAndAddSucceeds | src/main/java/com/demo/thymeleaf/expression/QueryStringHelper.java:574-597 | The corrected removeNthAndAdd never fails on an accepted query. |
| QueryStringHelper.RemoveNthAndAddEmptied | src/main/java/com/demo/thymeleaf/expression/QueryStringHelper.java:590-596 | When the removals empty the query, the corrected version gives `toQueryString` of the pairs to add. |
| QueryStringHelper.RemoveNthAndAddAsWrittenFails | src/main/java/com/demo/thymeleaf/expression/QueryStringHelper.java:574-597 | With two or more instructions whose first one empties the query, the code as written throws an illegal argument, while the corrected version gives `toQueryString` of the pairs. |
| QueryStringHelper.SinglePairParses | src/main/java/com/demo/thymeleaf/utils/QueryString.java:63-74 | A single plain `key=value` is accepted by `of` and parses to that one pair. |
| QueryStringHelper.RemoveOnlyPair | src/main/java/com/demo/thymeleaf/expression/QueryStringHelper.java:303-305 | Removing position 0 of the only pair leaves "". |
| QueryStringHelper.ToQueryStringOnePair | src/main/java/com/demo/thymeleaf/utils/QueryStringUtil.java:10-17 | `toQueryString` of one valid pair is `key=value`. |
| QueryStringHelper.RemoveNthAndAddOnlyPair | src/main/java/com/demo/thymeleaf/expression/QueryStringHelper.java:574-597 | Concrete witness: for `key=value` with instructions [(key,[0]), next], the code as written throws, while the corrected version gives `newKey=newValue`. |
| QueryStringHelper.IncrementPage | src/main/java/com/demo/thymeleaf/expression/QueryStringHelper.java:679-681 | incrementPage fails with an illegal argument exactly when `of` rejects the query. |
| QueryStringHelper.IncrementPageBelow | src/main/java/com/demo/thymeleaf/expression/QueryStringHelper.java:702-706 | The bounded incrementPage fails with an illegal argument exactly when `of` rejects the query. |
| QueryStringHelper.DecrementPage | src/main/java/com/demo/thymeleaf/expression/QueryStringHelper.java:729-733 | decrementPage fails with an illegal argument exactly when `of` rejects the query. |
| QueryStringHelper.DecrementPageValue | src/main/java/com/demo/thymeleaf/expression/QueryStringHelper.java:729-733 | A positive first page goes down by one; a page that is not a number, or is not positive, stays; a non-negative page never becomes negative. |
| QueryStringHelper.IncrementPageBelowValue | src/main/java/com/demo/thymeleaf/expression/QueryStringHelper.java:702-706 | A first page below the bound goes up by one; other pages stay; a page at or below the bound never passes it. |
| QueryStringHelper.IncrementPageValue | src/main/java/com/demo/thymeleaf/expression/QueryStringHelper.java:679-681 | A numeric first page goes up by one with 32-bit wrap-around, so Integer.MAX_VALUE becomes Integer.MIN_VALUE; a page that is not a number stays. |
| QueryStringHelper.FirstAdjusted | src/main/java/com/demo/thymeleaf/expression/QueryStringHelper.java:655-657 | adjustFirstNumericValueBy changes only position 0 of the key. |
| QueryStringHelper.SetSortDirectionTo | src/main/java/com/demo/thymeleaf/expression/QueryStringHelper.java:744-751 | NONE is rejected with an illegal argument; ASC or DESC succeeds exactly when `of` accepts the query. |
| QueryStringHelper.SetSortDirectionAsc | src/main/java/com/demo/thymeleaf/expression/QueryStringHelper.java:777-779 | Setting ASC succeeds exactly when `of` accepts the query. |
| QueryStringHelper.SetSortDirectionDesc | src/main/java/com/demo/thymeleaf/expression/QueryStringHelper.java:789-791 | Setting DESC succeeds exactly when `of` accepts the query. |
| QueryStringHelper.ToggleSortOf | src/main/java/com/demo/thymeleaf/expression/QueryStringHelper.java:830-870 | Toggling a sort (with ASC or DESC as the default) succeeds exactly when `of` accepts the query. |
| QueryStringHelper.IsFieldSorted | src/main/java/com/demo/thymeleaf/expression/QueryStringHelper.java:1207-1211 | isFieldSorted fails with an illegal argument exactly when `of` rejects the query. |
| QueryStringHelper.SortFields | src/main/java/com/demo/thymeleaf/expression/QueryStringHelper.java:1207-1211 | The extracted field of each sort value, in order. |
| QueryStringHelper.FirstSorted | src/main/java/com/demo/thymeleaf/expression/QueryStringHelper.java:1222-1231 | The first sort value whose extracted field equals the field, or nothing when none does. |
| QueryStringHelper.FirstSortedTail | src/main/java/com/demo/thymeleaf/expression/QueryStringHelper.java:1222-1231 | Skipping a non-matching head shifts the first match by one. |
| QueryStringHelper.CurrentSortDirectionAsWritten | src/main/java/com/demo/thymeleaf/expression/QueryStringHelper.java:1222-1231 | The stream as written fails only with an index-out-of-bounds error. |
| QueryStringHelper.GetCurrentSortDirectionAsWritten | src/main/java/com/demo/thymeleaf/expression/QueryStringHelper.java:1222-1231 | getCurrentSortDirection as written fails with an illegal argument when `of` rejects the query. |
| QueryStringHelper.GetCurrentSortDirection | src/main/java/com/demo/thymeleaf/expression/QueryStringHelper.java:1222-1231 | The corrected getCurrentSortDirection fails, with an illegal argument, exactly when `of` rejects the query. |
| QueryStringHelper.CurrentSortDirectionAsWrittenAgrees | src/main/java/com/demo/thymeleaf/expression/QueryStringHelper.java:1222-1231 | The code as written throws exactly when a sort value made only of commas comes before the first match; otherwise it gives the corrected answer. |
| QueryStringHelper.GetCurrentSortDirectionAsWrittenFails | src/main/java/com/demo/thymeleaf/expression/QueryStringHelper.java:1222-1231 | For a query `sort=` followed only by commas (such as `sort=,`), the code as written throws, while the corrected version reports no direction. |
| QueryStringHelper.OnlySortValue | src/main/java/com/demo/thymeleaf/expression/QueryStringHelper.java:431-433 | `sort=` followed by commas parses to that one sort value. |
| QueryStringHelper.CommasNameNoField | src/main/java/com/demo/thymeleaf/expression/QueryStringHelper.java:1222-1231 | A sort value made only of commas throws in the code as written and names no field in the corrected version. |
| QueryStringHelper.SortedIffDirection | src/main/java/com/demo/thymeleaf/expression/QueryStringHelper.java:1207-1211 | isFieldSorted is true exactly when getCurrentSortDirection finds a direction for the field. |
| QueryStringHelper.CurrentSortDirectionReadsBack | src/main/java/com/demo/thymeleaf/expression/QueryStringHelper.java:1222-1231 | A value written with `withSortField` reads back its direction, or the default direction when it was written with NONE. |
| QueryStringHelper.ValueWhenMatchesSort | src/main/java/com/demo/thymeleaf/expression/QueryStringHelper.java:1025-1035 | Fails exactly when `of` rejects the query, and otherwise gives one of the three given values. |
| QueryStringHelper.ValueWhenMatchesSortCases | src/main/java/com/demo/thymeleaf/expression/QueryStringHelper.java:1025-1035 | For a field sorted in a given direction, the matching value is returned when that direction (or no direction) was written, and the non-matching value otherwise. |
| QueryStringHelper.CurrentDirectionOfQuery | src/main/java/com/demo/thymeleaf/expression/QueryStringHelper.java:1222-1231 | On a whole query, the current direction of a sorted field is the direction written for it, or the default when none was written. |
| QueryStringHelper.ValueWhenMatchesSortMissing | src/main/java/com/demo/thymeleaf/expression/QueryStringHelper.java:1025-1035 | An unsorted field gives the missing value. |
| QueryStringHelper.AddAllOf | src/main/java/com/demo/thymeleaf/expression/QueryStringHelper.java:499-501 | addAll fails with an illegal argument exactly when `of` rejects the query. |
| QueryStringHelper.FieldSorterAsWritten | src/main/java/com/demo/thymeleaf/expression/QueryStringHelper.java:882-900 | fieldSorter as written can only fail with an illegal argument. |
| QueryStringHelper.SortExisting | src/main/java/com/demo/thymeleaf/expression/QueryStringHelper.java:890-899 | The non-blank branch fails with an illegal argument exactly when `of` rejects the query. |
| QueryStringHelper.FieldSorter | src/main/java/com/demo/thymeleaf/expression/QueryStringHelper.java:882-900 | The corrected fieldSorter fails only on a non-null query that `of` rejects. |
| QueryStringHelper.FieldSorterAsc | src/main/java/com/demo/thymeleaf/expression/QueryStringHelper.java:999-1002 | fieldSorterAsc can only fail with an illegal argument. |
| QueryStringHelper.FieldSorterDesc | src/main/java/com/demo/thymeleaf/expression/QueryStringHelper.java:1011-1013 | fieldSorterDesc can only fail with an illegal argument. |
| QueryStringHelper.BlankIsNoQuery | src/main/java/com/demo/thymeleaf/utils/QueryString.java:63-74 | A blank text is never accepted by `of`. |
| QueryStringHelper.FieldSorterAsWrittenBlank | src/main/java/com/demo/thymeleaf/expression/QueryStringHelper.java:886-888 | For a null or blank query, the code as written throws an illegal argument. |
| QueryStringHelper.FieldSorterBlank | src/main/java/com/demo/thymeleaf/expression/QueryStringHelper.java:886-888 | For a null or blank query, the corrected version gives `sort=field,direction`. |
| QueryStringHelper.FieldSorterReplaces | src/main/java/com/demo/thymeleaf/expression/QueryStringHelper.java:899-899 | When the field is not sorted, every existing sort is replaced by `sort=field,direction` at the end. |
| QueryStringHelper.FieldSorterToggles | src/main/java/com/demo/thymeleaf/expression/QueryStringHelper.java:890-897 | When the field is already sorted, fieldSorter is the toggle with the same default direction. |
| QueryStringHelper.SortPairs | src/main/java/com/demo/thymeleaf/expression/QueryStringHelper.java:1178-1184 | Each field and direction becomes a `sort` pair, in order. |
| QueryStringHelper.CreateNewSort | src/main/java/com/demo/thymeleaf/expression/QueryStringHelper.java:1178-1184 | createNewSort fails with an illegal argument exactly when `of` rejects the query. |
| QueryStringHelper.CreateNewSortOne | src/main/java/com/demo/thymeleaf/expression/QueryStringHelper.java:1178-1184 | One new sort replaces all existing sorts and is appended as `sort=value`. |
| QueryStringHelper.Url | src/main/java/com/demo/thymeleaf/expression/QueryStringHelper.java:1331-1337 | A null or empty request URI is rejected with an illegal argument, and only then. |
| QueryStringHelper.UrlParts | src/main/java/com/demo/thymeleaf/expression/QueryStringHelper.java:1331-1337 | The URL is the request URI, followed by `?` and the query when the query is non-empty; the text before `?` is the URI and the text after it is the query. |
| ReservationFlows.Step.FlowStep | src/main/java/com/demo/reservation/flow/forms/ReservationFlow.java:16-48 | Each step's number lies in 0 to 5, and `from` maps it back to the step. |
| ReservationFlows.StepFrom | src/main/java/com/demo/reservation/flow/forms/ReservationFlow.java:30-47 | Any number outside 0 to 5 falls back to the Dates step. |
| ReservationFlows.StepFromInRange | src/main/java/com/demo/reservation/flow/forms/ReservationFlow.java:30-47 | For a number in 0 to 5, the step `from` gives has that number. |
| ReservationFlows.NumberedReadsBack | src/main/java/com/demo/reservation/flow/forms/ReservationFlow.java:136-146 | A numbered title starts with the step number plus one, written in decimal and followed by `. ` and the text. |
| ReservationFlows.DescriptionReadsBack | src/main/java/com/demo/reservation/flow/forms/ReservationFlow.java:136-146 | The titled and described forms of a step description start with its normalized number (step plus one), followed by `. ` and the title or the description. |
| ReservationFlows.StepDescription.FlowStepWithTitle | src/main/java/com/demo/reservation/flow/forms/ReservationFlow.java:140-142 | Defines `getFlowStepWithTitle`: the one-based step number, `. ` and the title. NumberedReadsBack and DescriptionReadsBack state that the number and the title read back out of the text. |
| ReservationFlows.StepDescription.FlowStepWithDescription | src/main/java/com/demo/reservation/flow/forms/ReservationFlow.java:144-146 | Defines `getFlowStepWithDescription`: the one-based step number, `. ` and the description. DescriptionReadsBack states that the number and the description read back out of the text. |
| ReservationFlows.StandardDescriptions | src/main/java/com/demo/reservation/flow/forms/ReservationFlow.java:59-66 | The descriptions built for a new flow are numbered 0 to 5 in order, and each title is its step's name. |
| ReservationFlows.ReservationFlow.constructor | src/main/java/com/demo/reservation/flow/forms/ReservationFlow.java:59-66 | A new flow is on the Dates step with nothing completed, and holds the standard descriptions. |
| ReservationFlows.ReservationFlow.SetActive | src/main/java/com/demo/reservation/flow/forms/ReservationFlow.java:76-78 | Only the active step changes. |
| ReservationFlows.ReservationFlow.ActiveStepDescription | src/main/java/com/demo/reservation/flow/forms/ReservationFlow.java:84-86 | The description returned is one of the flow's descriptions, and its number is the active step's. |
| ReservationFlows.ReservationFlow.CompleteStep | src/main/java/com/demo/reservation/flow/forms/ReservationFlow.java:88-90 | Only the completed set changes: it gains the step. |
| ReservationFlows.ReservationFlow.IncompleteStep | src/main/java/com/demo/reservation/flow/forms/ReservationFlow.java:92-94 | Only the completed set changes: it loses the step. |
| ReservationFlows.ReservationFlow.EnterStep | src/main/java/com/demo/reservation/flow/forms/ReservationFlow.java:104-107 | The step becomes active and is no longer completed; every other step keeps its completed status. |
| ReservationFlows.ReservationFlow.IsActive | src/main/java/com/demo/reservation/flow/forms/ReservationFlow.java:96-98 | Defines `isActive`: the step is the active one. ExactlyOneActive states exactly one step is active; EnterStep states the entered step becomes active. |
| ReservationFlows.ReservationFlow.IsCompleted | src/main/java/com/demo/reservation/flow/forms/ReservationFlow.java:100-102 | Defines `isCompleted`: the step is in the completed set. EnterStep states the entered step is no longer completed and every other step keeps its status. |
| ReservationFlows.ExactlyOneActive | src/main/java/com/demo/reservation/flow/forms/ReservationFlow.java:96-98 | A flow always has exactly one active step. |
| FlowForms.NextStep | src/main/java/com/demo/reservation/flow/forms/ReservationFlowForms.java:25-29 | Moving forward adds one while a next step exists, and otherwise stays on the last step; it never leaves the range. |
| FlowForms.PreviousStep | src/main/java/com/demo/reservation/flow/forms/ReservationFlowForms.java:31-35 | Moving back subtracts one while the step is above 0, and otherwise stays at 0; it never goes below 0. |
| FlowForms.NextPreviousInverse | src/main/java/com/demo/reservation/flow/forms/ReservationFlowForms.java:25-35 | Moving forward then back, or back then forward, returns to the step whenever the first move really moved. |
| FlowForms.MovesStayInRange | src/main/java/com/demo/reservation/flow/forms/ReservationFlowForms.java:25-35 | Any sequence of forward and back moves stays within the step names. |
| FlowForms.ReservationFlowForms.constructor | src/main/java/com/demo/reservation/flow/forms/ReservationFlowForms.java:10-11 | A new form starts at step 0 of the single step name "Dates". |
| FlowForms.ReservationFlowForms.IncrementStep | src/main/java/com/demo/reservation/flow/forms/ReservationFlowForms.java:25-29 | The step becomes NextStep of the old step, and stays in range. |
| FlowForms.ReservationFlowForms.DecrementStep | src/main/java/com/demo/reservation/flow/forms/ReservationFlowForms.java:31-35 | The step becomes PreviousStep of the old step, and stays in range. |
| FlowForms.ReservationFlowForms.ActiveStepName | src/main/java/com/demo/reservation/flow/forms/ReservationFlowForms.java:37-39 | The active name is one of the step names. |
| Utils.Mapped | src/main/java/com/demo/util/Utils.java:9-13 | The key mapper applied to each item, in order. |
| Utils.ToCsv | src/main/java/com/demo/util/Utils.java:9-13 | No items give ""; one item gives its mapped text alone. |
| Utils.ToCsvAppend | src/main/java/com/demo/util/Utils.java:9-13 | Appending an item to a non-empty list appends `, ` and its mapped text. |
| Utils.Capitalize | src/main/java/com/demo/util/Utils.java:15-18 | Same length; the first character is upper-cased and every later one lower-cased. |
| Utils.CapitalizeIdempotent | src/main/java/com/demo/util/Utils.java:15-18 | Capitalizing twice is the same as capitalizing once. |
| Utils.CapitalizeIgnoresCase | src/main/java/com/demo/util/Utils.java:15-18 | Capitalizing ignores the input's case: lower-casing first changes nothing. |
| Utils.CapitalizeKeepsNoWhitespace | src/main/java/com/demo/util/Utils.java:15-18 | A word without whitespace stays without whitespace. |
| Utils.CapitalizeAll | src/main/java/com/demo/util/Utils.java:20-24 | Each word capitalized, in order. |
| Utils.CapitalizeWordsOfJoin | src/main/java/com/demo/util/Utils.java:20-24 | capitalizeWords of words joined with spaces is the capitalized words joined with spaces, and it splits back into those words. |
| Utils.SplitOfJoinWithSpaces | src/main/java/com/demo/util/Utils.java:20-24 | Words without whitespace, the last one non-empty, joined with spaces split back into the same words. |
| Utils.CapitalizeWordsIdempotent | src/main/java/com/demo/util/Utils.java:20-24 | capitalizeWords applied twice is the same as applied once. |
| Utils.CapitalizeWords | src/main/java/com/demo/util/Utils.java:20-24 | Defines `capitalizeWords`: split at single whitespace characters, each word capitalized, rejoined with single spaces. CapitalizeWordsOfJoin states the effect on space-joined words, and CapitalizeWordsIdempotent that applying it twice changes nothing more. |
| Guests.CompareBooleans | src/main/java/com/demo/domain/Guest.java:84-88 | Boolean comparison: equal gives 0, false before true. |
| Guests.Compare | src/main/java/com/demo/domain/Guest.java:84-88 | Defines `comparator()`: the child flag first (adults before children), then the first name, then the last name. CompareZeroIff, CompareAntisymmetric and CompareTransitive state it is a total order; AdultsFirst that adults come first. |
| Guests.CompareZeroIff | src/main/java/com/demo/domain/Guest.java:84-88 | The comparator gives 0 exactly for guests with the same child flag, first name and last name. |
| Guests.CompareAntisymmetric | src/main/java/com/demo/domain/Guest.java:84-88 | Swapping the two guests negates the comparison. |
| Guests.CompareTransitive | src/main/java/com/demo/domain/Guest.java:84-88 | The comparator's ordering is transitive. |
| Guests.AdultsFirst | src/main/java/com/demo/domain/Guest.java:84-88 | An adult always sorts before a child. |
| Guests.LowerIgnoresCase | src/main/java/com/demo/domain/Guest.java:50-63 | Lower-casing ignores the input's case. |
| Guests.FormattedNameOfWords | src/main/java/com/demo/domain/Guest.java:73-75 | For one-word names, the formatted full name is the capitalized first name, a space, and the capitalized last name. |
| Guests.OneWord | src/main/java/com/demo/domain/Guest.java:73-75 | capitalizeWords of a lower-cased single word is that word capitalized. |
| Guests.Guest.constructor | src/main/java/com/demo/domain/Guest.java:34-38 | The names are stored lower-cased, together with the child flag. |
| Guests.Guest.SetFirstName | src/main/java/com/demo/domain/Guest.java:50-52 | Only the first name changes, and it is stored lower-cased. |
| Guests.Guest.SetLastName | src/main/java/com/demo/domain/Guest.java:61-63 | Only the last name changes, and it is stored lower-cased. |
| Guests.Guest.SetChild | src/main/java/com/demo/domain/Guest.java:69-71 | Only the child flag changes. |
| Guests.ComparatorMatchesEquals | src/main/java/com/demo/domain/Guest.java:84-101 | The comparator gives 0 exactly when `equals` holds. |
| Guests.Guest.Equals | src/main/java/com/demo/domain/Guest.java:93-101 | Defines `equals`: the same object, or the same child flag and names. ComparatorMatchesEquals states the comparator gives 0 exactly for equal guests; CaseVariantsEqual that names differing only in case give equal guests. |
| Guests.Guest.FormattedFullName | src/main/java/com/demo/domain/Guest.java:73-75 | Defines `getFormattedFullName`: capitalizeWords of the first name, a space, capitalizeWords of the last name. FormattedNameOfWords states the result for one-word names. |
| Guests.CaseVariantsEqual | src/main/java/com/demo/domain/Guest.java:34-101 | Two guests whose names differ only in case are equal. |
| Extras.PriceFor | src/main/java/com/demo/domain/Extra.java:78-80 | No nights cost nothing; one night costs the per-night price. |
| Extras.PriceForAdditive | src/main/java/com/demo/domain/Extra.java:78-80 | The price for a + b nights is the price for a plus the price for b; with a non-negative price, more nights never cost less. |
| Extras.Extra.constructor | src/main/java/com/demo/domain/Extra.java:48-53 | The extra holds the given description, price, type and category, with no id. |
| Extras.Extra.SetId | src/main/java/com/demo/domain/Extra.java:58-60 | Only the id changes. |
| Extras.Extra.SetDescription | src/main/java/com/demo/domain/Extra.java:70-72 | Only the description changes. |
| Extras.Extra.SetPerNightPrice | src/main/java/com/demo/domain/Extra.java:82-84 | Only the per-night price changes. |
| Extras.Extra.SetType | src/main/java/com/demo/domain/Extra.java:90-92 | Only the type changes. |
| Extras.Extra.SetCategory | src/main/java/com/demo/domain/Extra.java:98-100 | Only the category changes. |
| Extras.Extra.TotalPrice | src/main/java/com/demo/domain/Extra.java:78-80 | Zero nights cost nothing. |
| Extras.ExtraHash | src/main/java/com/demo/domain/Extra.java:113-115 | The hash is a 32-bit int. |
| Extras.EqualExtrasHashAlike | src/main/java/com/demo/domain/Extra.java:103-115 | Equal extras have equal hash codes. |
| Extras.Extra.Equals | src/main/java/com/demo/domain/Extra.java:102-110 | Defines `equals`: the same object, or the same description, type and category; id and price do not count. EqualExtrasHashAlike states equal extras hash alike. |
| StayDates.Nights | src/main/java/com/demo/domain/ReservationDates.java:79-84 | A missing check-in or check-out date gives 0 nights. |
| StayDates.NightsCount | src/main/java/com/demo/domain/ReservationDates.java:79-84 | The same day gives 0 nights; nights are negative exactly when check-out is before check-in; swapping the dates negates the count; the nights of two consecutive stays add up. |
| StayDates.DaysBetween | src/main/java/com/demo/domain/ReservationDates.java:83 | Defines `ChronoUnit.DAYS.between`: the day difference from the first date to the second. NightsCount states it is zero for the same day, negative exactly when the second date is earlier, antisymmetric and additive. |
| StayDates.ReservationDates.constructor | src/main/java/com/demo/domain/ReservationDates.java:30-31 | A new set of dates has no dates, no check-in time and both flags false. |
| StayDates.ReservationDates.SetCheckInDate | src/main/java/com/demo/domain/ReservationDates.java:37-39 | Only the check-in date changes. |
| StayDates.ReservationDates.SetCheckOutDate | src/main/java/com/demo/domain/ReservationDates.java:45-47 | Only the check-out date changes. |
| StayDates.ReservationDates.SetEstimatedCheckInTime | src/main/java/com/demo/domain/ReservationDates.java:53-55 | Only the estimated check-in time changes. |
| StayDates.ReservationDates.SetLateCheckout | src/main/java/com/demo/domain/ReservationDates.java:64-66 | Only the late-checkout flag changes. |
| StayDates.ReservationDates.SetCheckoutAcknowledged | src/main/java/com/demo/domain/ReservationDates.java:75-77 | Only the checkout-acknowledged flag changes. |
| StayDates.ReservationDates.TotalNights | src/main/java/com/demo/domain/ReservationDates.java:79-84 | 0 when a date is missing; otherwise the days from check-in to check-out. |
| Bookings.PlusHours | src/main/java/com/demo/domain/Hotel.java:190-196 | Adding hours that stay within the day moves the time by that many hours. |
| Bookings.TruncatingDiv | src/main/java/com/demo/domain/Hotel.java:190-196 | Java's long division, rounding toward zero for negative operands. |
| Bookings.HourlyFrom | src/main/java/com/demo/domain/Hotel.java:190-196 | count times, starting at the first time, each one hour after the one before. |
| Bookings.CheckInTimes | src/main/java/com/demo/domain/Hotel.java:190-196 | Fails with an illegal argument exactly when the whole hours from earliest to latest (rounded toward zero) plus one is negative, the negative stream limit; otherwise that many times, starting at the earliest. |
| Bookings.HourlyClosedForm | src/main/java/com/demo/domain/Hotel.java:190-196 | The i-th time is the earliest plus i hours. |
| Bookings.CheckInTimesWithinWindow | src/main/java/com/demo/domain/Hotel.java:190-196 | When the earliest time is not after the latest, every slot is the earliest plus a whole number of hours, and lies between the two. |
| Bookings.DefaultCheckInTimes | src/main/java/com/demo/domain/Hotel.java:57-61 | The default window from 07:00 to 22:00 gives 16 check-in times. |
| Bookings.Hotel.constructor | src/main/java/com/demo/domain/Hotel.java:63-70 | A new hotel has no rooms and the default times (07:00 to 22:00 check-in, 11:00 and 22:00 check-out) and late checkout fee 15.95. |
| Bookings.Hotel.WithTimes | src/main/java/com/demo/domain/Hotel.java:72-88 | A new hotel with explicit times has no rooms and holds the given times and fee. |
| Bookings.Hotel.AddRoom | src/main/java/com/demo/domain/Hotel.java:97-100 | The room's hotel becomes this hotel; the room joins the set unless an equal room is already there; an equal room is in the set afterwards. The frame lets only the hotel's room set and the room's hotel change, so every other field of both keeps its value. |
| Bookings.Hotel.AllowableCheckInTimes | src/main/java/com/demo/domain/Hotel.java:190-196 | On success, one time per whole hour from earliest to latest check-in, plus one. |
| Bookings.Hotel.HashCode | src/main/java/com/demo/domain/Hotel.java:208-211 | The hash is a 32-bit int. |
| Bookings.EqualHotelsHashAlike | src/main/java/com/demo/domain/Hotel.java:199-211 | Equal hotels have equal hash codes. |
| Bookings.Hotel.Equals | src/main/java/com/demo/domain/Hotel.java:198-205 | Defines `equals`: the same object, or the same address and email. EqualHotelsHashAlike states equal hotels hash alike, and AddRoom uses it through the room set. |
| Bookings.Room.constructor | src/main/java/com/demo/domain/Room.java:36-41 | A new room holds the given number, type, beds and price, with no hotel and no reservation. |
| Bookings.Room.SetHotel | src/main/java/com/demo/domain/Room.java:58-60 | The hotel becomes the argument; the frame lets no other field change. |
| Bookings.Room.SetRoomNumber | src/main/java/com/demo/domain/Room.java:66-68 | The room number becomes the argument; the frame lets no other field change. |
| Bookings.Room.SetReservation | src/main/java/com/demo/domain/Room.java:98-103 | A null reservation changes nothing; otherwise the room holds the reservation, the reservation points back to the room and keeps its dates. The frame lets only the room's reservation and the reservation change, so the room's number, type, beds, price, id and hotel keep their values. |
| Bookings.Room.HashCode | src/main/java/com/demo/domain/Room.java:118-120 | The hash is a 32-bit int. |
| Bookings.EqualRoomsHashAlike | src/main/java/com/demo/domain/Room.java:110-120 | Equal rooms have equal hash codes. |
| Bookings.Room.IsReserved | src/main/java/com/demo/domain/Room.java:105-107 | Defines `isReserved`: the room holds a reservation. SetReservation states a non-null reservation makes it hold, and a null one leaves it as it was. |
| Bookings.Room.Equals | src/main/java/com/demo/domain/Room.java:109-115 | Defines `equals`: the same object, or the same room number. EqualRoomsHashAlike states equal rooms hash alike; AddRoom keeps at most one room per number. |
| Bookings.Reservation.constructor | src/main/java/com/demo/domain/Reservation.java:68-69 | A new reservation has no room and no dates. |
| Bookings.Reservation.SetRoom | src/main/java/com/demo/domain/Reservation.java:83-85 | Only the reservation's room changes. |
| Bookings.Reservation.SetReservationDates | src/main/java/com/demo/domain/Reservation.java:127-129 | Only the reservation's dates change. |
| MealPlans.ApplyDiscounts | src/main/java/com/demo/domain/MealPlan.java:119-127 | An adult pays the per-night price times the nights; a child pays 40% of it (a 60% discount). |
| MealPlans.Discounted | src/main/java/com/demo/domain/MealPlan.java:97-103 | Each extra's price with its discount applied, in order. |
| MealPlans.TotalCostFactors | src/main/java/com/demo/domain/MealPlan.java:97-103 | Discounting each extra and then adding up gives the same total as discounting the summed per-night prices. |
| MealPlans.ChildPaysFortyPercent | src/main/java/com/demo/domain/MealPlan.java:119-127 | A child's meal plan costs 40% of an adult's. |
| MealPlans.TotalCostBounds | src/main/java/com/demo/domain/MealPlan.java:97-103 | With non-negative prices and nights, the cost is at least zero and never more than an adult's. |
| MealPlans.PerNightPrices | src/main/java/com/demo/domain/MealPlan.java:97-103 | The per-night price of each extra, in order. |
| MealPlans.Descriptions | src/main/java/com/demo/domain/MealPlan.java:129-131 | The description of each extra, in order. |
| MealPlans.MealPlan.constructor | src/main/java/com/demo/domain/MealPlan.java:37-43 | The plan holds the given guest, reservation, extras and requirements, with no id. |
| MealPlans.MealPlan.SetGuest | src/main/java/com/demo/domain/MealPlan.java:57-59 | The guest becomes the argument; the frame lets no other field change. |
| MealPlans.MealPlan.SetReservation | src/main/java/com/demo/domain/MealPlan.java:65-67 | The reservation becomes the argument; the frame lets no other field change. |
| MealPlans.MealPlan.SetFoodExtras | src/main/java/com/demo/domain/MealPlan.java:73-75 | The food extras become the argument; the frame lets no other field change. |
| MealPlans.MealPlan.SetDietaryRequirements | src/main/java/com/demo/domain/MealPlan.java:81-83 | The dietary requirements become the argument; the frame lets no other field change. |
| MealPlans.MealPlan.TotalMealPlanCost | src/main/java/com/demo/domain/MealPlan.java:97-103 | Fails with a null pointer exactly when there is no reservation, the reservation has no dates, or there are extras but no guest; otherwise the discounted per-night total times the stay's nights. |
| MealPlans.MealPlan.FoodExtraCsv | src/main/java/com/demo/domain/MealPlan.java:129-131 | No extras give ""; one extra gives its description alone. |
| MealPlans.MealPlan.DietRequirementsCsv | src/main/java/com/demo/domain/MealPlan.java:133-135 | No requirements give ""; one gives its description alone. |
| MealPlans.DietRequirementsCsvAppend | src/main/java/com/demo/domain/MealPlan.java:133-135 | Adding a requirement appends `, ` and its description. |
| MealPlans.MealPlan.IsEmpty | src/main/java/com/demo/domain/MealPlan.java:85-87 | Defines `isEmpty`: no food extras and no dietary requirements, which is neither HasFoodExtras nor HasDietRequirements. |
| MealPlans.MealPlan.HasFoodExtras | src/main/java/com/demo/domain/MealPlan.java:105-107 | Defines `hasFoodExtras`: the extras list is non-empty; SetFoodExtras states how it changes. |
| MealPlans.MealPlan.HasDietRequirements | src/main/java/com/demo/domain/MealPlan.java:109-111 | Defines `hasDietRequirements`: the requirement list is non-empty; SetDietaryRequirements states how it changes. |
| MealPlans.MealPlan.Equals | src/main/java/com/demo/domain/MealPlan.java:137-143 | Defines `equals`: the same object, or the same `mealPlanId`; no other field counts. |
| Payments.ExpiryYearsFrom | src/main/java/com/demo/domain/PendingPayment.java:132-138 | Fails exactly when the year ten years on is beyond the largest year; otherwise the 11 years from the creation year on, in order. |
| Payments.ExpiryYearsIncreasing | src/main/java/com/demo/domain/PendingPayment.java:132-138 | The expiry years run from the creation year to ten years later, strictly increasing. |
| Payments.AllMonths | src/main/java/com/demo/domain/PendingPayment.java:143-148 | The months 1 to 12, in order. |
| Payments.MonthsFrom | src/main/java/com/demo/domain/PendingPayment.java:143-148 | Keeps exactly the months at or after the current month. |
| Payments.MonthsFromConsecutive | src/main/java/com/demo/domain/PendingPayment.java:143-148 | Filtering a run of consecutive months gives a consecutive run from the later of its start and the current month. |
| Payments.ExpiryMonthsRange | src/main/java/com/demo/domain/PendingPayment.java:143-148 | The expiry months run from the current month to December, one after another. |
| Payments.Last4Of | src/main/java/com/demo/domain/PendingPayment.java:150-152 | A null number fails with a null pointer, and one shorter than 4 with an index out of bounds; otherwise the result is the number's last 4 characters. |
| Payments.ValidNumberLast4 | src/main/java/com/demo/domain/PendingPayment.java:25-31 | A valid 10-digit card number yields its last 4 digits. |
| Payments.IsValidCardNumber | src/main/java/com/demo/domain/PendingPayment.java:25-27 | Defines the `[0-9]{10}` constraint: exactly ten ASCII digits. ValidNumberLast4 states such a number yields its last four digits. |
| Payments.IsValidCvv | src/main/java/com/demo/domain/PendingPayment.java:29-31 | Defines the `[0-9]{3}` constraint: exactly three ASCII digits. |
| Payments.ExpiryOf | src/main/java/com/demo/domain/PendingPayment.java:101-103 | Fails with a null pointer exactly when the year or the month is missing; otherwise that year and month. |
| Payments.PendingPayment.constructor | src/main/java/com/demo/domain/PendingPayment.java:65-67 | A new payment holds only its creation time. |
| Payments.PendingPayment.SetCreditCardType | src/main/java/com/demo/domain/PendingPayment.java:73-75 | The card type becomes the argument; the frame lets no other field change. |
| Payments.PendingPayment.SetCreditCardNumber | src/main/java/com/demo/domain/PendingPayment.java:81-83 | The card number becomes the argument; the frame lets no other field change. |
| Payments.PendingPayment.SetCvv | src/main/java/com/demo/domain/PendingPayment.java:89-91 | The CVV becomes the argument; the frame lets no other field change. |
| Payments.PendingPayment.SetCardHolderName | src/main/java/com/demo/domain/PendingPayment.java:97-99 | The card holder name becomes the argument; the frame lets no other field change. |
| Payments.PendingPayment.SetCardExpiryYear | src/main/java/com/demo/domain/PendingPayment.java:109-111 | The expiry year becomes the argument; the frame lets no other field change. |
| Payments.PendingPayment.SetCardExpiryMonth | src/main/java/com/demo/domain/PendingPayment.java:117-119 | The expiry month becomes the argument; the frame lets no other field change. |
| Payments.PendingPayment.SetCreatedTime | src/main/java/com/demo/domain/PendingPayment.java:125-127 | The creation time becomes the argument; the frame lets no other field change. |
| Payments.PendingPayment.CardExpiry | src/main/java/com/demo/domain/PendingPayment.java:101-103 | The expiry exists exactly when both the year and the month are set. |
| Payments.PendingPayment.ValidExpiryYears | src/main/java/com/demo/domain/PendingPayment.java:132-138 | A missing creation time fails with a null pointer; when the year ten years on is in range, the 11 years from the creation year on. |
| Payments.PendingPayment.ValidExpiryMonths | src/main/java/com/demo/domain/PendingPayment.java:143-148 | Fails with a null pointer exactly when the creation time is missing; otherwise the months from the current one on. |
| Payments.PendingPayment.Last4CardDigits | src/main/java/com/demo/domain/PendingPayment.java:150-152 | On success, four characters. |
| Payments.PendingPayment.ToCompletedPayment | src/main/java/com/demo/domain/PendingPayment.java:154-156 | Succeeds exactly when the card number yields its last four digits and both expiry fields are set. Number errors pass through first, and a missing expiry gives a null pointer; on success the completed payment carries the card type, the CVV, the last 4 digits and the expiry. |
| Payments.ValidPaymentCompletes | src/main/java/com/demo/domain/PendingPayment.java:154-156 | A payment that passes validation always completes, carrying the number's last 4 digits and the chosen expiry. |
| Payments.PendingPayment.IsValid | src/main/java/com/demo/domain/PendingPayment.java:22-40 | Defines the form's Bean Validation constraints: card type, expiry year and month present, a ten-digit number, a three-digit CVV and a non-empty holder name. ValidPaymentCompletes states a valid payment always completes. |
| JavaStrings.WrapPastMax | src/main/java/com/demo/thymeleaf/utils/QueryString.java:350-362 | Integer.MAX_VALUE + 1 wraps to Integer.MIN_VALUE. |
| JavaStrings.ParseIntOfIntToString | src/main/java/com/demo/thymeleaf/utils/QueryString.java:350-362 | Integer.parseInt of Integer.toString of a 32-bit int gives the int back. |
| JavaStrings.SplitOfJoin | src/main/java/com/demo/thymeleaf/utils/QueryStringUtil.java:10-17 | Pieces without the separator, the last one non-empty, joined with it split back into the same pieces. |
| JavaStrings.BlankIff | src/main/java/com/demo/thymeleaf/utils/QueryString.java:699-704 | A string is blank exactly when trimming leaves nothing. |
| JavaStrings.TrimIdempotent | src/main/java/com/demo/thymeleaf/utils/QueryString.java:567-567 | Trimming twice is the same as trimming once. |

## Left out

- HashMap iteration order: `replaceNth` and `removeNthAndAdd` take their instructions, and `removeAnyKeyMatchingValue` its keys, in the map's iteration order. The model applies them in one fixed order. For `replaceNth` the result does not depend on the order; for `removeNthAndAdd` the instructions are a sequence.
- Percent-encoding: `Uris.escapeQueryParam` and unescaping are the identity. The model states nothing about the escaping of special characters.
- Unicode: case conversion and case-insensitive comparison cover ASCII letters only.
- Null references: the nullable fields, the query-string text, the request URI, the keys, values and fields of `replaceFirst`, `add`, `setSortDirection`, `toggleSort*`, `isFieldSorted` and `getCurrentSortDirection`, the match text of the `remove*MatchingValue` methods, and the lists and maps of `replaceNth`, `removeAll`, `addAll`, `removeAllAndAdd`, `removeNthAndAdd` and `toQueryString` are `Option` values or nullable class types. Where the code throws on them, a `NullPointerException` becomes `Err(NullPointer)`. Every other parameter is never null in the model; the lines below name the exceptions that drops.
- QueryStrings.QueryString.ReplaceN: `values` is never null. The code calls `values.size()` and throws a `NullPointerException` for a null list when the key has a non-empty list (QueryString.java:126-133).
- QueryStrings.QueryString.RemoveManyNth and `AdjustNumericValueBy` (and the helper's `RemoveManyNthOf`, `AdjustNumericValueByOf`): `relativeIndexes` is never null. The code calls `relativeIndexes.contains` and throws a `NullPointerException` for a null list when the key has a non-empty list (QueryString.java:317-326).
- QueryStringHelper.CreateNewSort: `fieldAndDirections` is never null. The code streams it before parsing and throws a `NullPointerException` for a null list even on a valid query (QueryStringHelper.java:1178-1184).
- QueryStringHelper.FieldSorter and `FieldSorterAsWritten` (and `FieldSorterAsc`/`Desc`): `field` is never null. Java string concatenation turns a null field into the text `null`, so the code writes `sort=null,asc`; the model has no such input.
- The no-argument JPA constructors and all plain getters are not modelled; fields are read directly.
- `toString` methods are not modelled.
- `MealPlan.getTotalMealPlanCost` reads the stay's nights from `reservation.getReservationDates()`.
- `Room.roomType` is a string.
- `Hotel.rooms` is a set of rooms. Changing the number of a room already in the set (which would break the `HashSet`) is not modelled.
- `LocalDate` is an epoch day, and `LocalTime` is nanoseconds of the day. `PendingPayment.createdTime` keeps only the year and the month.
- `BigDecimal` amounts are exact `real` numbers, so the scale and rounding of `BigDecimal` are not modelled.
- Random `UUID`s (guest temp ids, meal plan ids, reservation ids) are constructor parameters.
- Enum and `Address` hash codes are function parameters of the hash functions. `Guest.hashCode` is not modelled; its `equals` is.
- `ReservationDates.totalNights` returns a Java `long`. The model does not bound the day count to 64 bits.
- Bean Validation annotations on `PendingPayment` (10-digit number, 3-digit CVV, required fields) are the `IsValid` predicate. The annotation processing is not modelled.
- `ReservationFlow.getReservation`/`setReservation` and the `DateForm` held by `ReservationFlowForms` are plain data and are left out.
- The helper wrappers `valueWhenMatchesSortAsc`/`Desc` and `getCurrentSortDirectionAsc`/`Desc` are the general function with the direction as a parameter.
- `urlBuilder` is `Url` with the request URI fixed, and `adjustFirstNumericValueBy` is `AdjustNumericValueByOf` at position 0 (see `FirstAdjusted`).
- In `fieldSorter`, a sorted field with the default direction NONE falls through the switch to `removeAllAndAdd`. The model does the same (`FieldSorterReplaces`); no public caller passes NONE.
- `CompletedPayment`'s generated transaction id is not modelled.
- `Integer.parseInt` is `JavaStrings.ParseInt`, which accepts only the ASCII digits `0`-`9`. The JDK also accepts any Unicode decimal digit (`Character.digit`), so a page value such as Arabic-Indic `٣` is adjusted by the code and left unchanged by the model.
- Strings are sequences of Unicode code points, not of UTF-16 code units. `length()` and `substring` in `last4CardDigits` (and `split`/`trim` elsewhere) differ from the model on text holding supplementary characters (surrogate pairs).
- Null elements inside list and map arguments are not representable: a pair list, an inner pair, a removal-instruction list or a relative index is never `null` in the model. The `NullPointerException`s the code raises on such elements (for example a `null` `Integer` in `relativeIndexes`, or a `null` inner list of `addKeyValuePairs`) are not modelled.
- QueryStringOps.ReplaceWhere: the contract states only that the shape is kept. The values it writes are stated by `ReplaceWhereEffect`.
- QueryStringOps.ReplaceFirst: the contract states only that the shape is kept. The values it writes are stated by `ReplaceFirstValues`.
- QueryStringOps.ReplaceN: the contract states only that the shape is kept. The values it writes are stated by `ReplaceNValues`.
- QueryStringOps.ReplaceNth: the contract states only that the shape is kept. The values it writes are stated by `ReplaceNthValues`.
- QueryStringOps.DeleteWhere: the contract states only that the shape is kept. Which entries stop being live is stated by `DeleteAtLive` (through `QueryStrings.AppliedDelete`).
- QueryStringOps.DeleteAt: the contract states only that the shape is kept. Which entries stop being live is stated by `DeleteAtLive`, `DeleteAtKeepsNoNew` and `DeleteAtKeepsUntargeted`.
- QueryStringOps.AdjustValue: the contract states only that the index, key and deleted flag are kept. The new value is stated by `AdjustValueEffect`.
- QueryStringOps.AdjustWhere: the contract states only that the shape is kept. The values it writes are stated by `AdjustNumericValues` (through `QueryStrings.AppliedAdjust`).
- QueryStringOps.AdjustNumericValueBy: the contract states only that the shape is kept. The values it writes are stated by `AdjustNumericValues`.
- QueryStringOps.SetSortDirection: the contract states only that the shape is kept. Its effect is stated by `SetSortDirectionEffect`.
- QueryStringOps.RewriteSortAt: the contract states only that the shape is kept. Its effect is stated by `RewriteSortAtFrame` and `RewriteSortAtReads`.
- Extras.Extra.TotalPrice: the contract states only the zero-night case. The additive law is `PriceForAdditive`.
- Payments.PendingPayment.Last4CardDigits: the contract states only the length. The digits themselves are stated by `Last4Of`.

## Findings

| source | as written | input that shows it | evidently intended | confidence | as-written member | corrected member |
|---|---|---|---|---|---|---|
| src/main/java/com/demo/thymeleaf/expression/QueryStringHelper.java:1222-1231 | `value.split(",")[0]` is read without checking the length. A sort value made only of commas splits into an empty array and throws `ArrayIndexOutOfBoundsException`. | query `sort=,`, field `name` | skip a sort value that names no field: no direction | high, not executed | QueryStringHelper.GetCurrentSortDirectionAsWrittenFails | QueryStringHelper.CurrentSortDirectionAsWrittenAgrees |
| src/main/java/com/demo/thymeleaf/expression/QueryStringHelper.java:574-597 | The reduce calls `QueryString.of` on each intermediate string outside the `try`. Once a removal empties the query, the next instruction throws `IllegalArgumentException`. | query `a=1`, instructions `[(a, [0]), next]`, pairs `[[b, 2]]` | fall back to `toQueryString` of the pairs, as the `catch` does | high, not executed | QueryStringHelper.RemoveNthAndAddOnlyPair | QueryStringHelper.RemoveNthAndAddSucceeds |
| src/main/java/com/demo/thymeleaf/expression/QueryStringHelper.java:882-900 | For a null or blank query the code calls `addAll(queryString, ...)`, which calls `QueryString.of` and throws `IllegalArgumentException`. | query `""` (or null), field `name` | return `sort=name,asc`: the new sort alone | high, not executed | QueryStringHelper.FieldSorterAsWrittenBlank | QueryStringHelper.FieldSorterBlank |
