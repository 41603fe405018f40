# Cinema booking pages — a verified Dafny model

This project models the front end of a cinema booking site. The site is a chain of
browser pages that hand a reservation from one page to the next:

- **catalogue** (`catalogue.js`): the film list with its filters (genre, version, 4K,
  search text), durations written `XhYY`, the genre menu, and the trailer a click on a
  poster opens.
- **seat map** (`salle.js`): a room of 16 rows whose column count can only grow. It has
  fixed holds, gap cells (two aisles plus seven listed cells) and "desactive" seats, and
  the user's own selection. The number of free seats is reconciled with the `libres`
  count of the showtime in `films.json`. The state is persisted per showtime.
- **fares** (`tarif.js`): quantity steppers per fare, the ticket lines and the basket
  total, the seat hint, and the rule that enables "Continue". The fare fields are merged
  into the showtime's stored entry.
- **snacks** (`snacks.js`): the ticket summary, reloaded from the store or the URL, with
  the CINEPASS and REDUC2 promotion rules. Also the snack cart (an insertion-ordered
  `Map` changed by "+", "-", the trash button and "empty"), the grand total, the payment
  link, and the per-showtime save and restore of the cart.
- **payment** (`paiement.js`): the masks on the card number, expiry and CVC fields, the
  card brand, the expiry check, and the checks made when "Pay" is clicked.
- **ticket** (`ticket.js`): the fields of the final ticket, each with its fallback, and
  the seat list rewritten from `A1,B2` to `A1, B2`.

Money is in integer cents. The browser store (`localStorage`) is a shared `LocalStore`
object holding two maps: `pathe_reservation` and `pathe_cart_snacks`. Both are keyed by
`film|room|time`.

**Modelling choices**

- Each page whose source mutates state in place is a class, with `modifies` clauses on
  its methods:
  - the seat map is `Salle.SeatMap`;
  - the fare page is `Tarif.FareBasket`;
  - the snack page is `Snacks.SnackPage`.
- Each of those methods is proved against a specification function, for example
  `Reconciled`, `Put`, `Added`, `Removed`, `MergeFare` or `Saved`. The properties of
  those functions are proved as lemmas.
- The pure page logic (catalogue, payment, ticket) consists of functions and lemmas.
- JavaScript's insertion-ordered `Map` and plain objects are sequences of key/value
  pairs (module `Assoc`).
- `Set` iteration order is a nondeterministic choice.
- Module layout:
  - `Text`, `Decimal`, `Assoc`, `Sorting` and `SeatGrid` hold the browser built-ins and
    the grid enumeration the pages share;
  - `Fares` holds the price table, which tarif.js and snacks.js each duplicate;
  - `Feed` holds the records of `films.json`;
  - `Store` holds the browser store;
  - `SalleConfig` holds the seat map's fixed configuration.

**Where the code and its description differ, the model follows the code:**

- The room's usable capacity is described as 16 × 16 seats (two aisle columns out of
  18). The code subtracts all 39 gap cells from 16 × 18, which gives 249. That is
  because the seven listed gaps count as well: A5, A6, A13, A14, P1, P18 and E5.
  `SalleConfig.FixedOverrides` states the 39 gaps, and `Salle.SeatMap.UpdateRecap`
  states the free count the code computes.
- Reconciliation is described as skipped when `libres` is not a finite non-negative
  number. The code checks only `Number.isFinite`, so a negative `libres` is clamped to 0
  and every non-fixed seat is taken. `Salle.Clamp` and `Salle.SeatMap.SyncLibresWithJSON`
  follow the code.

## Model

| member | source | states |
|---|---|---|
| Text.DigitsOnly | assets/js/paiement.js:129 | keeps only the ASCII digits: a digit string is kept whole and a single non-digit is dropped |
| Text.DigitsOnlyAppend | assets/js/paiement.js:129 | the filter works piece by piece, so the digits keep their order |
| Text.RemoveSpaces | assets/js/paiement.js:228 | `replace(/\s+/g, '')` leaves no whitespace, never lengthens the text, keeps a single non-space character and drops a single space |
| Text.RemoveSpacesAppend | assets/js/paiement.js:228 | whitespace removal works piece by piece, so the other characters keep their order |
| Text.Take | assets/js/paiement.js:129 | `slice(0, n)` is a prefix of length min(n, length) |
| Text.Split | assets/js/tarif.js:24 | `split` on one character gives at least one piece, no piece holds the separator, and joining the pieces with it restores the text |
| Text.SplitJoin | assets/js/salle.js:26-29 | splitting a joined list gives the list back when no piece holds the separator |
| Text.DropEmpty | assets/js/tarif.js:24 | `filter(Boolean)` keeps exactly the non-empty pieces; a single piece is kept unless empty |
| Text.DropEmptyAppend | assets/js/tarif.js:24 | the filter works piece by piece, so kept pieces keep their order and their repeats |
| Text.TrimShape | assets/js/ticket.js:16 | the trimmed text has no whitespace at either end and is the slice of the text between its leading and trailing whitespace |
| Text.TrimEnds | assets/js/ticket.js:16 | the trimmed text starts and ends with a non-whitespace character |
| Text.TrimSlice | assets/js/ticket.js:16 | the trimmed text is the text after its leading whitespace, followed only by whitespace |
| Text.TrimUnchanged | assets/js/ticket.js:16 | a text without outer whitespace trims to itself |
| Text.TrimKeepsNonSpaces | assets/js/catalogue.js:69 | trimming removes whitespace only: the other characters stay, in order |
| Text.LowerAscii | assets/js/catalogue.js:416-418 | lower-casing changes every character by the ASCII mapping and keeps the length |
| Text.UpperAscii | assets/js/salle.js:28 | upper-casing changes every character by the ASCII mapping and keeps the length |
| Text.Or | assets/js/ticket.js:12-17 | `p \|\| d` is the parameter when it is present and non-empty, and `d` otherwise |
| Text.FindIndex | assets/js/salle.js:223-235 | the index returned satisfies the test and no earlier one does; none means no element satisfies it |
| Text.Find | assets/js/salle.js:223-234 | `find` gives the first element satisfying the test, none when no element does |
| Text.ContainsIff | assets/js/catalogue.js:418 | `includes` holds exactly when the text occurs at some position |
| Decimal.NatToString | assets/js/salle.js:81 | `String(n)` is a non-empty digit string without a leading zero, one digit exactly when n < 10 |
| Decimal.NatToStringValue | assets/js/salle.js:81 | the rendering of n reads back as n |
| Decimal.NatToStringInjective | assets/js/salle.js:81 | distinct numbers render differently |
| Decimal.ParseInt | assets/js/paiement.js:184 | `parseInt` gives NaN exactly when no digit follows the leading whitespace and optional sign |
| Decimal.ParseIntDigits | assets/js/paiement.js:184 | `parseInt` reads a run of digits whatever non-digit text follows |
| Decimal.ParseIntNatToString | assets/js/salle.js:348-349 | `parseInt` reads back a rendered number whatever non-digit text follows |
| Decimal.PadStart2 | assets/js/catalogue.js:33 | `padStart(2, '0')` leaves two characters or more alone and left-fills a shorter text with zeros to length 2 |
| Decimal.PaddedValue | assets/js/catalogue.js:33 | a number below 100, padded, is two digits that read back as the number |
| Assoc.Keys | assets/js/snacks.js:60 | the keys of a Map are its entries' keys, in insertion order |
| Assoc.Lookup | assets/js/snacks.js:325 | `get` is undefined exactly when the key is absent |
| Assoc.LookupEntry | assets/js/snacks.js:325 | a key that is present is stored beside the value `get` returns |
| Assoc.Put | assets/js/snacks.js:330 | `set` keeps the key order when the key is present, appends the key otherwise, and the key is present afterwards |
| Assoc.PutEntries | assets/js/snacks.js:330 | after `set` the entries are the old ones plus the new pair |
| Assoc.Remove | assets/js/snacks.js:343 | after `delete` the key is absent and every other key stays |
| Assoc.LookupPut | assets/js/snacks.js:330 | after `set` the key maps to the new value and every other key to its old value |
| Assoc.LookupRemove | assets/js/snacks.js:343 | after `delete` only the deleted key has gone |
| Assoc.PutSame | assets/js/tarif.js:308 | setting a key to its own value changes nothing |
| Assoc.PutPut | assets/js/tarif.js:316 | a second `set` of a key overrides the first |
| Assoc.PutAbsent | assets/js/snacks.js:330 | a new key is appended at the end |
| Assoc.RemoveAbsent | assets/js/snacks.js:365 | deleting an absent key changes nothing |
| Assoc.PutUnique | assets/js/snacks.js:330 | `set` never duplicates a key |
| Assoc.RemoveUnique | assets/js/snacks.js:343 | `delete` never duplicates a key |
| Sorting.Insert | assets/js/catalogue.js:90 | inserting an element adds exactly that element |
| Sorting.SortSet | assets/js/salle.js:347-351 | sorting a set with a total-preorder comparator gives each element once, in sorted order |
| Store.SessionKeySplit | assets/js/salle.js:22 | the key `film\|room\|time` splits back into its three parts when none holds a `\|` |
| Store.SessionKeyInjective | assets/js/tarif.js:29 | two showtimes share a store entry only when film, room and time agree |
| Store.LocalStore.constructor | assets/js/salle.js:120-123 | the store starts empty |
| Fares.PriceOf | assets/js/tarif.js:95-105 | exactly MATIN and U14 have a price |
| Fares.Cents | assets/js/tarif.js:276 | `PRICES[code]?.price \|\| 0`: the fare's price in cents, 0 for an unknown code |
| Fares.Lines | assets/js/tarif.js:161-174 | the ticket lines are exactly the priced, non-zero entries, at most one per entry |
| Fares.LinesAppend | assets/js/tarif.js:163 | the lines keep the order of the quantities |
| Fares.QtySum | assets/js/tarif.js:128 | the ticket count of non-negative quantities is non-negative, and positive once one quantity is |
| Fares.PricedTotal | assets/js/tarif.js:274-277 | Σ quantity × price is non-negative for non-negative quantities and 0 when no code has a price |
| Fares.LinesTotalIsPricedTotal | assets/js/tarif.js:274-278 | the sum of the line totals equals Σ quantity × price over all entries |
| Fares.LinesCountIsQtySum | assets/js/snacks.js:177 | when every non-zero quantity is priced, the lines count every ticket (`totalTickets`) |
| Fares.QtySumPut | assets/js/tarif.js:128 | changing one quantity moves the ticket count by the difference |
| SeatGrid.Without | assets/js/salle.js:449-451 | the filter keeps exactly the elements outside the excluded set, and keeps distinctness |
| SeatGrid.WithoutAppend | assets/js/salle.js:438-443 | filtering distributes over concatenation |
| SeatGrid.WithoutWithout | assets/js/salle.js:441-451 | two successive filters equal one filter by the union |
| SeatGrid.WithoutCount | assets/js/salle.js:449-451 | filtering a list without repeats removes exactly its members that are excluded |
| SeatGrid.NoDupCard | assets/js/salle.js:437-443 | a list without repeats has as many elements as its set |
| SeatGrid.SeatId | assets/js/salle.js:81 | a seat id is the row letter followed by the 1-based column number |
| SeatGrid.SeatIdInjective | assets/js/salle.js:81 | distinct cells have distinct ids |
| SeatGrid.RowIds | assets/js/salle.js:439-440 | one row's ids, column by column |
| SeatGrid.GridIds | assets/js/salle.js:438-443 | the grid enumeration has rows × cols ids |
| SeatGrid.GridIdsRows | assets/js/salle.js:438-440 | every id of the first n rows carries one of the first n row letters |
| SeatGrid.GridIdsNoDup | assets/js/salle.js:438-443 | the grid enumeration has no repeated id |
| SeatGrid.SeatIdInGrid | assets/js/salle.js:438-443 | every cell of the grid is enumerated |
| SalleConfig.UrlTaken | assets/js/salle.js:26-29 | `URL_TAKEN` holds no empty id and no more ids than the parameter has pieces |
| SalleConfig.CleanPieces | assets/js/salle.js:28 | each piece is trimmed and upper-cased |
| SalleConfig.UrlTakenMembers | assets/js/salle.js:26-29 | the URL ids are exactly the non-blank pieces of `taken`, trimmed and upper-cased |
| SalleConfig.UrlTakenSound | assets/js/salle.js:26-29 | every URL id comes from a non-blank piece |
| SalleConfig.UrlTakenComplete | assets/js/salle.js:26-29 | every non-blank piece yields a URL id |
| SalleConfig.UrlTakenJoin | assets/js/salle.js:26-29 | clean ids written as `ids.join(',')` read back unchanged |
| SalleConfig.AisleGaps | assets/js/salle.js:67-71 | the aisle loop pushes `X4` and `X15` for each row, in order |
| SalleConfig.FixedOverrides | assets/js/salle.js:47-71 | the configuration has 39 gaps: 7 listed cells plus 2 aisle cells per row |
| SalleConfig.IsDesactive | assets/js/salle.js:107 | `/desactive/i` matches exactly when some nine characters of the path read `desactive` once lower-cased |
| SalleConfig.DesactiveIconMatches | assets/js/salle.js:107 | the configured icon path matches `/desactive/i` |
| SalleConfig.Structural | assets/js/salle.js:100-109 | the seats `computeAvailability` holds are exactly the hard holds and the seats whose custom icon is desactive |
| SalleConfig.StructuralOfFixed | assets/js/salle.js:100-109 | the structural holds are G9, G10, A1, the URL ids and A7–A12 |
| SalleConfig.GapsAreCells | assets/js/salle.js:51-71 | each of the 39 gaps is a cell of the initial 16 × 18 grid |
| SalleConfig.GapsNoDup | assets/js/salle.js:51-71 | the 39 gaps are distinct |
| SalleConfig.GapsInGrid | assets/js/salle.js:51-71 | every gap lies in any grid of at least 18 columns |
| Salle.Classify | assets/js/salle.js:286-292 | each class as an if-and-only-if in the source's priority: a gap exactly when listed; taken exactly when not a gap and held or desactive; the user's exactly when none of those and selected; free otherwise |
| Salle.Toggled | assets/js/salle.js:321-335 | a click flips the seat's membership and nothing else |
| Salle.ToggledTwice | assets/js/salle.js:321-335 | clicking a seat twice restores the selection |
| Salle.ClickKeepsDisjoint | assets/js/salle.js:309 | a click on a clickable cell never selects a taken seat |
| Salle.SeatLeTotalPreorder | assets/js/salle.js:347-351 | the recap comparator is a total preorder |
| Salle.SeatLeOnGrid | assets/js/salle.js:347-351 | on grid ids the comparator orders by row, then by column number (B2 before B10) |
| Salle.RowCode | assets/js/salle.js:348 | `charCodeAt(0)` is the first character's code, negative only for an empty id |
| Salle.ColNumber | assets/js/salle.js:348 | `parseInt(a.slice(1), 10)` is the number after the row letter, 0 when none parses |
| Salle.ColNumberOfSeatId | assets/js/salle.js:348 | the comparator reads a grid id's row code and column number back |
| Salle.GrowLoop | assets/js/salle.js:386-396 | the column loop stops at the first column count whose non-aisle capacity reaches the target |
| Salle.GrowCols | assets/js/salle.js:376-398 | columns never shrink; nothing changes for a non-finite or non-positive target or a grid already large enough; otherwise the capacity reaches the target, and with one column fewer it would not |
| Salle.GrowColsIdempotent | assets/js/salle.js:376-398 | once grown for a target, no further growth is needed for it or for any smaller target |
| Salle.Clamp | assets/js/salle.js:424 | the target lies in [0, total] and equals `libres` when that is already in range |
| Salle.Candidates | assets/js/salle.js:449-451 | the candidates are exactly the non-gap seats neither taken nor selected |
| Salle.ReconcileKeepsStructural | assets/js/salle.js:459-471 | reconciliation never frees a hard hold or a desactive seat, and never shrinks the grid |
| Salle.ReconcileKeepsDisjoint | assets/js/salle.js:445-456 | reconciliation never takes a selected seat |
| Salle.ReconcileReachesTarget | assets/js/salle.js:422-471 | afterwards the free count is the clamped target, except when it is under target with too few removable seats, in which case every removable seat is freed |
| Salle.OverFreeReaches | assets/js/salle.js:445-456 | with too many free seats, exactly the excess is taken |
| Salle.UnderFreeReaches | assets/js/salle.js:457-471 | with too few free seats, min(shortfall, removable) seats are freed |
| Salle.OverFreeCount | assets/js/salle.js:449-456 | taking `need` candidates takes `need` new seats |
| Salle.FreedCount | assets/js/salle.js:466-471 | the freeing loop frees min(need, removable) seats |
| Salle.NonGapCount | assets/js/salle.js:437-443 | the non-gap ids are distinct and number rows × cols minus the gaps |
| Salle.CandidatesCount | assets/js/salle.js:449-451 | the candidates number the non-gap seats minus the taken and selected ones |
| Salle.TakeFirst | assets/js/salle.js:453-456 | the loop takes every one of the first `need` candidates and nothing after them |
| Salle.TakeFirstCount | assets/js/salle.js:453-456 | taking the first `need` distinct candidates adds `need` seats |
| Salle.ReconcileReachesTargetFixed | assets/js/salle.js:422-471 | for the page's own configuration, when the free count starts at or above the target and the sets are disjoint grid seats, it ends exactly at the target |
| Salle.AllSeatIds | assets/js/salle.js:437-443 | the nested loops list every grid id row by row, gaps left out |
| Salle.RowSeatIds | assets/js/salle.js:439-442 | the inner loop lists one row's ids, gaps left out |
| Salle.TakeCandidates | assets/js/salle.js:453-456 | the over-free loop takes the first `need` candidates (all of them when fewer) |
| Salle.FreeRemovable | assets/js/salle.js:466-471 | the under-free loop frees min(need, removable) non-fixed seats and nothing else |
| Salle.FreedAtEnd | assets/js/salle.js:468-471 | the state the freeing loop ends in is a valid freeing outcome |
| Salle.Reconcile | assets/js/salle.js:422-471 | the reconciliation body takes or frees seats exactly as the reconciliation rule says |
| Salle.PersistedEntry | assets/js/salle.js:130-143 | `persist` writes the seat part only, so the entry's fare part and promo are dropped |
| Salle.Restored | assets/js/salle.js:149-163 | a missing entry changes nothing; a stored entry replaces the selection and adds its holds to the current ones |
| Salle.RestoreAfterPersist | assets/js/salle.js:130-163 | after a reload, availability then restore gives back the persisted selection, with the persisted holds on top of the structural ones |
| Salle.LookupFilm | assets/js/salle.js:223-225 | the first film whose normalised title equals the parameter's; failing that, the first whose title contains it; none exactly when no title contains it |
| Salle.LookupSeance | assets/js/salle.js:228-235 | the first showtime at the requested time in the requested room; failing that, the first in that room; failing that, the film's first showtime; none exactly when the film or its showtimes are missing |
| Salle.LookupFindsLinkedSeance | assets/js/catalogue.js:376-393 | a catalogue showtime link (title, time, room of one showtime) finds that film, when its normalised title is unique, and a showtime at that time in that room |
| Salle.SeatMap.constructor | assets/js/salle.js:17-43 | the URL parameters with their fallbacks (film, room, version, time, end time), the showtime key, the configuration, and an empty map with no showtime and no end time |
| Salle.SeatMap.Hydrate | assets/js/salle.js:172-249 | with an `end` parameter the end time is that parameter and no showtime is looked up; otherwise, when the fetch succeeds, the showtime is the lookup by the page's own title, time and room and the end time is its `fin`; a failed fetch changes nothing |
| Salle.SeatMap.ComputeAvailability | assets/js/salle.js:100-109 | taken becomes the hard holds plus the desactive seats |
| Salle.SeatMap.Persist | assets/js/salle.js:130-144 | this showtime's entry is replaced by the snapshot; every other entry stays |
| Salle.SeatMap.Restore | assets/js/salle.js:149-163 | the state becomes what `Restored` gives for this showtime's entry |
| Salle.SeatMap.Toggle | assets/js/salle.js:321-335 | the seat is flipped and the snapshot persisted |
| Salle.SeatMap.Click | assets/js/salle.js:309 | a click on a clickable cell toggles and persists; on a gap or taken cell it changes nothing |
| Salle.SeatMap.SetTaken | assets/js/salle.js:363-368 | every id, upper-cased, is added to taken, then persisted |
| Salle.SeatMap.RenderGrid | assets/js/salle.js:266-315 | every cell of the rows × cols grid gets its class |
| Salle.SeatMap.UpdateRecap | assets/js/salle.js:340-357 | the free count; the selected seats, each once, sorted by row then column; their ", "-joined text or "—"; the button disabled exactly when nothing is selected |
| Salle.SeatMap.EnsureCapacityForLibres | assets/js/salle.js:376-398 | the column count becomes the grown count for the target |
| Salle.SeatMap.SyncLibresWithJSON | assets/js/salle.js:405-473 | nothing changes without a showtime or a finite `libres`; otherwise the grid grows and the seats are reconciled |
| Tarif.ParseSeats | assets/js/tarif.js:22-24 | the seats are the non-empty pieces of the trimmed parameter, in order and with repeats (the `DropEmpty` filter), none holding a comma |
| Tarif.ParseSeatsJoin | assets/js/tarif.js:22-24 | the seat map's `seats.join(',')` reads back as the same seat list |
| Tarif.PutValid | assets/js/tarif.js:316-323 | setting a non-negative quantity keeps the quantities valid |
| Tarif.QtyOf | assets/js/tarif.js:308 | `state.qty[code] \|\| 0` is 0 for a code without an entry, and the stored quantity otherwise |
| Tarif.QtyOfNonNegative | assets/js/tarif.js:315 | every quantity shown is non-negative |
| Tarif.QtyOfPut | assets/js/tarif.js:323 | a set quantity reads back |
| Tarif.SetStep | assets/js/tarif.js:314-325 | a step keeps validity, and moves the ticket count and the basket total by the change times the price |
| Tarif.MinusUndoesPlus | assets/js/tarif.js:314-325 | "-" after "+" restores the quantities |
| Tarif.PricedTotalPut | assets/js/tarif.js:274-278 | changing one quantity changes the total by the change times its price |
| Tarif.QtySumNonNegative | assets/js/tarif.js:128 | non-negative quantities give a non-negative ticket count |
| Tarif.BasketTotal | assets/js/tarif.js:274-278 | the accumulating loop gives Σ quantity × price, which is also the sum of the line totals |
| Tarif.SyncKeeps | assets/js/tarif.js:308 | `qty[code] \|\| 0` leaves a present code unchanged |
| Tarif.SeatHint | assets/js/tarif.js:133-141 | with seats the hint shows count/seats; without seats, the count when positive, otherwise the prompt |
| Tarif.ContinueLink | assets/js/tarif.js:180-219 | "Continue" leads to snacks exactly when the rule holds, carrying the seats and total, and the quantities exactly when a ticket line exists |
| Tarif.ContinueEnabled | assets/js/tarif.js:202-208 | without seats "Continue" is enabled exactly when a ticket is chosen; with seats, exactly when the ticket count equals the seat count |
| Tarif.ContinueRule | assets/js/tarif.js:202-208 | with seats, "Continue" opens exactly when there is one ticket per seat; without seats, as soon as there is a ticket |
| Tarif.MergeFare | assets/js/tarif.js:228-245 | the fare part is replaced, and the seat part and promo stored there are kept |
| Tarif.FarePersistKeepsSeats | assets/js/tarif.js:228-245 | saving fares does not change what the seat map restores |
| Tarif.FareBasket.constructor | assets/js/tarif.js:14-29 | the parameters with their fallbacks, the parsed seats, the key, zero quantities for both fares, a zero total |
| Tarif.FareBasket.Persist | assets/js/tarif.js:224-248 | only this showtime's entry changes, merged with the fare fields |
| Tarif.FareBasket.RenderBasket | assets/js/tarif.js:255-296 | the total becomes the priced total, then the entry is persisted |
| Tarif.FareBasket.Sync | assets/js/tarif.js:307-311 | the code gets an entry, then the total is recomputed and persisted |
| Tarif.FareBasket.Plus | assets/js/tarif.js:322-325 | one more ticket of the fare, then sync |
| Tarif.FareBasket.Minus | assets/js/tarif.js:314-319 | one ticket fewer when the fare has one; nothing at all otherwise |
| Tarif.FareBasket.Decrement | assets/js/tarif.js:316-317 | the branch taken when the fare has a ticket |
| Snacks.ProductNamed | assets/js/snacks.js:310-316 | the product found carries the name and is in the catalogue; none exactly when no product has it |
| Snacks.ProductNamedIsFirst | assets/js/snacks.js:310-316 | the category-by-category search finds the first such product in the whole list |
| Snacks.FindAppend | assets/js/snacks.js:311-313 | searching a concatenation searches the first part, then the second |
| Snacks.FindProductByName | assets/js/snacks.js:310-316 | the search loop returns what `ProductNamed` gives |
| Snacks.PutShown | assets/js/snacks.js:330-332 | storing an item changes the count shown for that name only |
| Snacks.RemoveShown | assets/js/snacks.js:343 | deleting a name shows 0 for it and changes nothing else |
| Snacks.AddedEffect | assets/js/snacks.js:323-332 | "+" shows one more; a new product is created with quantity 1 and appended; other entries stay |
| Snacks.RemovedEffect | assets/js/snacks.js:338-347 | "-" shows one fewer, never below 0, and keeps the entry exactly when more than one was shown |
| Snacks.RemovedKeepsOthers | assets/js/snacks.js:338-347 | "-" on an absent product changes nothing, and never touches another entry |
| Snacks.AddedKeyed | assets/js/snacks.js:323-332 | "+" keeps every entry under its own name, once |
| Snacks.RemovedKeyed | assets/js/snacks.js:338-347 | "-" keeps every entry under its own name, once |
| Snacks.RemoveKeyed | assets/js/snacks.js:361-367 | the trash button keeps every entry under its own name, once |
| Snacks.RemoveUndoesAdd | assets/js/snacks.js:323-347 | "-" right after "+" restores the cart |
| Snacks.CartTotal | assets/js/snacks.js:378-382 | Σ price × quantity is 0 for an empty cart and non-negative for non-negative prices and quantities |
| Snacks.SnackTotal | assets/js/snacks.js:378-382 | the accumulating loop gives Σ price × quantity |
| Snacks.CartTotalPut | assets/js/snacks.js:380 | replacing one entry changes the total by the difference of the two amounts |
| Snacks.CartTotalRemove | assets/js/snacks.js:380 | deleting an entry removes its amount from the total |
| Snacks.AddedTotal | assets/js/snacks.js:323-332 | "+" adds one item's price to the snack total |
| Snacks.RemovedTotal | assets/js/snacks.js:338-347 | "-" on an entry with at least one item removes one item's price |
| Snacks.Saved | assets/js/snacks.js:387-402 | the saved object has one line per cart entry, under the same names in the same order |
| Snacks.RestoredItem | assets/js/snacks.js:413-419 | a restored item carries its name and saves back to the same line |
| Snacks.SaveRestore | assets/js/snacks.js:387-422 | saving a cart and restoring it into a fresh page's empty cart gives the same cart |
| Snacks.SaveRestoreFrom | assets/js/snacks.js:412-420 | restoring the rest of the saved lines onto a prefix of the cart rebuilds the cart |
| Snacks.Discounted | assets/js/snacks.js:166-169 | CINEPASS is 90% rounded to the cent and never below 0; REDUC2 takes 2.00 off a subtotal of 10.00 or more; otherwise unchanged; never above the subtotal |
| Snacks.SourceTarifs | assets/js/snacks.js:128-143 | the stored quantities when the entry has a fare part, the URL ones otherwise |
| Snacks.SourceTotal | assets/js/snacks.js:133-146 | the stored total when the entry has a fare part, otherwise the URL total, 0 when missing or not a number |
| Snacks.SourcePromo | assets/js/snacks.js:132-145 | a promo code, when there is one, is never empty |
| Snacks.TicketsFrom | assets/js/snacks.js:122-180 | the quantities are the stored or URL ones (none giving an empty list), the promo and seats are the loaded ones, the lines and count come from the quantities, and the total is the recomputed discounted total, or the loaded total when that is 0 |
| Snacks.TicketLinesLoop | assets/js/snacks.js:149-163 | the loop builds the ticket lines and their priced subtotal |
| Snacks.LoadTickets | assets/js/snacks.js:122-180 | `loadTickets` returns what `TicketsFrom` gives |
| Snacks.SourcesPreferStore | assets/js/snacks.js:128-145 | the store's quantities and promo code win over the URL's |
| Snacks.UrlTarifsFallback | assets/js/snacks.js:136-146 | without a stored fare part, the quantities are the parsed URL ones and the stand-in total is the URL total, 0 when missing |
| Snacks.UrlPromoUpperCased | assets/js/snacks.js:145 | without a stored promo, the URL's is upper-cased, an empty one meaning none |
| Snacks.TicketsAgreeWithFarePage | assets/js/snacks.js:122-180 | after the fare page persists, and with no promo, the snack page shows the fare page's lines, count and total |
| Snacks.PaymentLink | assets/js/snacks.js:453-499 | the link is dead exactly when the cart is empty and there is no ticket; otherwise it carries the grand total, the quantities and the promo |
| Snacks.AddEnablesPayment | assets/js/snacks.js:458 | a snack in the cart always enables payment |
| Snacks.SnackPage.constructor | assets/js/snacks.js:35-60 | the key, the tickets loaded once, and an empty cart |
| Snacks.SnackPage.Save | assets/js/snacks.js:387-402 | only this showtime's saved cart changes |
| Snacks.SnackPage.Restore | assets/js/snacks.js:407-422 | every saved line is set into the cart, in order |
| Snacks.SnackPage.Boot | assets/js/snacks.js:506-530 | restores, then saves what was restored |
| Snacks.SnackPage.Add | assets/js/snacks.js:323-332 | the cart becomes `Added`, then it is saved |
| Snacks.SnackPage.Remove | assets/js/snacks.js:338-347 | the cart becomes `Removed`; it is saved only when the product was in it |
| Snacks.SnackPage.Clear | assets/js/snacks.js:352-355 | the cart is emptied and saved empty |
| Snacks.SnackPage.Trash | assets/js/snacks.js:361-367 | the named entry is deleted and the cart saved |
| Snacks.SnackPage.Interact | assets/js/snacks.js:292-303 | a button naming a catalogue product adds or removes it and saves the cart (a "-" on a product not in the cart saves nothing); any other click changes nothing |
| Catalogue.Minutes | assets/js/catalogue.js:30 | a positive duration is kept; a missing, non-numeric or non-positive one is 0 |
| Catalogue.MinToH | assets/js/catalogue.js:29-34 | `XhYY`: the hours parse back as the leading integer, then `h`, then two digits worth the remaining minutes |
| Catalogue.MinToHReadsBack | assets/js/catalogue.js:29-34 | 60 × hours + minutes read back from `XhYY` is the duration; a missing or non-positive duration shows `0h00` |
| Catalogue.MinToHZero | assets/js/catalogue.js:29-34 | a missing or non-positive duration shows `0h00` |
| Catalogue.Has4K | assets/js/catalogue.js:41 | a film has 4K exactly when one of its showtimes is in 4K |
| Catalogue.HasLang | assets/js/catalogue.js:49-55 | `VF` and `VOST` ask for a showtime in that version; `Tous` and any other value accept every film |
| Catalogue.QueryOk | assets/js/catalogue.js:416-418 | a query passes exactly when, trimmed and lower-cased, it is empty or found in the lower-cased title or in the lower-cased genres joined by spaces |
| Catalogue.Listed | assets/js/catalogue.js:414-426 | a film is listed exactly when it passes the genre, 4K, version and search filters; the neutral value of every filter lists it |
| Catalogue.Filtered | assets/js/catalogue.js:414-428 | a film is listed exactly when it passes the search, genre, 4K and version filters; a one-film list is kept exactly when the film passes |
| Catalogue.FilteredAppend | assets/js/catalogue.js:414-428 | filtering works film by film, so the listed films keep their order |
| Catalogue.NeutralFiltersListAll | assets/js/catalogue.js:414-428 | the neutral filter values let every film through |
| Catalogue.DefaultListsAll | assets/js/catalogue.js:14-22 | the page starts by listing every film |
| Catalogue.FourKNarrows | assets/js/catalogue.js:423 | turning the 4K switch on keeps a subset, each film with a 4K showtime |
| Catalogue.UniqueGenres | assets/js/catalogue.js:86-91 | `Tous`, then every genre of the films once, sorted by the collation |
| Catalogue.KeepAllowed | assets/js/catalogue.js:67 | only characters in `[a-z0-9: ]` remain; text made only of them is unchanged and a single other character is dropped |
| Catalogue.KeepAllowedAppend | assets/js/catalogue.js:67 | the filter distributes over concatenation, so with the single-character cases it keeps exactly the allowed characters, in order |
| Catalogue.CollapseSpaces | assets/js/catalogue.js:68 | the result holds plain spaces only, never two in a row; emptiness and a leading space are kept |
| Catalogue.CollapseSpacesAppend | assets/js/catalogue.js:68 | two texts whose seam does not split a whitespace run collapse separately |
| Catalogue.CollapseRun | assets/js/catalogue.js:68 | a whole run of whitespace becomes one space |
| Catalogue.CollapseRunBetween | assets/js/catalogue.js:68 | a whitespace run between two words becomes one space in its place, and each side collapses on its own |
| Catalogue.CollapseKeepsNonSpaces | assets/js/catalogue.js:68 | collapsing rewrites only whitespace: the other characters stay, in order |
| Catalogue.NormalizeTitle | assets/js/catalogue.js:63-70 | the key is the lower-cased, folded title filtered to `[a-z0-9: ]`, collapsed and trimmed; it is single-spaced `[a-z0-9: ]` text without outer spaces |
| Catalogue.NormalizeKeepsCharacters | assets/js/catalogue.js:63-70 | the key holds exactly the allowed non-space characters of the folded, lower-cased title, in order |
| Catalogue.SliceKeeps | assets/js/catalogue.js:69 | trimming single-spaced allowed text keeps it single-spaced allowed text |
| Catalogue.NormalizeIdempotent | assets/js/catalogue.js:63-70 | normalising a normalised title changes nothing |
| Catalogue.CollapseKeeps | assets/js/catalogue.js:68 | single-spaced allowed text is left unchanged |
| Catalogue.FindTrailer | assets/js/catalogue.js:445-455 | the lookup returns the exact entry's URL, else the first key found in the title |
| Catalogue.TrailerUrl | assets/js/catalogue.js:445-455 | the exact key's URL when there is one and it is non-empty; failing that, the URL of the first key found in the title; `""` when no key is found |
| Catalogue.ExactTrailerWins | assets/js/catalogue.js:445-446 | an exact key with a URL wins over any substring match |
| Catalogue.SubstringTrailer | assets/js/catalogue.js:449-454 | without an exact key, the first key found in the title gives the trailer |
| Catalogue.NoTrailer | assets/js/catalogue.js:445-455 | a title holding no key gets no trailer |
| Catalogue.EvanouisTrailer | assets/js/catalogue.js:74-77 | any title containing `evanouis` plays that trailer |
| Catalogue.NotContainsEvanouis | assets/js/catalogue.js:74-77 | the second key does not contain the first |
| Catalogue.TrailerSrc | assets/js/catalogue.js:216-219 | nothing opens exactly for an empty URL |
| Catalogue.TrailerSrcQuery | assets/js/catalogue.js:218-219 | the source is the URL, then `?` or `&` depending on whether it already has a query, then `autoplay=1&rel=0` |
| Catalogue.PosterClick | assets/js/catalogue.js:436-458 | a poster click opens the trailer source for the normalised title |
| Paiement.CardDigits | assets/js/paiement.js:129 | the first 16 digits typed, in order; a field of at most 16 digits is kept as it is |
| Paiement.Spaced | assets/js/paiement.js:132 | the spaced form starts and ends with the first and last digit |
| Paiement.SpacedLayout | assets/js/paiement.js:132 | spaces stand exactly at every fifth position, and digits everywhere else |
| Paiement.Grouped | assets/js/paiement.js:132 | the replacement adds one space per complete group of four and nothing else: removing whitespace gives the same text |
| Paiement.CardDisplay | assets/js/paiement.js:132 | for the field's digits the shown text is the groups of four separated by single spaces |
| Paiement.GroupedIsSpaced | assets/js/paiement.js:132 | the regex replacement leaves a trailing space exactly after a complete last group |
| Paiement.TrimGroupedIsSpaced | assets/js/paiement.js:132 | for digits, the replaced and trimmed text is the groups of four separated by single spaces |
| Paiement.CardDisplayRoundTrip | assets/js/paiement.js:129-132 | the displayed number has spaces every fifth position and none at the end; removing them gives the digits back; masking it again changes nothing |
| Paiement.SpacedRemoveSpaces | assets/js/paiement.js:132 | removing the spaces from the spaced form gives the digits |
| Paiement.SpacedDigitsOnly | assets/js/paiement.js:129-132 | keeping the digits of the spaced form gives the digits |
| Paiement.BrandOf | assets/js/paiement.js:135-138 | Visa exactly when the number starts with 4, Mastercard exactly for 51–55 and 22–27, American Express exactly for 34 and 37, CB otherwise |
| Paiement.BrandStable | assets/js/paiement.js:135-138 | only the first two digits decide the brand |
| Paiement.BrandByFirstDigit | assets/js/paiement.js:135-138 | a leading 4 is Visa; a first digit other than 2–5 is CB |
| Paiement.ExpiryMask | assets/js/paiement.js:156-160 | the first four digits typed; up to two are shown as they are, and from the third on a `/` follows the month |
| Paiement.ExpiryMaskStable | assets/js/paiement.js:156-160 | the field's digits are the first four typed; masking it again changes nothing; a full field reads `MM/YY` |
| Paiement.CvcMask | assets/js/paiement.js:171 | the first four digits typed, in order |
| Paiement.CvcMaskTyping | assets/js/paiement.js:171 | a typed digit is appended while the field has fewer than four, and any other keystroke leaves it unchanged |
| Paiement.CvcMaskStable | assets/js/paiement.js:171 | masking the CVC again changes nothing |
| Paiement.FullYear | assets/js/paiement.js:193 | `new Date(y, …)` changes the year exactly when it is 0–99, into 1900–1999 with the same last two digits |
| Paiement.ValidExpiry | assets/js/paiement.js:183-195 | an accepted expiry has a month in 1–12 and a year that parses |
| Paiement.ExpiryAccepts | assets/js/paiement.js:185-194 | an accepted month is in 1–12 and the year is a number |
| Paiement.ExpiryAcceptsMeaning | assets/js/paiement.js:185-194 | for a month and a two-digit year, the check passes through that month of 20YY and fails from the next month |
| Paiement.ExpiryTextRead | assets/js/paiement.js:184 | `MM/YY` splits into the month and the year, which parse back |
| Paiement.ValidExpiryMeaning | assets/js/paiement.js:183-195 | a card shown as `MM/YY` is accepted through month MM of 20YY and refused after it |
| Paiement.BadMonthRefused | assets/js/paiement.js:185 | a month outside 1–12, or one that does not parse, is always refused |
| Paiement.Pay | assets/js/paiement.js:222-259 | the card panel checks the number, then the expiry, then the CVC: it blocks on the number exactly when that is not 16 characters once spaces are removed, on the expiry exactly when the number passed and the expiry is invalid, on the CVC exactly when both passed and the CVC is shorter than 3; other panels go on |
| Paiement.PayWithMaskedFields | assets/js/paiement.js:129-175 | with the fields as the masks leave them, the number check is "16 digits typed" and the CVC check is "three digits typed" |
| Ticket.TrimAll | assets/js/ticket.js:94 | each piece is trimmed, and the count is kept |
| Ticket.SeatsPretty | assets/js/ticket.js:92-95 | a text without a comma is shown as it is, and an empty one as "—" |
| Ticket.SeatsShown | assets/js/ticket.js:16-95 | the seat list is never blank: "—" when missing, the trimmed parameter itself when it holds no comma |
| Ticket.View | assets/js/ticket.js:12-17 | every field shows its parameter, or its placeholder when the parameter is missing or empty; the seat list is the trimmed, rewritten parameter; no field is blank |
| Ticket.PiecesReadBack | assets/js/ticket.js:94 | splitting ", "-joined clean pieces on ',' and trimming gives the pieces back |
| Ticket.PrettyKeepsSeats | assets/js/ticket.js:92-95 | the rewritten list still has a comma and holds the same trimmed seats |
| Ticket.SeatsNeverBlank | assets/js/ticket.js:92-95 | the seat list is never blank |
| Ticket.SeatsPrettyIdempotent | assets/js/ticket.js:92-95 | rewriting an already rewritten list changes nothing |
| Ticket.JoinedIds | assets/js/ticket.js:16 | comma-joined seat ids have no outer whitespace, and hold a comma once there are two |
| Ticket.SeatsShownOfIds | assets/js/ticket.js:16-95 | seats handed over as `ids.join(',')` are shown as `ids.join(', ')` |
| Ticket.PrettyOfIds | assets/js/ticket.js:92-95 | two or more ids are shown joined by ", " |
| Ticket.SplitTrimSpace | assets/js/ticket.js:94 | the space after a comma disappears once the pieces are trimmed |
| Ticket.TrimKeepsOut | assets/js/ticket.js:94 | a trimmed piece holds no character the piece did not hold, and has no outer whitespace |

## Left out

- Markup and the DOM are not modelled: element lookups, `innerHTML`, classes, the modal, the left-column texts, and the trailer and seat-map rendering beyond each cell's class.
- Fetching `films.json` and `snack.json` is not modelled. The film list and the catalogue are parameters, and a failed fetch is an empty catalogue.
- JSON encoding of the store is not modelled, nor the swallowed parse errors. An unreadable store reads as empty.
- Money is exact integer cents. Floating-point sums, `toFixed`, `Math.round` and `toLocaleString` formatting are left out.
- Snacks.Discounted: CINEPASS is 90% rounded half-up on whole cents, not a float product rounded by `toFixed(2)`. The two can differ by a cent at halfway values.
- Case mapping covers ASCII letters only (`toLowerCase`, `toUpperCase`, `/desactive/i`). Other letters are kept as they are. In the title normalisation this means a capital accented letter is not lower-cased before `fold`, so after folding it is an upper-case ASCII letter that the character filter drops: "Les Évanouis" gives "les vanouis" where the page gives "les evanouis", and such a title misses its trailer key.
- The NFD decomposition with removal of combining marks is a parameter `fold` of the title normalisation. The seat map's `normalize` is a parameter `norm`.
- `localeCompare(b, 'fr')` is a parameter `le`, required to be a total preorder.
- `new Date()` is a parameter `Now(year, month)`. Time zones, the time of day and years beyond those two-digit input can express are left out.
- Salle.FreeRemovable: JavaScript iterates a `Set` in insertion order. The model frees any removable seats, so its contract fixes how many are freed but not which ones.
- Non-integer values of `libres`, of durations and of quantities are not modelled. `Number(x)` is an integer or absent.
- The numeric-key ordering of `Object.entries` and `for…in` is not modelled. Keys keep their insertion order.
- slider.js (the home-page carousel) is not part of this model.
- `localStorage.clear()` on the ticket page's home links is not modelled, since it is a navigation side effect.
- `URLSearchParams` encoding, `encodeURIComponent` and page navigation are not modelled. Links are records of their parameters.
- The ticket page's total formatting (`fmtEUR(parseFloat(total))`) is not modelled. The raw parameter is kept.
- `hydrateLeftColumn` is modelled for its showtime lookup and `state.end`. Its poster and format (`state.poster`, `state.format`) and its texts are not, nor its copies on the fare and snack pages. The end-time element is taken to be on the page.
- Salle.RowCode: an empty id gets -1 where JavaScript gets `NaN`, which makes its comparator treat the two ids as equal. The selection only ever holds grid ids, which are never empty.
- Salle.ColNumber: an id without a number gets column 0 where JavaScript gets `NaN`, which makes its comparator treat two such ids of one row as equal. Grid ids always carry their number (`Salle.ColNumberOfSeatId`).
- `updateStepperAvailability` is not modelled: it always re-enables every "+" button.
- Fares.Lines: `renderBasket` reads `PRICES[code]` without a guard (tarif.js:263), so a code without a price and a positive quantity throws there. The model skips such a code as the total's `PRICES[code]?.price || 0` does. The page's codes come from its own buttons, which only carry priced codes.
- `renderTicketLines` and the other display-only text are not modelled.
- Snacks.RemoveUndoesAdd requires any existing entry to hold at least one item. An entry restored with quantity 0 or less is deleted by "-" after "+".
- Snacks.RestoredItem takes the saved fields as integers. The `|| 0` and `|| ''` defaults for missing saved fields are not modelled.
