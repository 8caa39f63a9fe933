# ToolShare lending lifecycle in Dafny

ToolShare is a peer-to-peer tool-lending tracker for small "circles" of
friends. Members list the items they own. Circle-mates request to borrow an
item for a date range. The owner approves or declines. An approved request
becomes an active loan, and the loan is later marked returned with notes and
photos. The app keeps everything in one snapshot (`State`): the self user,
friends, circles, items, requests and loans. Every user action hands the store
a pure updater that rebuilds the snapshot with `filter`, `map` and
prepend-by-spread. Every list the app shows is a `filter` chain over the
snapshot.

This project models that core as functions over a `State` datatype:

- `Types` holds the records and `FindItem`.
- `MyItems` holds `saveItem` and `deleteItem`.
- `Requests` holds the incoming/outgoing/active lists and `approve`, `decline` and `markReturned`.
- `LoanHistory` holds the returned-loan list.
- `MyCircle` holds the circle members and `itemsByMember`.
- `Page` holds the category list and `handleRequest`.
- `SeedState` holds the initial snapshot.
- `Seqs` and `Text` model the JavaScript built-ins the code relies on: `filter`, `map`, `slice`, `new Set`, `trim`, `toLowerCase`, `toUpperCase` and `includes`.
- `Lifecycle` states what holds across operations: a consistency invariant that every updater preserves, the request and loan transitions as the Requests tab offers them, and the two gaps the app leaves open.
- `Scenario` states the lifecycle on the seed with fixed ids: the user's own request, and a request by Bob that the user approves and then marks returned.

Generated ids (`uid()`) and timestamps (`now()`) are parameters. A rejected
action (the app shows an `alert`) is modelled as "the snapshot is unchanged".

The updaters are modelled as written:

- `approve`, `decline` and `markReturned` do not look at the current status. Only the Requests tab keeps them apart, by listing only pending incoming requests and offering "Mark Returned" only on active loans of items the user owns (src/app/page.tsx:347, 357). The `Lifecycle` lemmas `ApproveIncoming`, `DeclineIncoming` and `ReturnActive` state the transitions for a request listed as incoming and a loan listed as active.
- Deleting an item removes its requests but keeps its loans (`DeleteItemOrphansLoans`).
- Nothing prevents two active loans for one item (`ApproveAllowsDoubleBooking`).

Two more behaviours of the code are easy to miss:

- A request's borrower is always the local user (`state.user.id`, src/app/page.tsx:458). Requests by friends exist only in a stored snapshot, so `Scenario` starts Bob's request from one (`Scenario.WithBobsRequest`).
- `handleRequest` rejects only empty dates (src/app/page.tsx:456), so a range that ends before it starts is accepted (`Scenario.ReversedDatesAccepted`).

## Model

| member | source | states |
|---|---|---|
| Seqs.Filter | src/app/page.tsx:134-137 | `filter` keeps exactly the elements satisfying the condition, with their multiplicities, as a subsequence in original order |
| Seqs.FilterFuse | src/app/page.tsx:134-137 | a chain of two `filter` calls equals one `filter` on both conditions |
| Seqs.FilterAll | src/app/page.tsx:131 | a `filter` that every element passes returns its input unchanged |
| Seqs.FilterCons | src/app/page.tsx:450 | `filter` decides a list's first element before the rest |
| Seqs.Map | src/app/page.tsx:189 | `map` keeps the length and applies the function at every position |
| Seqs.MapCons | src/app/page.tsx:450 | `map` maps a list's first element before the rest |
| Seqs.Take | src/app/page.tsx:186 | `slice(0, n)` is a prefix of `xs` with exactly `n` elements when `xs` is longer, and the whole list otherwise |
| Seqs.Dedup | src/app/page.tsx:450 | `Array.from(new Set(xs))` has no duplicates, holds exactly the elements of `xs`, and lists them in the order of their first occurrence in `xs` |
| Seqs.DedupOfDistinct | src/app/page.tsx:450 | `Array.from(new Set(xs))` of a list without duplicates is that list |
| Text.TrimEmptyIffBlank | src/app/page.tsx:184 | `title.trim()` is empty exactly when every character of the title is whitespace |
| Text.Trim | src/app/page.tsx:184 | `trim` returns the part of the text between a whitespace-only prefix and a whitespace-only suffix, neither starting nor ending with whitespace |
| Text.ToLower | src/app/page.tsx:136 | `toLowerCase` leaves no upper-case ASCII letter and keeps every other character |
| Text.ToUpper | src/app/page.tsx:61 | `toUpperCase` leaves no lower-case ASCII letter and keeps every other character |
| Text.Includes | src/app/page.tsx:136 | `includes` holds for the empty needle, and only for a needle no longer than the text |
| Text.IncludesIffOccurs | src/app/page.tsx:136 | `includes` holds exactly when the needle occurs at some position of the haystack |
| Text.EmptySearchMatchesAll | src/app/page.tsx:136 | the empty search text is contained in every lower-cased title |
| Types.FindItem | src/app/page.tsx:260 | `find` returns the first item with the id, and returns nothing exactly when no item has that id |
| Types.Item.Matches | src/app/page.tsx:136-137 | an item matches when its lower-cased title contains the lower-cased search at some position and a non-empty filter equals its category |
| Types.ItemShown | src/app/page.tsx:264-266 | a request or loan is listed exactly when the first item with its item id exists and matches the search and filter |
| MyCircle.FindCircle | src/app/page.tsx:130 | `find` on circles returns the first circle with the id, and returns nothing exactly when none has it |
| MyCircle.CircleMemberIds | src/app/page.tsx:130 | the member ids are those of the first circle with the active id, and none when no circle has it |
| MyCircle.People | src/app/page.tsx:131 | the known people are the user followed by the friends in order |
| MyCircle.Members | src/app/page.tsx:129-132 | members are exactly the known people (user first) whose id is in the active circle's member list, each as often as in that list of people, in order; when all of them belong, all are listed |
| MyCircle.ItemsByMember | src/app/page.tsx:134-137 | every listed item is in the active circle, owned by the member, has a lower-cased title containing the lower-cased search, and has the filter as category when the filter is non-empty; order kept |
| MyItems.EditedItem | src/app/page.tsx:185-188 | the edited record keeps id, owner, circle and creation time, takes the form's fields, keeps the old photos when no file was chosen and otherwise takes the first three files |
| MyItems.CategoryField | src/app/page.tsx:188 | an empty category is stored as absent, any other as itself |
| MyItems.CategoryRoundTrip | src/app/page.tsx:181 | reopening a saved item shows the category that was typed, and saving a shown stored category again stores the same field |
| MyItems.ReplacementValue | src/app/page.tsx:188 | an empty replacement value is stored as absent, any other as its numeric conversion |
| MyItems.NewItem | src/app/page.tsx:191 | a new item has the given id, owner, circle and timestamp, the form's fields, and at most three photos |
| MyItems.SaveItem | src/app/page.tsx:183-195 | a blank title leaves the snapshot unchanged; a new item is prepended, owned by the user in the active circle; an edit replaces only items with the edited id, keeping their identity fields; nothing but `items` changes |
| MyItems.DeleteItem | src/app/page.tsx:197-207 | without an edited item nothing changes; otherwise exactly the items with that id and the requests on it are removed, the rest keep their order and multiplicity, and loans and all other fields are unchanged |
| Requests.Incoming | src/app/page.tsx:259-267 | lists only stored PENDING requests on an existing item the user owns that matches the search and filter, in order |
| Requests.Outgoing | src/app/page.tsx:268-272 | lists only the user's own stored PENDING requests whose existing item matches the search and filter, in order |
| Requests.ActiveLoans | src/app/page.tsx:273-277 | lists only stored ACTIVE loans whose existing item matches the search and filter, in order |
| Requests.MyItemIds | src/app/page.tsx:259 | the ids are exactly those of the items the user owns |
| Requests.Approve | src/app/page.tsx:279-282 | the requests with the approved id become APPROVED and the rest are unchanged; exactly one ACTIVE loan with no return photos or notes, copying item, borrower and dates from the request, is prepended; nothing else changes |
| Requests.Decline | src/app/page.tsx:283 | the requests with the declined id become DECLINED and the rest are unchanged; items, loans and all other fields are unchanged |
| Requests.MarkReturned | src/app/page.tsx:288-296 | without a chosen loan nothing changes; otherwise the loans with its id become RETURNED with the notes and exactly the first three photo files (all of them when fewer), keeping id, item, borrower and dates; other loans and all requests are unchanged |
| LoanHistory.History | src/app/page.tsx:384-387 | lists only stored RETURNED loans whose existing item matches the search and filter, in order |
| Page.CircleCategoryValues | src/app/page.tsx:450 | the list is `filter` then `map` over the items: the category of each active-circle item with a non-empty category, in store order with repeats; its values are exactly the non-empty categories of items in the active circle |
| Page.CategoryChainMembers | src/app/page.tsx:450 | the values of the `filter`/`map` chain are exactly the non-empty categories of the circle's items |
| Page.Categories | src/app/page.tsx:450 | the category list is duplicate-free, holds exactly the non-empty categories of the active circle's items, and lists them in the order they first occur among the items |
| Page.HandleRequest | src/app/page.tsx:454-461 | no open item, an empty date, or the user's own item leaves the snapshot unchanged; otherwise exactly one PENDING request by the user for the item with the given dates is prepended, and nothing else changes |
| SeedState.Seed | src/app/page.tsx:55-70 | the seed has the user "you", friends Alice and Bob, one "Family" circle holding all three with a `FAM-` invite code, the user's spray painter and Alice's drill, each stamped by its own `now()`, and no requests or loans |
| Lifecycle.SeedValid | src/app/page.tsx:55-70 | the seed is consistent when its two generated item ids differ |
| Lifecycle.SaveItemPreservesValid | src/app/page.tsx:183-195 | saving keeps the snapshot consistent when the edited item is the stored one and a new id is unused |
| Lifecycle.PrependingItemPreservesValid | src/app/page.tsx:192 | prepending an item with an unused id and at most three photos keeps the snapshot consistent |
| Lifecycle.ReplacingItemPreservesValid | src/app/page.tsx:189 | replacing every item with one id by a single record with the same id and owner keeps the snapshot consistent |
| Lifecycle.DeleteItemPreservesValid | src/app/page.tsx:200-204 | deleting an item keeps the snapshot consistent, because its requests are deleted with it |
| Lifecycle.HandleRequestPreservesValid | src/app/page.tsx:454-461 | a new request keeps the snapshot consistent (it references an existing item and is not a self-request) |
| Lifecycle.StatusChangePreservesValid | src/app/page.tsx:281-283 | a change of request statuses that keeps each request's item and borrower keeps the snapshot consistent |
| Lifecycle.ApprovePreservesValid | src/app/page.tsx:279-282 | approving keeps the snapshot consistent |
| Lifecycle.DeclinePreservesValid | src/app/page.tsx:283 | declining keeps the snapshot consistent |
| Lifecycle.MarkReturnedPreservesValid | src/app/page.tsx:288-296 | marking returned keeps the snapshot consistent, return photos included |
| Lifecycle.EmptySearchMatches | src/app/page.tsx:136-137 | an empty search and an empty filter match every item |
| Lifecycle.IncomingComplete | src/app/page.tsx:263-267 | every PENDING request on an item the user owns is incoming whenever its item is listed under the search and filter, and always with an empty search and filter |
| Lifecycle.OutgoingComplete | src/app/page.tsx:268-272 | every PENDING request of the user's is outgoing whenever its item is listed under the search and filter, and always with an empty search and filter when the item exists |
| Lifecycle.ItemsByMemberComplete | src/app/page.tsx:134-137 | every item of the member in the circle that matches the search and filter is listed, and with an empty search and filter every such item is |
| Lifecycle.ActiveAndHistoryPartition | src/app/page.tsx:384-387 | no loan is both active and in the history; a stored loan whose item is listed under the search and filter is in exactly one of the two, and with an empty search and filter so is every loan whose item exists |
| Lifecycle.ApproveIncoming | src/app/page.tsx:279-282 | approving an incoming request records it APPROVED, removes its id from the incoming list, and lists the new loan as active on an item the user owns |
| Lifecycle.DeclineIncoming | src/app/page.tsx:283 | declining an incoming request records it DECLINED, removes its id from the incoming list, and creates no loan |
| Lifecycle.ReturnActive | src/app/page.tsx:288-296 | returning an active loan removes its id from the active list, puts the returned loan in the history, and leaves requests unchanged |
| Lifecycle.DeleteItemOrphansLoans | src/app/page.tsx:199-204 | after deleting an item its loans remain but reference no item and appear in neither the active list nor the history |
| Lifecycle.ApproveAllowsDoubleBooking | src/app/page.tsx:279-282 | approving two requests for one item yields two ACTIVE loans on it |
| Scenario.OwnItemRequestRejected | src/app/page.tsx:457 | requesting one's own item on the seed leaves it unchanged |
| Scenario.MissingDateRejected | src/app/page.tsx:456 | a request with an empty date leaves the seed unchanged |
| Scenario.SeedCategories | src/app/page.tsx:450 | the seed's filter list is Painting, Power Tools |
| Scenario.SeedMembers | src/app/page.tsx:129-132 | every known person is a member of the seed's circle |
| Scenario.SeedCategoryValues | src/app/page.tsx:450 | before deduplication the seed's categories are Painting then Power Tools |
| Scenario.UserRequestsDrill | src/app/page.tsx:454-461 | the user's request for Alice's drill is stored PENDING with the user as borrower, listed as outgoing and not as incoming |
| Scenario.BobsRequestIncoming | src/app/page.tsx:263-267 | a stored PENDING request by Bob for the user's painter is consistent and is the incoming list, so Approve is offered on it |
| Scenario.ApproveBobsRequest | src/app/page.tsx:279-282 | approving Bob's request records it APPROVED, empties the incoming list and lists one ACTIVE loan on the user's own painter, the case in which Mark Returned is offered (src/app/page.tsx:347, 357) |
| Scenario.ReturnPainter | src/app/page.tsx:288-296 | returning that loan with four photo files keeps the first three and the notes, leaves the request APPROVED, and moves the loan from the active list to the history |
| Scenario.ReversedDatesAccepted | src/app/page.tsx:456 | a date range that ends before it starts is accepted |

## Left out

- React rendering, components, modals, tabs, form state and `alert` messages (src/app/page.tsx:80-110, 139-252, 298-376, 463-513): presentation only. A rejection is modelled as an unchanged snapshot.
- `localStorage` `load`/`save` and the JSON round-trip (src/app/page.tsx:72-75, 440-441): browser storage and library serialisation.
- `filesTo64` (src/app/page.tsx:111-123): asynchronous `FileReader` I/O. Selected files are given already encoded, one string per file, and the model applies the `slice(0, 3)` itself.
- `uid()` and `now()` (src/app/page.tsx:8-9): randomness and the clock. They are parameters. The code never checks ids for uniqueness, so the consistency lemmas take fresh ids as hypotheses.
- `DATE_FMT` and the overdue flag (src/app/page.tsx:11, 348): locale and wall-clock dates. Dates are opaque strings.
- `Number(rv)` (src/app/page.tsx:188, 191): JavaScript numeric conversion is a parameter `toNumber: string -> real`. `NaN` is not representable.
- `toLowerCase`/`toUpperCase` are modelled for ASCII letters only. Other Unicode case mappings are not modelled.
- The initial choice of the active circle (src/app/page.tsx:444) and the "Your Items" list (src/app/page.tsx:176): UI state and a display list outside the lending lifecycle. The active circle id is a parameter.
- The updaters run on the snapshot at the time they are applied, while `editing`, `detailsFor`, `returning` and the approved request are the values captured when the UI rendered. The model takes both as arguments, so a stale captured value is representable. The consistency lemmas assume the captured item is the stored one.
