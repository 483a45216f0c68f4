# Shopping lists: a verified model of the store and its pages

This project models the in-memory core of a browser shopping-list manager.
Users create lists, invite members by email, add, resolve and delete items,
and search and filter across lists. Everything lives in one store: an array
of lists held by a provider, replaced in full on each change. The pages read
that store, derive views from it and forward user input to its mutators after
a few guards.

Module layout, one module per source file:

- `ListsStore` (`lists_store.dfy`) has the records (`Item`, `ShoppingList`, the `addList` argument `ListDraft`, the owner filter). It also has the nine list transformations the provider's mutators pass to `setLists(prev => ...)`, and the queries every page repeats: find by id, ownership, pending-item count.
- `ListsContext` (`lists_context.dfy`) has the provider as a class. `lists` is a field, and each mutator assigns it the matching `ListsStore` transformation of its old value. The session slots `currentUser`, `searchTerm`, `filterOwner` and `showArchived` are fields too. Both modules model `src/context/ListsContext.tsx`. They are split because a class method cannot refer to the module function of the same name.
- `ListsOverview` has the overview filter and the card derivations.
- `ShoppingListDetail` has the standalone detail component that the router serves at `/lists/:listId`. It is a class over its own state slots (members as records, items, `hasLeft`, input buffers), with the pure transitions its handlers apply.
- `ListDetail`, `Members` and `NewList` model the store-backed pages. Each is a class with a `const store` reference and its own input slots. The pure guards and derivations sit beside them.
- `Seqs` (filter, map, removing every copy of a value, order-preserving subsequence), `Text` (ASCII `trim`, `toLowerCase`, `includes`, `split('@')[0]`) and `Wrappers` (`Option`) are helpers.
- `Scenarios` holds concrete runs over the three lists the provider is seeded with.

Ids that the source draws from `Date.now()` are parameters. The source does not guarantee that they are unique. The lemmas that need a fresh id (`AddItemOnce`) take freshness as a hypothesis; the operations themselves accept any id.

Behaviour of the code worth knowing before reading the contracts:

- The store's `addItem` and `addMember` accept empty strings; only the pages trim the input and drop blank entries.
- The provider has no operation that renames a list.
- Nothing keeps the owner's email out of `members`.
- The 'mine' and 'shared' filters still apply the search term and the archived toggle.
- The standalone page checks for a duplicate email on the untrimmed input, so a space-padded copy of a member's address is accepted as new (`Scenarios.PaddedEmailIsNotDuplicate`).
- Every `filter` keeps each passing element as often as it occurs: an address typed into two rows of the new-list form is stored twice (`NewList.ValidEmailsKeepsCopies`).

## Model

| member | source | states |
|---|---|---|
| ListsStore.AddList | src/context/ListsContext.tsx:102-109 | exactly one list is appended; earlier lists keep order and contents; the new one has the supplied id, `archived = false` and the draft's name, owner, members and items |
| ListsStore.DeleteList | src/context/ListsContext.tsx:111-113 | the result is an order-preserving subsequence holding exactly the lists whose id differs, each as often as it occurs in the store |
| ListsStore.DeleteListAbsent | src/context/ListsContext.tsx:111-113 | deleting an id no list has is a no-op |
| ListsStore.DeleteListIdempotent | src/context/ListsContext.tsx:111-113 | deleting twice equals deleting once |
| ListsStore.ArchiveList | src/context/ListsContext.tsx:115-121 | length kept; `archived` flips exactly on lists with the id; every other field of every list is unchanged |
| ListsStore.ArchiveListTwice | src/context/ListsContext.tsx:115-121 | archiving twice restores the store |
| ListsStore.ArchiveListAbsent | src/context/ListsContext.tsx:115-121 | archiving an absent id is a no-op |
| ListsStore.LeaveList | src/context/ListsContext.tsx:123-131 | in every target list every copy of the current user goes and the other members keep their order and multiplicity; id, owner, name, items and flag of all lists and all non-target lists are unchanged |
| ListsStore.LeaveListIdempotent | src/context/ListsContext.tsx:123-131 | leaving twice equals leaving once |
| ListsStore.AddItem | src/context/ListsContext.tsx:134-148 | each target list gets `{id, name, resolved = false}` appended to its items and nothing else; other lists are unchanged; the name is not checked |
| ListsStore.AddItemOnce | src/context/ListsContext.tsx:134-148 | with a fresh item id, the appended item is the only item of the list with that id |
| ListsStore.AddItemCount | src/context/ListsContext.tsx:134-148 | the target list's item count and pending count each grow by exactly one |
| ListsStore.ToggleIn | src/context/ListsContext.tsx:156-158 | same length; `resolved` flips exactly on items with the id; ids and names kept |
| ListsStore.ToggleInTwice | src/context/ListsContext.tsx:156-158 | toggling an item sequence twice is the identity |
| ListsStore.ToggleItem | src/context/ListsContext.tsx:150-163 | only the target lists' items change, and there only the matching items' flag flips |
| ListsStore.ToggleItemTwice | src/context/ListsContext.tsx:150-163 | a double toggle restores the store |
| ListsStore.DeleteItem | src/context/ListsContext.tsx:165-176 | target lists keep exactly their items with a different id, in order and with their multiplicity; everything else unchanged |
| ListsStore.DeleteItemIdempotent | src/context/ListsContext.tsx:165-176 | deleting an item twice equals deleting it once |
| ListsStore.DeleteItemCounts | src/context/ListsContext.tsx:165-176 | neither the item count nor the pending count of any list grows |
| ListsStore.AddMember | src/context/ListsContext.tsx:179-187 | a target list gets the email appended exactly when it does not hold it yet (case-sensitive); nothing else changes |
| ListsStore.AddMemberIdempotent | src/context/ListsContext.tsx:179-187 | adding the same email twice equals adding it once |
| ListsStore.AddMemberOnce | src/context/ListsContext.tsx:179-187 | afterwards the email is in the target list, exactly once if it was new |
| ListsStore.RemoveMember | src/context/ListsContext.tsx:189-197 | in target lists every copy of the email goes, other members keep order and multiplicity; other lists unchanged |
| ListsStore.RemoveMemberAbsent | src/context/ListsContext.tsx:189-197 | removing an email the target lists do not hold is a no-op |
| ListsStore.RemoveMemberIdempotent | src/context/ListsContext.tsx:189-197 | removing twice equals removing once |
| ListsStore.FindList | src/pages/ListDetail.tsx:23 | `None` (the page's "not found") iff no list has the id; otherwise the list at the first position with that id (also `src/pages/Members.tsx:12`, and the not-found branch at `src/pages/ListDetail.tsx:43-49`) |
| ListsStore.IsOwner | src/pages/ListDetail.tsx:51 | the user owns a list iff the user is its `owner` (also `src/pages/ListsOverview.tsx:146` and `src/pages/Members.tsx:22`); the card label and the menu are stated through it |
| ListsStore.UnresolvedCount | src/pages/ListsOverview.tsx:144 | the pending count never exceeds the item count (also `src/pages/ListDetail.tsx:52`) |
| ListsStore.UnresolvedCountAppend | src/pages/ListsOverview.tsx:144 | the pending count adds up over concatenation |
| ListsStore.UnresolvedCountSingle | src/pages/ListsOverview.tsx:144 | one item counts 1 when unresolved and 0 when resolved |
| ListsStore.UnresolvedCountExtremes | src/pages/ListDetail.tsx:52 | the count is 0 iff every item is resolved, and equals the item count iff none is |
| ListsContext.ListsProvider.constructor | src/context/ListsContext.tsx:82-99 | the store starts with the given lists and user, an empty search, filter 'all' and archived lists hidden |
| ListsContext.ListsProvider.SetSearchTerm | src/context/ListsContext.tsx:97 | sets the search term only |
| ListsContext.ListsProvider.SetFilterOwner | src/context/ListsContext.tsx:98 | sets the owner filter only |
| ListsContext.ListsProvider.SetShowArchived | src/context/ListsContext.tsx:99 | sets the archived toggle only |
| ListsContext.ListsProvider.AddList | src/context/ListsContext.tsx:102-109 | `lists` becomes `AddList` of its old value; no other slot changes |
| ListsContext.ListsProvider.DeleteList | src/context/ListsContext.tsx:111-113 | `lists` becomes `DeleteList` of its old value |
| ListsContext.ListsProvider.ArchiveList | src/context/ListsContext.tsx:115-121 | `lists` becomes `ArchiveList` of its old value |
| ListsContext.ListsProvider.LeaveList | src/context/ListsContext.tsx:123-131 | `lists` becomes `LeaveList` of its old value for the session's user |
| ListsContext.ListsProvider.AddItem | src/context/ListsContext.tsx:134-148 | `lists` becomes `AddItem` of its old value with the supplied item id |
| ListsContext.ListsProvider.ToggleItem | src/context/ListsContext.tsx:150-163 | `lists` becomes `ToggleItem` of its old value |
| ListsContext.ListsProvider.DeleteItem | src/context/ListsContext.tsx:165-176 | `lists` becomes `DeleteItem` of its old value |
| ListsContext.ListsProvider.AddMember | src/context/ListsContext.tsx:179-187 | `lists` becomes `AddMember` of its old value |
| ListsContext.ListsProvider.RemoveMember | src/context/ListsContext.tsx:189-197 | `lists` becomes `RemoveMember` of its old value |
| ListsOverview.FilteredLists | src/pages/ListsOverview.tsx:78-96 | an order-preserving subsequence of the lists, holding exactly those that pass search, ownership and archived tests, each as often as it occurs |
| ListsOverview.SearchIsSubstring | src/pages/ListsOverview.tsx:80-82 | a non-empty term matches iff the lowered term occurs at some position of the lowered name |
| ListsOverview.SearchIgnoresCase | src/pages/ListsOverview.tsx:80-82 | lowering the name or the term does not change whether it matches |
| ListsOverview.OwnerFilterSound | src/pages/ListsOverview.tsx:85-90 | under 'mine' every result is owned by the user; under 'shared' none is and the user is a member of each |
| ListsOverview.MineSharedDisjoint | src/pages/ListsOverview.tsx:85-90 | for the same inputs no list is in both the 'mine' and the 'shared' result |
| ListsOverview.AllImposesNothing | src/pages/ListsOverview.tsx:85-90 | under 'all' every list passing the search and archived tests is shown |
| ListsOverview.ArchivedHidden | src/pages/ListsOverview.tsx:93 | with the toggle off no archived list is shown |
| ListsOverview.NoFilterShowsEverything | src/pages/ListsOverview.tsx:78-96 | toggle on, 'all' and an empty search give back the lists unchanged |
| ListsOverview.NewListShown | src/pages/ListsOverview.tsx:78-96 | a list the user just created becomes the last entry of the default and the 'mine' views |
| ListsOverview.CardCounts | src/pages/ListsOverview.tsx:144-145 | pending ≤ total, and pending = total − resolved |
| ListsOverview.CountsSplit | src/pages/ListsOverview.tsx:144-145 | pending and resolved items together are all the items |
| ListsOverview.CardRole | src/pages/ListsOverview.tsx:146 | the card says "Owner" iff the user owns the list, "Member" otherwise |
| ListsOverview.MemberSuffix | src/pages/ListsOverview.tsx:164-165 | "s" iff the member count is not 1, "" iff it is 1 |
| ShoppingListDetail.IsMember | src/components/ShoppingListDetail.tsx:51-53 | true iff some member has the user's id and the user is not the owner; never true for the owner |
| ShoppingListDetail.VisibleItems | src/components/ShoppingListDetail.tsx:56-61 | "all" is the identity; "unresolved" is exactly the pending items in original order, with their multiplicity |
| ShoppingListDetail.RoleBadge | src/components/ShoppingListDetail.tsx:118-123 | "Guest" iff left or neither owner nor member; "Owner" iff not left and owner; "Member" iff not left, not owner and member |
| ShoppingListDetail.AddMemberCheck | src/components/ShoppingListDetail.tsx:64-71 | blank input is ignored; otherwise an exact match with an existing email is the duplicate case |
| ShoppingListDetail.MembersAfterAdd | src/components/ShoppingListDetail.tsx:64-80 | members unchanged unless accepted; then one record appended whose email is the untrimmed input and whose name is the text before the first '@' |
| ShoppingListDetail.AddMemberTwice | src/components/ShoppingListDetail.tsx:68-71 | a second add of the same email leaves the members unchanged |
| ShoppingListDetail.MembersWithout | src/components/ShoppingListDetail.tsx:84-86 | an order-preserving subsequence with no record of that id and every other record kept as often as it occurs |
| ShoppingListDetail.ItemsAfterAdd | src/components/ShoppingListDetail.tsx:93-103 | blank text changes nothing; otherwise one pending item with the trimmed, non-empty text is appended |
| ShoppingListDetail.ItemsWithout | src/components/ShoppingListDetail.tsx:107-109 | exactly the items with another id, in order and with their multiplicity |
| ShoppingListDetail.ItemsToggled | src/components/ShoppingListDetail.tsx:111-115 | same length; only items with the id flip, nothing else changes |
| ShoppingListDetail.ItemsToggledTwice | src/components/ShoppingListDetail.tsx:111-115 | toggling twice is the identity |
| ShoppingListDetail.DetailPage.constructor | src/components/ShoppingListDetail.tsx:40-46 | the page starts with the seeded list, filter "unresolved", empty inputs and `hasLeft` false |
| ShoppingListDetail.DetailPage.IsOwner | src/components/ShoppingListDetail.tsx:49 | the user owns the page's list iff the user id equals the owner id; with the component's constants this always holds (`SourceConstantsGiveOwner`) |
| ShoppingListDetail.DetailPage.SourceConstantsGiveOwner | src/components/ShoppingListDetail.tsx:5-10 | with user and owner both "u1" the user is never a member and the badge is "Owner" until leaving |
| ShoppingListDetail.DetailPage.Badge | src/components/ShoppingListDetail.tsx:118-123 | the page badge is "Guest" once the user has left |
| ShoppingListDetail.DetailPage.Visible | src/components/ShoppingListDetail.tsx:56-61 | the visible items are all items under "all" and always drawn from the items |
| ShoppingListDetail.DetailPage.SetListName | src/components/ShoppingListDetail.tsx:147-149 | sets the name slot only |
| ShoppingListDetail.DetailPage.SetItemFilter | src/components/ShoppingListDetail.tsx:43 | sets the filter slot only |
| ShoppingListDetail.DetailPage.SetNewMemberEmail | src/components/ShoppingListDetail.tsx:44 | sets the email buffer only |
| ShoppingListDetail.DetailPage.SetNewItemText | src/components/ShoppingListDetail.tsx:45 | sets the item buffer only |
| ShoppingListDetail.DetailPage.HandleAddMember | src/components/ShoppingListDetail.tsx:64-82 | reports which branch was taken; members become `MembersAfterAdd`; the buffer is cleared only when a member was added |
| ShoppingListDetail.DetailPage.HandleRemoveMember | src/components/ShoppingListDetail.tsx:84-86 | members become `MembersWithout` the id |
| ShoppingListDetail.DetailPage.HandleLeaveList | src/components/ShoppingListDetail.tsx:88-91 | the user's id is absent from members and `hasLeft` is true |
| ShoppingListDetail.DetailPage.HandleAddItem | src/components/ShoppingListDetail.tsx:93-105 | items become `ItemsAfterAdd` of the buffer; the buffer is cleared iff it was not blank |
| ShoppingListDetail.DetailPage.HandleRemoveItem | src/components/ShoppingListDetail.tsx:107-109 | items become `ItemsWithout` the id |
| ShoppingListDetail.DetailPage.HandleToggleResolved | src/components/ShoppingListDetail.tsx:111-115 | items become `ItemsToggled` at the id |
| ListDetail.AllMembers | src/pages/ListDetail.tsx:53 | the roster is the owner followed by the members: length members + 1, head the owner |
| ListDetail.ShownBadges | src/pages/ListDetail.tsx:130 | at most 3 badges, a prefix of the roster, all of it when shorter than 3 |
| ListDetail.MoreBadge | src/pages/ListDetail.tsx:135-136 | "+N more" is present iff the list has more than two members, with N = members − 2 |
| ListDetail.BadgesAccountForRoster | src/pages/ListDetail.tsx:128-136 | shown badges + N equal the roster length, and "+N" appears iff some of the roster is hidden |
| ListDetail.MenuActions | src/pages/ListDetail.tsx:104-121 | member management always; archive (labelled by the flag) and delete iff owner; leave iff not owner |
| ListDetail.MenuExclusive | src/pages/ListDetail.tsx:107-121 | exactly one of delete and leave is offered, and the archive entry matches the flag |
| ListDetail.PageAddItem | src/pages/ListDetail.tsx:55-60 | blank input leaves the store as it is; other input reaches `addItem` trimmed |
| ListDetail.PageAddKeepsNamesNonBlank | src/pages/ListDetail.tsx:55-60 | if no item name in the store is blank, none is after adding through this page |
| ListDetail.ListDetailPage.constructor | src/pages/ListDetail.tsx:21 | the item input starts empty |
| ListDetail.ListDetailPage.SetNewItemInput | src/pages/ListDetail.tsx:153 | sets the input slot only |
| ListDetail.ListDetailPage.HandleAddItem | src/pages/ListDetail.tsx:55-60 | the store becomes `PageAddItem` of the input, which is cleared iff it was not blank; callable once the list is found |
| Members.Invite | src/pages/Members.tsx:24-29 | a blank email leaves the store as it is; another email reaches `addMember` trimmed |
| Members.InviteTwice | src/pages/Members.tsx:24-29 | inviting an address again, padded or not, changes nothing |
| Members.InviteOnce | src/pages/Members.tsx:24-29 | a new address ends up exactly once, trimmed and non-empty, in the target list |
| Members.MembersPage.constructor | src/pages/Members.tsx:10 | the invite input starts empty |
| Members.MembersPage.SetInviteEmail | src/pages/Members.tsx:10 | sets the input slot only |
| Members.MembersPage.HandleInvite | src/pages/Members.tsx:24-29 | the store becomes `Invite` of the input, which is cleared iff it was not blank; callable only once the list is found |
| Members.MembersPage.HandleRemove | src/pages/Members.tsx:31-33 | the store becomes `RemoveMember` of the email; callable only once the list is found |
| NewList.ValidEmails | src/pages/NewList.tsx:16 | an order-preserving subsequence of the rows holding exactly the non-blank rows, untrimmed, each as often as it was typed |
| NewList.ValidEmailsKeepsCopies | src/pages/NewList.tsx:16 | a non-blank address appears among the submitted members exactly as many times as it was typed into rows |
| NewList.SubmittedDraft | src/pages/NewList.tsx:19-24 | the draft has the typed name, the current user as owner, the valid emails as members and no items |
| NewList.SubmitCreatesList | src/pages/NewList.tsx:12-24 | the submit appends one unarchived list owned by the user, without items, whose members are all non-blank |
| NewList.RemoveRow | src/pages/NewList.tsx:34-39 | the row goes only when more than one is left and the index is a row; otherwise the rows are unchanged; others keep their order; one row or more is never reduced to none |
| NewList.SetRow | src/pages/NewList.tsx:41-45 | only row `index` changes; length kept |
| NewList.NewListForm.constructor | src/pages/NewList.tsx:9-10 | the form starts with an empty name and the single row `['']` |
| NewList.NewListForm.SetListName | src/pages/NewList.tsx:90-91 | sets the name slot only |
| NewList.NewListForm.AddMemberInput | src/pages/NewList.tsx:30-32 | one empty row is appended; at least one row remains |
| NewList.NewListForm.RemoveMemberInput | src/pages/NewList.tsx:34-39 | the rows become `RemoveRow` of the index; at least one row remains |
| NewList.NewListForm.UpdateMemberEmail | src/pages/NewList.tsx:41-45 | the rows become `SetRow` at the index; at least one row remains |
| NewList.NewListForm.HandleSubmit | src/pages/NewList.tsx:12-24 | the store gains the list built from the form's name and rows for the store's user |
| Text.Trim | src/components/ShoppingListDetail.tsx:94 | the result is a window of the input outside of which there is only whitespace; it is empty iff the input is blank, and otherwise starts and ends with a non-space |
| Text.TrimIdempotent | src/pages/Members.tsx:25-26 | trimming a trimmed string changes nothing |
| Text.ToLower | src/pages/ListsOverview.tsx:82 | same length, every character lowered in place |
| Text.ToLowerIdempotent | src/pages/ListsOverview.tsx:82 | lowering twice is lowering once |
| Text.ContainsIffOccurs | src/pages/ListsOverview.tsx:82 | `includes` holds iff the term occurs at some position |
| Text.BeforeAt | src/components/ShoppingListDetail.tsx:76 | a prefix without '@' that stops at the first '@' or at the end |
| Scenarios.ToggleMilk | src/context/ListsContext.tsx:44-80 | toggling "Milk" in the first seeded list resolves it, leaves "Eggs" as the one pending item and keeps the other two lists |
| Scenarios.SeedOverview | src/pages/ListsOverview.tsx:78-96 | over the seeded lists, with archived lists hidden, John sees his list under 'all' and 'mine', Jane's shared list under 'all' and 'shared', and never the archived one |
| Scenarios.CreateSnacks | src/context/ListsContext.tsx:102-109 | added to the seeded lists, a new "Snacks" list is stored unarchived and empty, and the default overview shows it |
| Scenarios.PaddedEmailIsNotDuplicate | src/components/ShoppingListDetail.tsx:65-71 | a space-padded copy of a member's email passes the duplicate check |

## Left out

- JSX rendering, inline styles, the UI widgets (`Button`, `ToggleSwitch`, `SearchInput`, `FilterDropdown`) and the router in `App.tsx`. They are presentation or a foreign library.
- Rendering gates are not modelled. The handlers do not check them, so the model's methods can be called regardless. The gates are: the remove buttons and the invite form drawn only for the owner (`src/pages/Members.tsx:100`, `:128`); the overview card's delete button drawn only for the owner (`src/pages/ListsOverview.tsx:181`); on the standalone page, the name input disabled for anyone but the owner (`src/components/ShoppingListDetail.tsx:149`), the remove button drawn only for the owner on non-owner rows (`:172`), the add-member section drawn only for the owner (`:184`), the leave button drawn only for a member who has not left (`:199`) and the add-item button disabled for blank text (`:264`); and the "remove row" button of the new-list form disabled at one row (`src/pages/NewList.tsx:151`).
- The HTML `required` attribute on the new list's name (`src/pages/NewList.tsx:93`): the browser enforces it, so the model's submit accepts any name.
- `alert`, `window.confirm`, `navigate` and the click-outside listener and `menuOpen` slot of the detail menu are browser calls. The duplicate alert is the `Duplicate` outcome of `HandleAddMember`. The overview's confirmed delete and the detail menu's archive, delete and leave handlers forward directly to the provider methods already modelled.
- `useMemo`, React context plumbing and the error `useListsContext` throws outside the provider.
- `Date.now()` id generation: ids are parameters, and their uniqueness is a lemma hypothesis where it matters.
- Full Unicode `trim` and `toLowerCase`: only ASCII whitespace and 'A'..'Z' are handled.
- The seed data is not installed by the constructor, which takes the initial lists as a parameter; the three seeded lists appear only in the scenario lemmas.
