/**
 * The records of the shopping-list store and the list transformations that
 * its mutators hand to `setLists(prev => ...)`: each builds the new array of
 * lists from the previous one with `map`, `filter` or an append.  Also the
 * read-only queries that every page computes the same way: finding a list by
 * id, ownership and the number of unresolved items.
 */
module ListsStore {
  import opened Wrappers
  import Seqs

  datatype Item = Item(id: string, name: string, resolved: bool)

  /** `archived?` is optional in the source; every list it creates or seeds carries it, so it is a plain flag here. */
  datatype ShoppingList = ShoppingList(
    id: string, name: string, owner: string,
    members: seq<string>, items: seq<Item>, archived: bool)

  /** What `addList` is given: a list without its id (`Omit<ShoppingList, 'id'>`). */
  datatype ListDraft = ListDraft(name: string, owner: string, members: seq<string>, items: seq<Item>)

  /** The overview's ownership filter `'all' | 'mine' | 'shared'`. */
  datatype OwnerFilter = All | Mine | Shared

  function DraftOf(l: ShoppingList): ListDraft
  {
    ListDraft(l.name, l.owner, l.members, l.items)
  }

  /** The shape shared by the `map` mutators: every list with the id is rewritten by `f`, the others are kept. */
  function UpdateWhere(ls: seq<ShoppingList>, listId: string, f: ShoppingList -> ShoppingList): (r: seq<ShoppingList>)
    ensures |r| == |ls|
    ensures forall k :: 0 <= k < |ls| ==> r[k] == if ls[k].id == listId then f(ls[k]) else ls[k]
  {
    Seqs.Map(ls, (l: ShoppingList) => if l.id == listId then f(l) else l)
  }

  // ---------------------------------------------------------------- lists

  /** `addList`: one new list at the end, carrying the supplied id and `archived = false`. */
  function AddList(ls: seq<ShoppingList>, draft: ListDraft, newId: string): (r: seq<ShoppingList>)
    ensures |r| == |ls| + 1 && r[..|ls|] == ls
    ensures r[|ls|].id == newId && !r[|ls|].archived
    ensures DraftOf(r[|ls|]) == draft
  {
    ls + [ShoppingList(newId, draft.name, draft.owner, draft.members, draft.items, false)]
  }

  /** `deleteList`: every list with the id goes, the others stay in order. */
  function DeleteList(ls: seq<ShoppingList>, listId: string): (r: seq<ShoppingList>)
    ensures Seqs.Filtered(r, ls, (l: ShoppingList) => l.id != listId)
    ensures forall l :: l in r ==> l.id != listId
  {
    Seqs.FilterFiltered(ls, (l: ShoppingList) => l.id != listId);
    Seqs.Filter(ls, (l: ShoppingList) => l.id != listId)
  }

  lemma DeleteListAbsent(ls: seq<ShoppingList>, listId: string)
    requires forall l :: l in ls ==> l.id != listId
    ensures DeleteList(ls, listId) == ls
  {
    Seqs.FilterKeepsAll(ls, (l: ShoppingList) => l.id != listId);
  }

  lemma DeleteListIdempotent(ls: seq<ShoppingList>, listId: string)
    ensures DeleteList(DeleteList(ls, listId), listId) == DeleteList(ls, listId)
  {
    Seqs.FilterIdempotent(ls, (l: ShoppingList) => l.id != listId);
  }

  /** `archiveList`: the flag flips on the lists with the id; nothing else changes. */
  function ArchiveList(ls: seq<ShoppingList>, listId: string): (r: seq<ShoppingList>)
    ensures |r| == |ls|
    ensures forall k :: 0 <= k < |ls| ==> r[k] == ls[k].(archived := r[k].archived)
    ensures forall k :: 0 <= k < |ls| ==> r[k].archived == (ls[k].archived != (ls[k].id == listId))
  {
    UpdateWhere(ls, listId, (l: ShoppingList) => l.(archived := !l.archived))
  }

  lemma ArchiveListTwice(ls: seq<ShoppingList>, listId: string)
    ensures ArchiveList(ArchiveList(ls, listId), listId) == ls
  {
    var r := ArchiveList(ArchiveList(ls, listId), listId);
    assert forall k :: 0 <= k < |ls| ==> r[k] == ls[k];
  }

  lemma ArchiveListAbsent(ls: seq<ShoppingList>, listId: string)
    requires forall l :: l in ls ==> l.id != listId
    ensures ArchiveList(ls, listId) == ls
  {
    var r := ArchiveList(ls, listId);
    assert forall k :: 0 <= k < |ls| ==> r[k] == ls[k];
  }

  // -------------------------------------------------------------- members

  /** `removeMember`: every copy of the email leaves the lists with the id; nothing else changes. */
  function RemoveMember(ls: seq<ShoppingList>, listId: string, email: string): (r: seq<ShoppingList>)
    ensures |r| == |ls|
    ensures forall k :: 0 <= k < |ls| && ls[k].id != listId ==> r[k] == ls[k]
    ensures forall k :: 0 <= k < |ls| && ls[k].id == listId ==>
      r[k] == ls[k].(members := r[k].members) && Seqs.RemovedAll(r[k].members, ls[k].members, email)
  {
    UpdateWhere(ls, listId, (l: ShoppingList) => l.(members := Seqs.RemoveAll(l.members, email)))
  }

  /** Removing an email that no target list holds changes nothing. */
  lemma RemoveMemberAbsent(ls: seq<ShoppingList>, listId: string, email: string)
    requires forall l :: l in ls && l.id == listId ==> email !in l.members
    ensures RemoveMember(ls, listId, email) == ls
  {
    var r := RemoveMember(ls, listId, email);
    forall k | 0 <= k < |ls| ensures r[k] == ls[k] {
      if ls[k].id == listId {
        assert ls[k] in ls;
      }
    }
  }

  lemma RemoveMemberIdempotent(ls: seq<ShoppingList>, listId: string, email: string)
    ensures RemoveMember(RemoveMember(ls, listId, email), listId, email) == RemoveMember(ls, listId, email)
  {
    var once := RemoveMember(ls, listId, email);
    forall l | l in once && l.id == listId ensures email !in l.members {
      var k :| 0 <= k < |once| && once[k] == l;
    }
    RemoveMemberAbsent(once, listId, email);
  }

  /** `leaveList`: the current user is taken out of the lists with the id; owner, name, items and the other lists stay. */
  function LeaveList(ls: seq<ShoppingList>, listId: string, currentUser: string): (r: seq<ShoppingList>)
    ensures |r| == |ls|
    ensures forall k :: 0 <= k < |ls| && ls[k].id != listId ==> r[k] == ls[k]
    ensures forall k :: 0 <= k < |ls| && ls[k].id == listId ==>
      currentUser !in r[k].members && Seqs.RemovedAll(r[k].members, ls[k].members, currentUser)
    ensures forall k :: 0 <= k < |ls| ==>
      r[k].id == ls[k].id && r[k].owner == ls[k].owner && r[k].name == ls[k].name &&
      r[k].items == ls[k].items && r[k].archived == ls[k].archived
  {
    RemoveMember(ls, listId, currentUser)
  }

  lemma LeaveListIdempotent(ls: seq<ShoppingList>, listId: string, currentUser: string)
    ensures LeaveList(LeaveList(ls, listId, currentUser), listId, currentUser) == LeaveList(ls, listId, currentUser)
  {
    RemoveMemberIdempotent(ls, listId, currentUser);
  }

  /** `addMember`: the email is appended to a list with the id unless that list already holds it (exact match). */
  function AddMember(ls: seq<ShoppingList>, listId: string, email: string): (r: seq<ShoppingList>)
    ensures |r| == |ls|
    ensures forall k :: 0 <= k < |ls| && ls[k].id != listId ==> r[k] == ls[k]
    ensures forall k :: 0 <= k < |ls| && ls[k].id == listId ==>
      r[k] == ls[k].(members := r[k].members) &&
      r[k].members == if email in ls[k].members then ls[k].members else ls[k].members + [email]
  {
    UpdateWhere(ls, listId,
      (l: ShoppingList) => if email in l.members then l else l.(members := l.members + [email]))
  }

  lemma AddMemberIdempotent(ls: seq<ShoppingList>, listId: string, email: string)
    ensures AddMember(AddMember(ls, listId, email), listId, email) == AddMember(ls, listId, email)
  {
    var once := AddMember(ls, listId, email);
    var twice := AddMember(once, listId, email);
    forall k | 0 <= k < |ls| ensures twice[k] == once[k] {
      if ls[k].id == listId {
        assert email in once[k].members;
      }
    }
  }

  /** After `addMember` each target list holds the email, exactly once when it did not before. */
  lemma AddMemberOnce(ls: seq<ShoppingList>, listId: string, email: string, k: int)
    requires 0 <= k < |ls| && ls[k].id == listId
    ensures email in AddMember(ls, listId, email)[k].members
    ensures email !in ls[k].members ==> multiset(AddMember(ls, listId, email)[k].members)[email] == 1
  {
  }

  // ---------------------------------------------------------------- items

  /** `addItem`: a fresh unresolved item is appended to the lists with the id; nothing else changes. The name is not checked here. */
  function AddItem(ls: seq<ShoppingList>, listId: string, itemId: string, name: string): (r: seq<ShoppingList>)
    ensures |r| == |ls|
    ensures forall k :: 0 <= k < |ls| && ls[k].id != listId ==> r[k] == ls[k]
    ensures forall k :: 0 <= k < |ls| && ls[k].id == listId ==>
      r[k] == ls[k].(items := ls[k].items + [Item(itemId, name, false)])
  {
    UpdateWhere(ls, listId,
      (l: ShoppingList) => l.(items := l.items + [Item(itemId, name, false)]))
  }

  /** With a fresh item id, the new item is the only item of the target list carrying that id. */
  lemma AddItemOnce(ls: seq<ShoppingList>, listId: string, itemId: string, name: string, k: int)
    requires 0 <= k < |ls| && ls[k].id == listId
    requires forall it :: it in ls[k].items ==> it.id != itemId
    ensures var items := AddItem(ls, listId, itemId, name)[k].items;
      forall j :: 0 <= j < |items| && items[j].id == itemId ==>
        j == |items| - 1 && items[j] == Item(itemId, name, false)
  {
    var items := AddItem(ls, listId, itemId, name)[k].items;
    assert forall j :: 0 <= j < |items| - 1 ==> items[j] == ls[k].items[j];
  }

  /** The items after `toggleItem`: the flag flips on the items with the id, everything else is kept. */
  ghost predicate Toggled(after: seq<Item>, before: seq<Item>, itemId: string)
  {
    && |after| == |before|
    && forall j :: 0 <= j < |before| ==>
         after[j] == before[j].(resolved := after[j].resolved) &&
         after[j].resolved == (before[j].resolved != (before[j].id == itemId))
  }

  function ToggleIn(items: seq<Item>, itemId: string): (r: seq<Item>)
    ensures Toggled(r, items, itemId)
  {
    Seqs.Map(items, (it: Item) => if it.id == itemId then it.(resolved := !it.resolved) else it)
  }

  /** `toggleItem`: only the matching items of the target lists flip. */
  function ToggleItem(ls: seq<ShoppingList>, listId: string, itemId: string): (r: seq<ShoppingList>)
    ensures |r| == |ls|
    ensures forall k :: 0 <= k < |ls| && ls[k].id != listId ==> r[k] == ls[k]
    ensures forall k :: 0 <= k < |ls| && ls[k].id == listId ==>
      r[k] == ls[k].(items := r[k].items) && Toggled(r[k].items, ls[k].items, itemId)
  {
    UpdateWhere(ls, listId, (l: ShoppingList) => l.(items := ToggleIn(l.items, itemId)))
  }

  lemma ToggleInTwice(items: seq<Item>, itemId: string)
    ensures ToggleIn(ToggleIn(items, itemId), itemId) == items
  {
    var r := ToggleIn(ToggleIn(items, itemId), itemId);
    assert forall j :: 0 <= j < |items| ==> r[j] == items[j];
  }

  /** Toggling the same item twice restores the store. */
  lemma ToggleItemTwice(ls: seq<ShoppingList>, listId: string, itemId: string)
    ensures ToggleItem(ToggleItem(ls, listId, itemId), listId, itemId) == ls
  {
    var once := ToggleItem(ls, listId, itemId);
    var twice := ToggleItem(once, listId, itemId);
    forall k | 0 <= k < |ls| ensures twice[k] == ls[k] {
      if ls[k].id == listId {
        ToggleInTwice(ls[k].items, itemId);
        assert twice[k].items == ls[k].items;
      }
    }
  }

  /** `deleteItem`: every item with the id leaves the target lists, the rest keep their order. */
  function DeleteItem(ls: seq<ShoppingList>, listId: string, itemId: string): (r: seq<ShoppingList>)
    ensures |r| == |ls|
    ensures forall k :: 0 <= k < |ls| && ls[k].id != listId ==> r[k] == ls[k]
    ensures forall k :: 0 <= k < |ls| && ls[k].id == listId ==>
      && r[k] == ls[k].(items := r[k].items)
      && Seqs.Filtered(r[k].items, ls[k].items, (it: Item) => it.id != itemId)
      && (forall it :: it in r[k].items ==> it.id != itemId)
  {
    var keep := (it: Item) => it.id != itemId;
    assert forall k :: 0 <= k < |ls| ==> Seqs.Filtered(Seqs.Filter(ls[k].items, keep), ls[k].items, keep) by {
      forall k | 0 <= k < |ls| {
        Seqs.FilterFiltered(ls[k].items, keep);
      }
    }
    UpdateWhere(ls, listId, (l: ShoppingList) => l.(items := Seqs.Filter(l.items, keep)))
  }

  lemma DeleteItemIdempotent(ls: seq<ShoppingList>, listId: string, itemId: string)
    ensures DeleteItem(DeleteItem(ls, listId, itemId), listId, itemId) == DeleteItem(ls, listId, itemId)
  {
    var once := DeleteItem(ls, listId, itemId);
    var twice := DeleteItem(once, listId, itemId);
    forall k | 0 <= k < |ls| ensures twice[k] == once[k] {
      if ls[k].id == listId {
        Seqs.FilterIdempotent(ls[k].items, (it: Item) => it.id != itemId);
      }
    }
  }

  // -------------------------------------------------------------- queries

  /** The position `k` holds the first list with the id. */
  predicate FirstMatchAt(ls: seq<ShoppingList>, listId: string, k: int)
  {
    0 <= k < |ls| && ls[k].id == listId && forall j :: 0 <= j < k ==> ls[j].id != listId
  }

  /** `lists.find(l => l.id === listId)`. */
  function FindList(ls: seq<ShoppingList>, listId: string): (r: Option<ShoppingList>)
    ensures r.None? <==> forall l :: l in ls ==> l.id != listId
    ensures r.Some? ==> exists k :: FirstMatchAt(ls, listId, k) && ls[k] == r.value
  {
    if ls == [] then None
    else if ls[0].id == listId then
      assert FirstMatchAt(ls, listId, 0);
      Some(ls[0])
    else
      var r := FindList(ls[1..], listId);
      assert r.Some? ==> exists k :: FirstMatchAt(ls, listId, k) && ls[k] == r.value by {
        if r.Some? {
          var k :| FirstMatchAt(ls[1..], listId, k) && ls[1..][k] == r.value;
          assert FirstMatchAt(ls, listId, k + 1);
        }
      }
      assert ls == [ls[0]] + ls[1..];
      r
  }

  /** `list.owner === currentUser`. */
  predicate IsOwner(l: ShoppingList, currentUser: string)
  {
    l.owner == currentUser
  }

  /** `list.items.filter(item => !item.resolved).length`. */
  function UnresolvedCount(items: seq<Item>): (n: nat)
    ensures n <= |items|
  {
    |Seqs.Filter(items, (it: Item) => !it.resolved)|
  }

  /** The count adds up over concatenation ... */
  lemma UnresolvedCountAppend(a: seq<Item>, b: seq<Item>)
    ensures UnresolvedCount(a + b) == UnresolvedCount(a) + UnresolvedCount(b)
  {
    Seqs.FilterAppend(a, b, (it: Item) => !it.resolved);
  }

  /** ... and is 1 for an unresolved item and 0 for a resolved one. */
  lemma UnresolvedCountSingle(it: Item)
    ensures UnresolvedCount([it]) == if it.resolved then 0 else 1
  {
    assert [it][1..] == [];
  }

  /** No item is pending exactly when all are resolved; all are pending exactly when none is. */
  lemma UnresolvedCountExtremes(items: seq<Item>)
    ensures UnresolvedCount(items) == 0 <==> forall it :: it in items ==> it.resolved
    ensures UnresolvedCount(items) == |items| <==> forall it :: it in items ==> !it.resolved
  {
    Seqs.FilterLengthFull(items, (it: Item) => !it.resolved);
    if UnresolvedCount(items) != 0 {
      var f := Seqs.Filter(items, (it: Item) => !it.resolved);
      assert f[0] in f;
    }
  }

  /** `addItem` raises the pending count of each target list by exactly one. */
  lemma AddItemCount(ls: seq<ShoppingList>, listId: string, itemId: string, name: string, k: int)
    requires 0 <= k < |ls| && ls[k].id == listId
    ensures UnresolvedCount(AddItem(ls, listId, itemId, name)[k].items) == UnresolvedCount(ls[k].items) + 1
    ensures |AddItem(ls, listId, itemId, name)[k].items| == |ls[k].items| + 1
  {
    UnresolvedCountAppend(ls[k].items, [Item(itemId, name, false)]);
    UnresolvedCountSingle(Item(itemId, name, false));
  }

  /** `deleteItem` never raises the item count or the pending count of a list. */
  lemma DeleteItemCounts(ls: seq<ShoppingList>, listId: string, itemId: string, k: int)
    requires 0 <= k < |ls|
    ensures |DeleteItem(ls, listId, itemId)[k].items| <= |ls[k].items|
    ensures UnresolvedCount(DeleteItem(ls, listId, itemId)[k].items) <= UnresolvedCount(ls[k].items)
  {
    if ls[k].id == listId {
      var keep := (it: Item) => it.id != itemId;
      var pending := (it: Item) => !it.resolved;
      Seqs.FilterCommute(ls[k].items, keep, pending);
      Seqs.SubsequenceLength(DeleteItem(ls, listId, itemId)[k].items, ls[k].items);
    }
  }
}
