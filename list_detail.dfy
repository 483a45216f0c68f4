/**
 * The store-backed list-detail page: the list it looks up, the member
 * roster and its badge row, the actions its menu offers, and the guarded
 * hand-off of a new item to the store.
 */
module ListDetail {
  import opened Wrappers
  import Text
  import opened ListsStore
  import ListsContext

  /** `allMembers`: the owner first, then the members, for display only. */
  function AllMembers(l: ShoppingList): (r: seq<string>)
    ensures |r| == |l.members| + 1
    ensures r[0] == l.owner && r[1..] == l.members
  {
    [l.owner] + l.members
  }

  /** `allMembers.slice(0, 3)`: the badges that are drawn. */
  function ShownBadges(all: seq<string>): (r: seq<string>)
    ensures |r| <= 3 && r <= all
    ensures |r| == if |all| < 3 then |all| else 3
  {
    if |all| <= 3 then all else all[..3]
  }

  /** The "+N more" badge: present when the list has more than two members, N being the hidden rest. */
  function MoreBadge(l: ShoppingList): (more: Option<nat>)
    ensures more.Some? <==> |l.members| > 2
    ensures more.Some? ==> more.value == |l.members| - 2
  {
    if |l.members| > 2 then Some(|l.members| - 2) else None
  }

  /** The drawn badges and the "+N" account for the whole roster, and "+N" appears exactly when some are hidden. */
  lemma BadgesAccountForRoster(l: ShoppingList)
    ensures var all := AllMembers(l);
      |ShownBadges(all)| + (if MoreBadge(l).Some? then MoreBadge(l).value else 0) == |all|
    ensures MoreBadge(l).Some? <==> |ShownBadges(AllMembers(l))| < |AllMembers(l)|
  {
  }

  datatype MenuAction = ManageMembers | Archive(unarchive: bool) | Delete | Leave

  /** The menu: always member management; archive (or unarchive) and delete for the owner, leave for anyone else. */
  function MenuActions(l: ShoppingList, currentUser: string): (r: seq<MenuAction>)
    ensures ManageMembers in r
    ensures Delete in r <==> IsOwner(l, currentUser)
    ensures Archive(l.archived) in r <==> IsOwner(l, currentUser)
    ensures Leave in r <==> !IsOwner(l, currentUser)
  {
    [ManageMembers] + (if IsOwner(l, currentUser) then [Archive(l.archived), Delete] else [Leave])
  }

  /** Exactly one of the owner's actions and the leave action is offered. */
  lemma MenuExclusive(l: ShoppingList, currentUser: string)
    ensures (Delete in MenuActions(l, currentUser)) != (Leave in MenuActions(l, currentUser))
    ensures forall a :: a in MenuActions(l, currentUser) && a.Archive? ==> a.unarchive == l.archived
  {
  }

  /** The store after `handleAddItem`: blank input is not forwarded, anything else is forwarded trimmed. */
  function PageAddItem(ls: seq<ShoppingList>, listId: string, itemId: string, input: string): (r: seq<ShoppingList>)
    ensures Text.IsBlank(input) ==> r == ls
    ensures !Text.IsBlank(input) ==> r == AddItem(ls, listId, itemId, Text.Trim(input))
  {
    if Text.Trim(input) != "" then AddItem(ls, listId, itemId, Text.Trim(input)) else ls
  }

  /** Every item of every list has a name that is not blank. */
  ghost predicate NoBlankItems(ls: seq<ShoppingList>)
  {
    forall l, it :: l in ls && it in l.items ==> !Text.IsBlank(it.name)
  }

  /** Adding items through this page never creates an item with a blank name. */
  lemma PageAddKeepsNamesNonBlank(ls: seq<ShoppingList>, listId: string, itemId: string, input: string)
    requires NoBlankItems(ls)
    ensures NoBlankItems(PageAddItem(ls, listId, itemId, input))
  {
    if !Text.IsBlank(input) {
      var name := Text.Trim(input);
      Text.TrimIdempotent(input);
      assert !Text.IsBlank(name);
      var r := AddItem(ls, listId, itemId, name);
      forall l, it | l in r && it in l.items ensures !Text.IsBlank(it.name) {
        var k :| 0 <= k < |r| && r[k] == l;
        if ls[k].id == listId && it !in ls[k].items {
          assert it == Item(itemId, name, false);
        }
      }
    }
  }

  class ListDetailPage {
    const store: ListsContext.ListsProvider
    const listId: string
    var newItemInput: string

    constructor (s: ListsContext.ListsProvider, id: string)
      ensures store == s && listId == id && newItemInput == ""
    {
      store := s;
      listId := id;
      newItemInput := "";
    }

    method SetNewItemInput(input: string)
      modifies this`newItemInput
      ensures newItemInput == input
    {
      newItemInput := input;
    }

    /** `handleAddItem`; it exists only once the page has found its list. */
    method HandleAddItem(newItemId: string)
      requires FindList(store.lists, listId).Some?
      modifies this`newItemInput, store`lists
      ensures store.lists == PageAddItem(old(store.lists), listId, newItemId, old(newItemInput))
      ensures newItemInput == if Text.IsBlank(old(newItemInput)) then old(newItemInput) else ""
    {
      if Text.Trim(newItemInput) != "" {
        store.AddItem(listId, Text.Trim(newItemInput), newItemId);
        newItemInput := "";
      }
    }
  }
}
