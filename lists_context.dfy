/**
 * The provider's state slots and the mutators it exposes.  `lists` is the
 * one `useState` slot the mutators replace, each time with the
 * transformation of the same name in `ListsStore`; `currentUser` is fixed
 * for the session; the three query slots are set by the overview page.
 * Ids that the source draws from `Date.now()` are parameters here.
 */
module ListsContext {
  import opened ListsStore

  class ListsProvider {
    var lists: seq<ShoppingList>
    const currentUser: string
    var searchTerm: string
    var filterOwner: OwnerFilter
    var showArchived: bool

    /** The initial store: the seed lists, no search, every owner, archived lists hidden. */
    constructor (initialLists: seq<ShoppingList>, user: string)
      ensures lists == initialLists && currentUser == user
      ensures searchTerm == "" && filterOwner == All && !showArchived
    {
      lists := initialLists;
      currentUser := user;
      searchTerm := "";
      filterOwner := All;
      showArchived := false;
    }

    method SetSearchTerm(term: string)
      modifies this`searchTerm
      ensures searchTerm == term
    {
      searchTerm := term;
    }

    method SetFilterOwner(filter: OwnerFilter)
      modifies this`filterOwner
      ensures filterOwner == filter
    {
      filterOwner := filter;
    }

    method SetShowArchived(show: bool)
      modifies this`showArchived
      ensures showArchived == show
    {
      showArchived := show;
    }

    method AddList(draft: ListDraft, newId: string)
      modifies this`lists
      ensures lists == ListsStore.AddList(old(lists), draft, newId)
    {
      lists := ListsStore.AddList(lists, draft, newId);
    }

    method DeleteList(listId: string)
      modifies this`lists
      ensures lists == ListsStore.DeleteList(old(lists), listId)
    {
      lists := ListsStore.DeleteList(lists, listId);
    }

    method ArchiveList(listId: string)
      modifies this`lists
      ensures lists == ListsStore.ArchiveList(old(lists), listId)
    {
      lists := ListsStore.ArchiveList(lists, listId);
    }

    method LeaveList(listId: string)
      modifies this`lists
      ensures lists == ListsStore.LeaveList(old(lists), listId, currentUser)
    {
      lists := ListsStore.LeaveList(lists, listId, currentUser);
    }

    method AddItem(listId: string, itemName: string, newItemId: string)
      modifies this`lists
      ensures lists == ListsStore.AddItem(old(lists), listId, newItemId, itemName)
    {
      lists := ListsStore.AddItem(lists, listId, newItemId, itemName);
    }

    method ToggleItem(listId: string, itemId: string)
      modifies this`lists
      ensures lists == ListsStore.ToggleItem(old(lists), listId, itemId)
    {
      lists := ListsStore.ToggleItem(lists, listId, itemId);
    }

    method DeleteItem(listId: string, itemId: string)
      modifies this`lists
      ensures lists == ListsStore.DeleteItem(old(lists), listId, itemId)
    {
      lists := ListsStore.DeleteItem(lists, listId, itemId);
    }

    method AddMember(listId: string, memberEmail: string)
      modifies this`lists
      ensures lists == ListsStore.AddMember(old(lists), listId, memberEmail)
    {
      lists := ListsStore.AddMember(lists, listId, memberEmail);
    }

    method RemoveMember(listId: string, memberEmail: string)
      modifies this`lists
      ensures lists == ListsStore.RemoveMember(old(lists), listId, memberEmail)
    {
      lists := ListsStore.RemoveMember(lists, listId, memberEmail);
    }
  }
}
