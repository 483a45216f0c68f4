/**
 * The member-management page: it looks its list up, offers nothing when
 * there is none, and forwards invitations (trimmed, blank ones dropped) and
 * removals to the store.
 */
module Members {
  import Text
  import opened ListsStore
  import ListsContext

  /** The store after `handleInvite`: a blank email is dropped, any other is forwarded trimmed. */
  function Invite(ls: seq<ShoppingList>, listId: string, email: string): (r: seq<ShoppingList>)
    ensures Text.IsBlank(email) ==> r == ls
    ensures !Text.IsBlank(email) ==> r == AddMember(ls, listId, Text.Trim(email))
  {
    if Text.Trim(email) != "" then AddMember(ls, listId, Text.Trim(email)) else ls
  }

  /** Inviting the same address again, with or without surrounding whitespace, changes nothing. */
  lemma InviteTwice(ls: seq<ShoppingList>, listId: string, first: string, again: string)
    requires Text.Trim(first) == Text.Trim(again)
    ensures Invite(Invite(ls, listId, first), listId, again) == Invite(ls, listId, first)
  {
    if !Text.IsBlank(first) {
      AddMemberIdempotent(ls, listId, Text.Trim(first));
    }
  }

  /** An accepted invitation leaves the trimmed address in each target list exactly once when it was new. */
  lemma InviteOnce(ls: seq<ShoppingList>, listId: string, email: string, k: int)
    requires 0 <= k < |ls| && ls[k].id == listId && !Text.IsBlank(email)
    requires Text.Trim(email) !in ls[k].members
    ensures multiset(Invite(ls, listId, email)[k].members)[Text.Trim(email)] == 1
    ensures Text.Trim(email) != ""
  {
    AddMemberOnce(ls, listId, Text.Trim(email), k);
  }

  class MembersPage {
    const store: ListsContext.ListsProvider
    const listId: string
    var inviteEmail: string

    constructor (s: ListsContext.ListsProvider, id: string)
      ensures store == s && listId == id && inviteEmail == ""
    {
      store := s;
      listId := id;
      inviteEmail := "";
    }

    method SetInviteEmail(email: string)
      modifies this`inviteEmail
      ensures inviteEmail == email
    {
      inviteEmail := email;
    }

    /** `handleInvite`; like every handler of the page it exists only once the list is found. */
    method HandleInvite()
      requires FindList(store.lists, listId).Some?
      modifies this`inviteEmail, store`lists
      ensures store.lists == Invite(old(store.lists), listId, old(inviteEmail))
      ensures inviteEmail == if Text.IsBlank(old(inviteEmail)) then old(inviteEmail) else ""
    {
      if Text.Trim(inviteEmail) != "" {
        store.AddMember(listId, Text.Trim(inviteEmail));
        inviteEmail := "";
      }
    }

    /** `handleRemove`: a direct forward to the store. */
    method HandleRemove(memberEmail: string)
      requires FindList(store.lists, listId).Some?
      modifies store`lists
      ensures store.lists == RemoveMember(old(store.lists), listId, memberEmail)
    {
      store.RemoveMember(listId, memberEmail);
    }
  }
}
