/**
 * The standalone list-detail component, the one the router serves at
 * `/lists/:listId`.  It keeps its own copy of one list in state slots:
 * members are records with an id, a name and an email, items carry a text.
 * The handlers guard against blank input and duplicate emails and then
 * replace a slot; the role badge and the visible items are derived.
 */
module ShoppingListDetail {
  import Seqs
  import Text

  datatype Member = Member(id: string, name: string, email: string)

  datatype Item = Item(id: string, text: string, resolved: bool)

  /** `"unresolved" | "all"`. */
  datatype ItemFilter = Unresolved | AllItems

  /** What the add-member handler did: nothing (blank input), the duplicate alert, or an append. */
  datatype AddMemberOutcome = Ignored | Duplicate | Added

  /** `members.some(member => member.id === id)`. */
  predicate HasMemberId(members: seq<Member>, id: string)
  {
    exists m :: m in members && m.id == id
  }

  /** `members.some(member => member.email === email)`. */
  predicate HasEmail(members: seq<Member>, email: string)
  {
    exists m :: m in members && m.email == email
  }

  /** `isMember`: listed among the members, and not the owner. */
  function IsMember(members: seq<Member>, currentUserId: string, isOwner: bool): (r: bool)
    ensures r ==> !isOwner
    ensures r <==> !isOwner && exists k :: 0 <= k < |members| && members[k].id == currentUserId
  {
    HasMemberId(members, currentUserId) && !isOwner
  }

  /** `visibleItems`: the pending items in order under "unresolved", every item under "all". */
  function VisibleItems(items: seq<Item>, filter: ItemFilter): (r: seq<Item>)
    ensures filter == AllItems ==> r == items
    ensures filter == Unresolved ==>
      Seqs.Filtered(r, items, (it: Item) => !it.resolved) && forall it :: it in r ==> !it.resolved
  {
    Seqs.FilterFiltered(items, (it: Item) => !it.resolved);
    if filter == Unresolved then Seqs.Filter(items, (it: Item) => !it.resolved) else items
  }

  /** `getRoleBadge`: having left wins, then owner, then member, otherwise guest. */
  function RoleBadge(hasLeft: bool, isOwner: bool, isMember: bool): (badge: string)
    ensures badge == "Guest" <==> hasLeft || (!isOwner && !isMember)
    ensures badge == "Owner" <==> !hasLeft && isOwner
    ensures badge == "Member" <==> !hasLeft && !isOwner && isMember
  {
    if hasLeft then "Guest"
    else if isOwner then "Owner"
    else if isMember then "Member"
    else "Guest"
  }

  /** Which branch `handleAddMember` takes for the typed email. */
  function AddMemberCheck(members: seq<Member>, email: string): (outcome: AddMemberOutcome)
    ensures outcome == Ignored <==> Text.IsBlank(email)
    ensures outcome == Duplicate <==> !Text.IsBlank(email) && exists k :: 0 <= k < |members| && members[k].email == email
  {
    if Text.Trim(email) == "" then Ignored
    else if HasEmail(members, email) then Duplicate
    else Added
  }

  /** The members after `handleAddMember`: one new record for an accepted email, named by the part before '@'. */
  function MembersAfterAdd(members: seq<Member>, email: string, newId: string): (r: seq<Member>)
    ensures AddMemberCheck(members, email) != Added ==> r == members
    ensures AddMemberCheck(members, email) == Added ==>
      |r| == |members| + 1 && r[..|members|] == members &&
      r[|members|].id == newId && r[|members|].email == email &&
      r[|members|].name <= email && '@' !in r[|members|].name &&
      (|r[|members|].name| < |email| ==> email[|r[|members|].name|] == '@')
  {
    if AddMemberCheck(members, email) == Added then members + [Member(newId, Text.BeforeAt(email), email)]
    else members
  }

  /** `members.filter(member => member.id !== memberId)`. */
  function MembersWithout(members: seq<Member>, memberId: string): (r: seq<Member>)
    ensures Seqs.Filtered(r, members, (m: Member) => m.id != memberId)
    ensures !HasMemberId(r, memberId)
  {
    Seqs.FilterFiltered(members, (m: Member) => m.id != memberId);
    Seqs.Filter(members, (m: Member) => m.id != memberId)
  }

  /** The items after `handleAddItem`: blank text is ignored, otherwise one pending item with the trimmed text. */
  function ItemsAfterAdd(items: seq<Item>, text: string, newId: string): (r: seq<Item>)
    ensures Text.IsBlank(text) ==> r == items
    ensures !Text.IsBlank(text) ==>
      |r| == |items| + 1 && r[..|items|] == items &&
      r[|items|].id == newId && r[|items|].text == Text.Trim(text) && !r[|items|].resolved &&
      r[|items|].text != ""
  {
    var trimmed := Text.Trim(text);
    if trimmed == "" then items else items + [Item(newId, trimmed, false)]
  }

  /** `items.filter(item => item.id !== itemId)`. */
  function ItemsWithout(items: seq<Item>, itemId: string): (r: seq<Item>)
    ensures Seqs.Filtered(r, items, (it: Item) => it.id != itemId)
    ensures forall it :: it in r ==> it.id != itemId
  {
    Seqs.FilterFiltered(items, (it: Item) => it.id != itemId);
    Seqs.Filter(items, (it: Item) => it.id != itemId)
  }

  /** `items.map(...)` in `handleToggleResolved`: only the items with the id flip. */
  function ItemsToggled(items: seq<Item>, itemId: string): (r: seq<Item>)
    ensures |r| == |items|
    ensures forall j :: 0 <= j < |items| ==>
      r[j] == items[j].(resolved := r[j].resolved) &&
      r[j].resolved == (items[j].resolved != (items[j].id == itemId))
  {
    Seqs.Map(items, (it: Item) => if it.id == itemId then it.(resolved := !it.resolved) else it)
  }

  lemma ItemsToggledTwice(items: seq<Item>, itemId: string)
    ensures ItemsToggled(ItemsToggled(items, itemId), itemId) == items
  {
    var r := ItemsToggled(ItemsToggled(items, itemId), itemId);
    assert forall j :: 0 <= j < |items| ==> r[j] == items[j];
  }

  /** An email that is already taken cannot be added a second time. */
  lemma AddMemberTwice(members: seq<Member>, email: string, id1: string, id2: string)
    ensures var once := MembersAfterAdd(members, email, id1);
      MembersAfterAdd(once, email, id2) == once
  {
    var once := MembersAfterAdd(members, email, id1);
    if AddMemberCheck(members, email) == Added {
      assert once[|members|] in once;
    }
  }

  class DetailPage {
    const currentUserId: string
    const ownerId: string
    var listName: string
    var members: seq<Member>
    var items: seq<Item>
    var itemFilter: ItemFilter
    var newMemberEmail: string
    var newItemText: string
    var hasLeft: bool

    /** The component's first render: seeded list, pending items shown, empty inputs, not left. */
    constructor (userId: string, owner: string, name: string, initialMembers: seq<Member>, initialItems: seq<Item>)
      ensures currentUserId == userId && ownerId == owner
      ensures listName == name && members == initialMembers && items == initialItems
      ensures itemFilter == Unresolved && newMemberEmail == "" && newItemText == "" && !hasLeft
    {
      currentUserId := userId;
      ownerId := owner;
      listName := name;
      members := initialMembers;
      items := initialItems;
      itemFilter := Unresolved;
      newMemberEmail := "";
      newItemText := "";
      hasLeft := false;
    }

    predicate IsOwner()
    {
      currentUserId == ownerId
    }

    /** With the source's constants (user and owner both "u1") the badge reads "Owner" until the user leaves. */
    lemma SourceConstantsGiveOwner()
      requires currentUserId == "u1" && ownerId == "u1"
      ensures Badge() == if hasLeft then "Guest" else "Owner"
      ensures !IsMember(members, currentUserId, IsOwner())
    {
    }

    function Badge(): (badge: string)
      reads this
      ensures hasLeft ==> badge == "Guest"
    {
      RoleBadge(hasLeft, IsOwner(), IsMember(members, currentUserId, IsOwner()))
    }

    function Visible(): (r: seq<Item>)
      reads this
      ensures itemFilter == AllItems ==> r == items
      ensures forall it :: it in r ==> it in items
    {
      VisibleItems(items, itemFilter)
    }

    /** The name input; the page draws it disabled for anyone but the owner. */
    method SetListName(name: string)
      modifies this`listName
      ensures listName == name
    {
      listName := name;
    }

    method SetItemFilter(filter: ItemFilter)
      modifies this`itemFilter
      ensures itemFilter == filter
    {
      itemFilter := filter;
    }

    method SetNewMemberEmail(email: string)
      modifies this`newMemberEmail
      ensures newMemberEmail == email
    {
      newMemberEmail := email;
    }

    method SetNewItemText(text: string)
      modifies this`newItemText
      ensures newItemText == text
    {
      newItemText := text;
    }

    /** `handleAddMember`; the duplicate branch is where the source shows its alert. The input is cleared only on success. */
    method HandleAddMember(newId: string) returns (outcome: AddMemberOutcome)
      modifies this`members, this`newMemberEmail
      ensures outcome == AddMemberCheck(old(members), old(newMemberEmail))
      ensures members == MembersAfterAdd(old(members), old(newMemberEmail), newId)
      ensures newMemberEmail == if outcome == Added then "" else old(newMemberEmail)
    {
      var email := newMemberEmail;
      outcome := AddMemberCheck(members, email);
      members := MembersAfterAdd(members, email, newId);
      if outcome == Added {
        newMemberEmail := "";
      }
    }

    method HandleRemoveMember(memberId: string)
      modifies this`members
      ensures members == MembersWithout(old(members), memberId)
    {
      members := MembersWithout(members, memberId);
    }

    /** `handleLeaveList`: the user's record goes and the page remembers that the user left. */
    method HandleLeaveList()
      modifies this`members, this`hasLeft
      ensures members == MembersWithout(old(members), currentUserId)
      ensures !HasMemberId(members, currentUserId) && hasLeft
    {
      members := MembersWithout(members, currentUserId);
      hasLeft := true;
    }

    /** `handleAddItem`: nothing for blank text; otherwise the trimmed item is appended and the input cleared. */
    method HandleAddItem(newId: string)
      modifies this`items, this`newItemText
      ensures items == ItemsAfterAdd(old(items), old(newItemText), newId)
      ensures newItemText == if Text.IsBlank(old(newItemText)) then old(newItemText) else ""
    {
      var trimmedText := Text.Trim(newItemText);
      if trimmedText == "" {
        return;
      }
      items := items + [Item(newId, trimmedText, false)];
      newItemText := "";
    }

    method HandleRemoveItem(itemId: string)
      modifies this`items
      ensures items == ItemsWithout(old(items), itemId)
    {
      items := ItemsWithout(items, itemId);
    }

    method HandleToggleResolved(itemId: string)
      modifies this`items
      ensures items == ItemsToggled(old(items), itemId)
    {
      items := ItemsToggled(items, itemId);
    }
  }
}
