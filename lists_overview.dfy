/**
 * The overview page: which lists it shows (search term, ownership filter,
 * archived toggle, all three required) and what each card says about a list.
 */
module ListsOverview {
  import Seqs
  import Text
  import opened ListsStore

  /** An empty term matches everything; otherwise a case-insensitive substring test. */
  predicate MatchesSearch(name: string, term: string)
  {
    term == "" || Text.Contains(Text.ToLower(name), Text.ToLower(term))
  }

  predicate MatchesOwner(l: ShoppingList, filter: OwnerFilter, currentUser: string)
  {
    match filter
    case All => true
    case Mine => l.owner == currentUser
    case Shared => l.owner != currentUser && currentUser in l.members
  }

  predicate MatchesArchived(l: ShoppingList, showArchived: bool)
  {
    showArchived || !l.archived
  }

  predicate Shown(l: ShoppingList, term: string, filter: OwnerFilter, showArchived: bool, currentUser: string)
  {
    MatchesSearch(l.name, term) && MatchesOwner(l, filter, currentUser) && MatchesArchived(l, showArchived)
  }

  /** `filteredLists`: the lists passing all three tests, in store order. */
  function FilteredLists(ls: seq<ShoppingList>, term: string, filter: OwnerFilter, showArchived: bool, currentUser: string)
    : (r: seq<ShoppingList>)
    ensures Seqs.Filtered(r, ls, (l: ShoppingList) => Shown(l, term, filter, showArchived, currentUser))
    ensures forall l :: l in r ==> Shown(l, term, filter, showArchived, currentUser)
  {
    Seqs.FilterFiltered(ls, (l: ShoppingList) => Shown(l, term, filter, showArchived, currentUser));
    Seqs.Filter(ls, (l: ShoppingList) => Shown(l, term, filter, showArchived, currentUser))
  }

  /** A non-empty term matches exactly the names in which the lowered term occurs in the lowered name at some position. */
  lemma SearchIsSubstring(name: string, term: string)
    requires term != ""
    ensures MatchesSearch(name, term) <==> exists i :: Text.OccursAt(Text.ToLower(name), Text.ToLower(term), i)
  {
    Text.ContainsIffOccurs(Text.ToLower(name), Text.ToLower(term));
  }

  /** The search ignores the case of both the name and the term. */
  lemma SearchIgnoresCase(name: string, term: string)
    ensures MatchesSearch(name, term) == MatchesSearch(Text.ToLower(name), Text.ToLower(term))
  {
    Text.ToLowerIdempotent(name);
    Text.ToLowerIdempotent(term);
  }

  /** Under 'mine' every shown list is owned by the user; under 'shared' none is, and the user is a member of each. */
  lemma OwnerFilterSound(ls: seq<ShoppingList>, term: string, showArchived: bool, currentUser: string)
    ensures forall l :: l in FilteredLists(ls, term, Mine, showArchived, currentUser) ==> l.owner == currentUser
    ensures forall l :: l in FilteredLists(ls, term, Shared, showArchived, currentUser) ==>
      l.owner != currentUser && currentUser in l.members
  {
  }

  /** For the same inputs the 'mine' and 'shared' results have no list in common. */
  lemma MineSharedDisjoint(ls: seq<ShoppingList>, term: string, showArchived: bool, currentUser: string, l: ShoppingList)
    requires l in FilteredLists(ls, term, Mine, showArchived, currentUser)
    ensures l !in FilteredLists(ls, term, Shared, showArchived, currentUser)
  {
  }

  /** 'all' leaves the result to the other two tests. */
  lemma AllImposesNothing(ls: seq<ShoppingList>, term: string, showArchived: bool, currentUser: string, l: ShoppingList)
    requires l in ls && MatchesSearch(l.name, term) && MatchesArchived(l, showArchived)
    ensures l in FilteredLists(ls, term, All, showArchived, currentUser)
  {
  }

  /** With the toggle off no archived list is shown. */
  lemma ArchivedHidden(ls: seq<ShoppingList>, term: string, filter: OwnerFilter, currentUser: string)
    ensures forall l :: l in FilteredLists(ls, term, filter, false, currentUser) ==> !l.archived
  {
  }

  /** With the toggle on, 'all' and no search term, every list is shown in store order. */
  lemma NoFilterShowsEverything(ls: seq<ShoppingList>, currentUser: string)
    ensures FilteredLists(ls, "", All, true, currentUser) == ls
  {
    Seqs.FilterKeepsAll(ls, (l: ShoppingList) => Shown(l, "", All, true, currentUser));
  }

  /** A list the user has just created is the last list the default and the 'mine' views show. */
  lemma NewListShown(ls: seq<ShoppingList>, draft: ListDraft, newId: string, currentUser: string, filter: OwnerFilter)
    requires draft.owner == currentUser && filter != Shared
    ensures var r := AddList(ls, draft, newId);
      var shown := FilteredLists(r, "", filter, false, currentUser);
      shown == FilteredLists(ls, "", filter, false, currentUser) + [r[|ls|]]
  {
    var r := AddList(ls, draft, newId);
    var p := (l: ShoppingList) => Shown(l, "", filter, false, currentUser);
    assert r == ls + [r[|ls|]];
    Seqs.FilterAppend(ls, [r[|ls|]], p);
    assert [r[|ls|]][1..] == [];
  }

  /** The card's pending and total counts: pending never exceeds total. */
  lemma CardCounts(l: ShoppingList)
    ensures 0 <= UnresolvedCount(l.items) <= |l.items|
    ensures UnresolvedCount(l.items) == |l.items| - |Seqs.Filter(l.items, (it: Item) => it.resolved)|
  {
    CountsSplit(l.items);
  }

  /** Every item is either pending or resolved. */
  lemma {:induction false} CountsSplit(items: seq<Item>)
    ensures UnresolvedCount(items) + |Seqs.Filter(items, (it: Item) => it.resolved)| == |items|
  {
    if items != [] {
      CountsSplit(items[1..]);
    }
  }

  /** The card's role line. */
  function CardRole(l: ShoppingList, currentUser: string): (role: string)
    ensures role == "Owner" <==> IsOwner(l, currentUser)
    ensures role == "Owner" || role == "Member"
  {
    if IsOwner(l, currentUser) then "Owner" else "Member"
  }

  /** The plural ending after "member": "s" unless there is exactly one member. */
  function MemberSuffix(l: ShoppingList): (suffix: string)
    ensures suffix == "s" <==> |l.members| != 1
    ensures suffix == "" <==> |l.members| == 1
  {
    if |l.members| != 1 then "s" else ""
  }
}
