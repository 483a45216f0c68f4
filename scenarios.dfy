/**
 * Concrete runs over the provider's seeded lists, written as lemmas.
 */
module Scenarios {
  import Text
  import Seqs
  import opened ListsStore
  import ListsOverview
  import ShoppingListDetail

  const John := "john@example.com"
  const Jane := "jane@example.com"

  function Groceries(): ShoppingList
  {
    ShoppingList("1", "Weekly Groceries", John, [Jane],
      [Item("1", "Milk", false), Item("2", "Bread", true), Item("3", "Eggs", false)], false)
  }

  function Party(): ShoppingList
  {
    ShoppingList("2", "Party Supplies", Jane, [John, "bob@example.com"],
      [Item("1", "Balloons", false), Item("2", "Cake", false)], false)
  }

  function Office(): ShoppingList
  {
    ShoppingList("3", "Office Supplies", John, [],
      [Item("1", "Pens", true), Item("2", "Paper", true), Item("3", "Stapler", true)], true)
  }

  /** The three lists the provider starts with. */
  function SeedLists(): seq<ShoppingList>
  {
    [Groceries(), Party(), Office()]
  }

  /** A filter over three elements, element by element. */
  lemma FilterThree<T>(a: T, b: T, c: T, keep: T -> bool)
    ensures Seqs.Filter([a, b, c], keep) ==
      (if keep(a) then [a] else []) + (if keep(b) then [b] else []) + (if keep(c) then [c] else [])
  {
    assert [a, b, c] == [a] + [b] + [c];
    Seqs.FilterAppend([a] + [b], [c], keep);
    Seqs.FilterAppend([a], [b], keep);
    FilterOne(a, keep);
    FilterOne(b, keep);
    FilterOne(c, keep);
  }

  lemma FilterOne<T>(a: T, keep: T -> bool)
    ensures Seqs.Filter([a], keep) == if keep(a) then [a] else []
  {
    assert [a][1..] == [];
  }

  /** Toggling "Milk" resolves it; "Eggs" is still pending, and the other lists are untouched. */
  lemma ToggleMilk()
    ensures var r := ToggleItem(SeedLists(), "1", "1");
      r[0].items == [Item("1", "Milk", true), Item("2", "Bread", true), Item("3", "Eggs", false)] &&
      UnresolvedCount(r[0].items) == 1 && r[1] == Party() && r[2] == Office()
  {
    var r := ToggleItem(SeedLists(), "1", "1");
    var before := Groceries().items;
    var after := r[0].items;
    assert Toggled(after, before, "1");
    assert after[0] == Item("1", "Milk", true);
    assert after[1] == before[1] && after[2] == before[2];
    assert after == [Item("1", "Milk", true), Item("2", "Bread", true), Item("3", "Eggs", false)];
    FilterThree(after[0], after[1], after[2], (it: Item) => !it.resolved);
  }

  /**
   * John's overview of the seeded lists with archived lists hidden: his own list under 'all' and 'mine',
   * the one Jane shares with him under 'all' and 'shared', the archived one never.
   */
  lemma SeedOverview(filter: OwnerFilter)
    ensures ListsOverview.FilteredLists(SeedLists(), "", filter, false, John) ==
      (if filter != Shared then [Groceries()] else []) + (if filter != Mine then [Party()] else [])
  {
    var p := (l: ShoppingList) => ListsOverview.Shown(l, "", filter, false, John);
    assert Jane != John by {
      assert Jane[1] != John[1];
    }
    ShownWithoutSearch(Groceries(), filter, John);
    ShownWithoutSearch(Party(), filter, John);
    ShownWithoutSearch(Office(), filter, John);
    FilterThree(Groceries(), Party(), Office(), p);
  }

  /** With no search term only the ownership filter and the archived flag decide. */
  lemma ShownWithoutSearch(l: ShoppingList, filter: OwnerFilter, user: string)
    ensures ListsOverview.Shown(l, "", filter, false, user) <==>
      ListsOverview.MatchesOwner(l, filter, user) && !l.archived
  {
  }

  /** A new "Snacks" list is stored unarchived and empty, and the default overview shows it. */
  lemma CreateSnacks(newId: string)
    ensures var r := AddList(SeedLists(), ListDraft("Snacks", John, [], []), newId);
      r[3].name == "Snacks" && r[3].id == newId && r[3].items == [] && !r[3].archived &&
      r[3] in ListsOverview.FilteredLists(r, "", ListsStore.All, false, John)
  {
    var r := AddList(SeedLists(), ListDraft("Snacks", John, [], []), newId);
    assert ListsOverview.Shown(r[3], "", ListsStore.All, false, John);
  }

  /** The standalone page compares emails untrimmed: a padded copy of a member's email is accepted as new. */
  lemma PaddedEmailIsNotDuplicate()
    ensures var members := [ShoppingListDetail.Member("u2", "Bob Smith", "bob@example.com")];
      ShoppingListDetail.AddMemberCheck(members, " bob@example.com") == ShoppingListDetail.Added
  {
    var members := [ShoppingListDetail.Member("u2", "Bob Smith", "bob@example.com")];
    assert !Text.IsSpace(" bob@example.com"[1]);
    assert members[0].email != " bob@example.com";
  }
}
