/**
 * The new-list form: a name and a column of email rows that never drops
 * below one row.  Submitting hands the store a list owned by the current
 * user, without items, whose members are the rows that are not blank.
 */
module NewList {
  import Seqs
  import Text
  import opened ListsStore
  import ListsContext

  /** `memberEmails.filter(email => email.trim() !== '')`: the non-blank rows, in order and untrimmed. */
  function ValidEmails(rows: seq<string>): (r: seq<string>)
    ensures Seqs.Filtered(r, rows, (e: string) => Text.Trim(e) != "")
    ensures forall e :: e in r ==> !Text.IsBlank(e)
    ensures forall e :: e in rows && !Text.IsBlank(e) ==> e in r
  {
    Seqs.FilterFiltered(rows, (e: string) => Text.Trim(e) != "");
    Seqs.Filter(rows, (e: string) => Text.Trim(e) != "")
  }

  /** What `handleSubmit` passes to `addList`. */
  function SubmittedDraft(listName: string, rows: seq<string>, currentUser: string): (d: ListDraft)
    ensures d.name == listName && d.owner == currentUser && d.items == []
    ensures d.members == ValidEmails(rows)
  {
    ListDraft(listName, currentUser, ValidEmails(rows), [])
  }

  /** An address typed into several rows is submitted as many times as it was typed. */
  lemma ValidEmailsKeepsCopies(rows: seq<string>, email: string)
    requires !Text.IsBlank(email)
    ensures multiset(ValidEmails(rows))[email] == multiset(rows)[email]
  {
    if email in rows {
      var k :| 0 <= k < |rows| && rows[k] == email;
    }
  }

  /** `removeMemberInput`: row `index` goes only when more than one row is left; the others keep their order. */
  function RemoveRow(rows: seq<string>, index: int): (r: seq<string>)
    ensures |rows| <= 1 ==> r == rows
    ensures |rows| > 1 && 0 <= index < |rows| ==> r == rows[..index] + rows[index + 1..]
    ensures !(0 <= index < |rows|) ==> r == rows
    ensures |rows| >= 1 ==> |r| >= 1
  {
    if |rows| > 1 && 0 <= index < |rows| then rows[..index] + rows[index + 1..] else rows
  }

  /** `updated[index] = value` on a copy: only row `index` changes. */
  function SetRow(rows: seq<string>, index: nat, value: string): (r: seq<string>)
    requires index < |rows|
    ensures |r| == |rows| && r[index] == value
    ensures forall j :: 0 <= j < |rows| && j != index ==> r[j] == rows[j]
  {
    rows[index := value]
  }

  /** A submitted list: appended last, owned by the submitter, no items, not archived, members the non-blank rows. */
  lemma SubmitCreatesList(ls: seq<ShoppingList>, listName: string, rows: seq<string>, currentUser: string, newId: string)
    ensures var r := AddList(ls, SubmittedDraft(listName, rows, currentUser), newId);
      r[..|ls|] == ls && r[|ls|].owner == currentUser && r[|ls|].items == [] && !r[|ls|].archived &&
      r[|ls|].name == listName && r[|ls|].members == ValidEmails(rows) &&
      forall m :: m in r[|ls|].members ==> !Text.IsBlank(m)
  {
    var r := AddList(ls, SubmittedDraft(listName, rows, currentUser), newId);
    assert DraftOf(r[|ls|]) == SubmittedDraft(listName, rows, currentUser);
  }

  class NewListForm {
    const store: ListsContext.ListsProvider
    var listName: string
    var memberEmails: seq<string>

    /** The form always has at least one email row. */
    ghost predicate Valid()
      reads this
    {
      |memberEmails| >= 1
    }

    constructor (s: ListsContext.ListsProvider)
      ensures Valid() && store == s && listName == "" && memberEmails == [""]
    {
      store := s;
      listName := "";
      memberEmails := [""];
    }

    method SetListName(name: string)
      modifies this`listName
      ensures listName == name
    {
      listName := name;
    }

    /** `addMemberInput`: one more empty row at the end. */
    method AddMemberInput()
      requires Valid()
      modifies this`memberEmails
      ensures Valid() && memberEmails == old(memberEmails) + [""]
    {
      memberEmails := memberEmails + [""];
    }

    method RemoveMemberInput(index: int)
      requires Valid()
      modifies this`memberEmails
      ensures Valid() && memberEmails == RemoveRow(old(memberEmails), index)
    {
      if |memberEmails| > 1 && 0 <= index < |memberEmails| {
        memberEmails := memberEmails[..index] + memberEmails[index + 1..];
      }
    }

    /** The handler is bound to a rendered row, so its index is in range. */
    method UpdateMemberEmail(index: nat, value: string)
      requires Valid() && index < |memberEmails|
      modifies this`memberEmails
      ensures Valid() && memberEmails == SetRow(old(memberEmails), index, value)
    {
      var updated := memberEmails;
      updated := updated[index := value];
      memberEmails := updated;
    }

    /** `handleSubmit`: the store gains the list built from the form. */
    method HandleSubmit(newId: string)
      modifies store`lists
      ensures store.lists == AddList(old(store.lists), SubmittedDraft(listName, memberEmails, store.currentUser), newId)
    {
      var validEmails := ValidEmails(memberEmails);
      store.AddList(ListDraft(listName, store.currentUser, validEmails, []), newId);
    }
  }
}
