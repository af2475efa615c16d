/**
 * Client-side runs of the controller: sequences of actions against a fresh
 * database, proved from the actions' contracts alone.
 */
module Scenarios {
  import opened Wrappers
  import opened EntryModel
  import opened TagModel
  import opened Schema
  import opened EntriesController

  /** Two signed-in users. */
  const U1: UserId := "u1"
  const U2: UserId := "u2"

  /** A list that holds only x, and each of its elements once, is [x]. */
  lemma OnlyElement(s: seq<Entry>, x: Entry)
    requires forall e :: e in s <==> e == x
    requires forall e :: e in multiset(s) ==> multiset(s)[e] == 1
    ensures s == [x]
  {
    assert x in s;
    assert multiset(s) == multiset{x} by {
      forall e ensures multiset(s)[e] == multiset{x}[e] {
        assert e in s <==> e in multiset(s);
      }
    }
    assert |s| == |multiset(s)| == 1;
    assert s[0] in s;
  }

  /** What the selections used below pick out of the seeded catalog. */
  lemma SeedSelections(store: EntryStore)
    requires store.catalog == SeedCatalog()
    ensures store.SelectedTagIds(Some([1])) == {1}
    ensures store.SelectedTagIds(Some([2])) == {2}
    ensures store.SelectedTagIds(Some([3])) == {3}
    ensures store.SelectedTagIds(Some([1, 2])) == {1, 2}
    ensures store.SelectedTagIds(Some([1, 9999])) == {1}
  {
  }

  /** Against the seeded catalog, a selection keeps exactly the seeded ids it names. */
  lemma SeedSelection(store: EntryStore, selection: Option<seq<int>>)
    requires store.catalog == SeedCatalog()
    ensures store.SelectedTagIds(selection) == set k | k in SeedCatalog() && selection.Some? && k in selection.value
    ensures selection == None || selection == Some([]) ==> store.SelectedTagIds(selection) == {}
  {
  }

  /** With the Groceries row alone in the table, U1's Index lists it and U2's lists nothing. */
  lemma GroceriesListed(store: EntryStore, groceries: Entry)
    requires store.Valid()
    requires groceries == Entry(1, "Groceries", "milk, eggs", 100, "u1", {1})
    requires store.entries == map[1 := groceries]
    ensures store.Index(Some(U1)).outcome.page.entries == [groceries]
    ensures store.Index(Some(U2)).outcome.page.entries == []
  {
    assert store.Stored(groceries);
    OnlyElement(store.Index(Some(U1)).outcome.page.entries, groceries);
  }

  /**
   * U1 creates "Groceries" tagged Personal; U1's Index lists exactly that
   * entry, U2's Index lists nothing.
   */
  method GroceriesScenario() returns (mine: seq<Entry>, theirs: seq<Entry>)
    ensures mine == [Entry(1, "Groceries", "milk, eggs", 100, "u1", {1})]
    ensures theirs == []
  {
    var store := new EntryStore();
    SeedSelections(store);
    var created := store.Create(Some(U1), "Groceries", "milk, eggs", Some([1]), 100, true);
    var groceries := Entry(1, "Groceries", "milk, eggs", 100, "u1", {1});
    GroceriesListed(store, groceries);
    var ofU1 := store.Index(Some(U1));
    mine := ofU1.outcome.page.entries;
    var ofU2 := store.Index(Some(U2));
    theirs := ofU2.outcome.page.entries;
  }

  /**
   * An entry created with tags [1, 2] is edited with `selection`: the tag set
   * read back is replaced in full by the seeded ids the selection names, so
   * [3] gives {3}, [1, 9999] gives {1} and an empty or null list gives {}.
   */
  method RetagScenario(selection: Option<seq<int>>) returns (before: set<int>, after: set<int>)
    ensures before == {1, 2}
    ensures after == set k | k in SeedCatalog() && selection.Some? && k in selection.value
    ensures selection == Some([3]) ==> after == {3}
    ensures selection == Some([1, 9999]) ==> after == {1}
    ensures selection == None || selection == Some([]) ==> after == {}
  {
    var store := new EntryStore();
    SeedSelections(store);
    var created := store.Create(Some(U1), "Plans", "draft", Some([1, 2]), 10, true);
    assert store.entries[1].tags == {1, 2};
    var page := store.EditForm(Some(1), Some(U1));
    before := page.outcome.page.selectedTagIds;
    var edited := store.Edit(1, 1, "Plans", "final", selection, Some(U1), true, NoInterference, 11);
    assert store.entries[1].tags == store.SelectedTagIds(selection);
    page := store.EditForm(Some(1), Some(U1));
    after := page.outcome.page.selectedTagIds;
    SeedSelection(store, selection);
  }

  /**
   * A stranger's delete leaves the entry in place; the owner's removes it, after
   * which it is not found; the seeded tags survive.
   */
  method DeleteScenario() returns (byStranger: Response, byOwner: Response, afterwards: Response, tags: map<int, Tag>)
    ensures byStranger == Response(RedirectIndex, Some(NoPermissionToDelete))
    ensures byOwner == Response(RedirectIndex, Some(EntryDeleted))
    ensures afterwards == Response(NotFound, Some(NoPermissionToView))
    ensures tags == SeedCatalog()
  {
    var store := new EntryStore();
    SeedSelections(store);
    var created := store.Create(Some(U1), "Note", "text", Some([2]), 1, true);
    byStranger := store.DeleteConfirmed(1, Some(U2));
    byOwner := store.DeleteConfirmed(1, Some(U1));
    afterwards := store.Details(Some(1), Some(U1));
    tags := store.catalog;
  }

  /**
   * A title longer than 200 characters passes form validation, but the database
   * rejects the save: the exception escapes, no notification is set and nothing
   * is stored.
   */
  method LongTitleScenario(title: string) returns (create: Response, stored: nat)
    requires |title| > MaxTitleLength
    ensures create == Response(Fault, None)
    ensures stored == 0
  {
    var store := new EntryStore();
    create := store.Create(Some(U1), title, "text", None, 1, true);
    stored := |store.entries|;
  }

  /** Without a signed-in user, Index, the Create form and both saves answer Unauthorized and store nothing. */
  method AnonymousScenario() returns (index: Response, form: Response, create: Response, edit: Response, stored: nat)
    ensures index.outcome == Unauthorized && form.outcome == Unauthorized
    ensures create.outcome == Unauthorized && edit.outcome == Unauthorized
    ensures stored == 0
  {
    var store := new EntryStore();
    SeedSelections(store);
    index := store.Index(None);
    form := store.CreateForm(None);
    create := store.Create(None, "Title", "Body", Some([1]), 1, true);
    edit := store.Edit(1, 1, "Title", "Body", None, None, true, NoInterference, 2);
    stored := |store.entries|;
  }
}
