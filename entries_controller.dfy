/**
 * EntriesController (Controllers/Entries.cs) over an in-memory database.
 *
 * The database is the class EntryStore: the entries table keyed by id, the tag
 * catalog keyed by id and the identity counter that assigns new entry ids.
 * The read-only actions (Index, Details, the Create/Edit/Delete forms,
 * EntryExists) are functions of the store; the actions that save (Create POST,
 * Edit POST, DeleteConfirmed) are methods that update it in place.
 *
 * Every action takes the current user as an optional id, the outcome the MVC
 * framework would render as a datatype, and the notification that
 * ShowNotification would put in TempData as an optional Notice.
 */
module EntriesController {
  import opened Wrappers
  import opened EntryModel
  import opened TagModel
  import opened Schema

  /** An identity user id (the NameIdentifier claim); identity ids are never empty. */
  type UserId = s: string | s != "" witness "user"

  datatype NotificationType = Success | Error | Warning | Info

  /** What ShowNotification serialises: message, title and type. */
  datatype Notice = Notice(message: string, title: string, kind: NotificationType)

  const EntryNotFound := Notice("Entry not found", "Error", Error)
  const LoginToView := Notice("You must be logged in to view entries", "Error", Error)
  const LoginToCreate := Notice("You must be logged in to create an entry", "Error", Error)
  const LoginToEdit := Notice("You must be logged in to edit an entry", "Error", Error)
  const NoPermissionToView := Notice("Entry not found or you don't have permission to view it", "Error", Error)
  const NoPermissionToEdit := Notice("Entry not found or you don't have permission to edit it", "Error", Error)
  const NoPermissionToDelete := Notice("Entry not found or you don't have permission to delete it", "Error", Error)
  const FixValidationErrors := Notice("Please fix the validation errors", "Validation Error", Warning)
  const EntryCreated := Notice("Entry created successfully", "Success", Success)
  const EntryUpdated := Notice("Entry updated successfully", "Success", Success)
  const UpdateFailed := Notice("An error occurred while updating the entry", "Error", Error)
  const EntryDeleted := Notice("Entry deleted successfully", "Success", Success)

  /** The model handed to a view, with the ViewData/ViewBag values it reads. */
  datatype Page =
    | EntryList(entries: seq<Entry>, allTags: set<Tag>)
    | EntryPage(entry: Entry)
    | BlankForm(availableTags: set<Tag>)
    | FormPage(entry: Entry, availableTags: set<Tag>, selectedTagIds: set<int>)

  datatype Outcome =
    | ViewOk(page: Page)
    | RedirectIndex
    | NotFound
    | Unauthorized
    | ValidationError(page: Page)
    | Fault  // an exception the action lets escape: a rejected save, or the rethrown concurrency exception

  datatype Response = Response(outcome: Outcome, notice: Option<Notice>)

  /**
   * What another request did between Edit's load and its save that makes the save
   * touch fewer rows than expected. No concurrency token is configured, so a plain
   * concurrent change of Title or Content is not one of these: the last writer wins.
   * ConcurrentUpdate: another save already removed rows this save deletes (the
   * entry_tags rows Tags.Clear() drops) while the entry still exists.
   * ConcurrentDelete: the entry itself was deleted.
   */
  datatype Interference = NoInterference | ConcurrentUpdate | ConcurrentDelete

  /** OrderByDescending(e => e.CreatedAt) holds of the list. */
  predicate NewestFirst(s: seq<Entry>) {
    forall i, j :: 0 <= i < j < |s| ==> s[i].createdAt >= s[j].createdAt
  }

  /** Ids strictly increase along the list, as in a scan of the table by primary key. */
  predicate IdsIncreasing(s: seq<Entry>) {
    forall i, j :: 0 <= i < j < |s| ==> s[i].id < s[j].id
  }

  /** Inserts e before the first element that is not newer than it. */
  function InsertNewestFirst(e: Entry, s: seq<Entry>): (r: seq<Entry>)
    ensures multiset(r) == multiset(s) + multiset{e}
  {
    if s == [] || e.createdAt >= s[0].createdAt then [e] + s
    else
      assert s == [s[0]] + s[1..];
      [s[0]] + InsertNewestFirst(e, s[1..])
  }

  /** OrderByDescending(e => e.CreatedAt): a stable sort, newest first. */
  function OrderByCreatedDesc(s: seq<Entry>): (r: seq<Entry>)
    ensures multiset(r) == multiset(s)
  {
    if s == [] then []
    else
      assert s == [s[0]] + s[1..];
      InsertNewestFirst(s[0], OrderByCreatedDesc(s[1..]))
  }

  /** Inserting into a newest-first list keeps it newest first. */
  lemma {:induction false} InsertKeepsNewestFirst(e: Entry, s: seq<Entry>)
    requires NewestFirst(s)
    ensures NewestFirst(InsertNewestFirst(e, s))
  {
    var r := InsertNewestFirst(e, s);
    if s == [] || e.createdAt >= s[0].createdAt {
      assert r == [e] + s;
    } else {
      var rest := InsertNewestFirst(e, s[1..]);
      InsertKeepsNewestFirst(e, s[1..]);
      assert r == [s[0]] + rest;
      forall j | 0 < j < |r| ensures r[0].createdAt >= r[j].createdAt {
        assert r[j] == rest[j - 1];
        assert r[j] in multiset(rest);
        assert r[j] == e || r[j] in multiset(s[1..]);
      }
    }
  }

  /** The sort puts the newest entries first. */
  lemma {:induction false} OrderByCreatedDescIsNewestFirst(s: seq<Entry>)
    ensures NewestFirst(OrderByCreatedDesc(s))
  {
    if s != [] {
      OrderByCreatedDescIsNewestFirst(s[1..]);
      InsertKeepsNewestFirst(s[0], OrderByCreatedDesc(s[1..]));
    }
  }

  /** A list whose ids strictly increase holds each element once. */
  lemma {:induction false} IncreasingIdsOnce(s: seq<Entry>)
    requires IdsIncreasing(s)
    ensures forall e :: e in multiset(s) ==> multiset(s)[e] == 1
  {
    if s != [] {
      IncreasingIdsOnce(s[1..]);
      assert s == [s[0]] + s[1..];
      assert s[0] !in s[1..] by {
        forall i | 0 <= i < |s[1..]| ensures s[1..][i] != s[0] {
          assert s[1..][i].id == s[i + 1].id > s[0].id;
        }
      }
    }
  }

  /** The ids of a set of tags. */
  function IdsOf(tags: set<Tag>): set<int> {
    set t | t in tags :: t.id
  }

  class EntryStore {
    /** The entries table, by primary key. */
    var entries: map<int, Entry>
    /** The tags table, by primary key. */
    var catalog: map<int, Tag>
    /** The identity value the database gives the next inserted entry. */
    var nextId: int

    /** The schema's constraints hold of every row. */
    ghost predicate Valid()
      reads this
    {
      && 1 <= nextId
      && CatalogOk(catalog)
      && forall k :: k in entries ==>
           && 1 <= k < nextId
           && entries[k].id == k
           && StoredEntryOk(entries[k])
           && TagsInCatalog(entries[k], catalog)
    }

    /** A freshly created database: no entries and the seeded catalog. */
    constructor ()
      ensures Valid()
      ensures entries == map[] && catalog == SeedCatalog() && nextId == 1
    {
      entries := map[];
      catalog := SeedCatalog();
      nextId := 1;
      SeedCatalogOk();
    }

    /** e is a row of the entries table. */
    predicate Stored(e: Entry)
      reads this
    {
      e.id in entries && entries[e.id] == e
    }

    /** t is a tag of the catalog. */
    predicate InCatalog(t: Tag)
      reads this
    {
      t.id in catalog && catalog[t.id] == t
    }

    /** The user owns the row with this id. */
    predicate Owns(user: Option<UserId>, id: int)
      reads this
    {
      user.Some? && id in entries && entries[id].authorId == user.value
    }

    /** FirstOrDefault(e => e.Id == id && e.AuthorId == userId): the caller's own row, or nothing. */
    function Find(id: int, user: Option<UserId>): (r: Option<Entry>)
      requires Valid()
      reads this
      ensures r.Some? ==> Stored(r.value) && r.value.id == id && user == Some(r.value.authorId)
      ensures r.None? ==> forall e :: Stored(e) && e.id == id ==> user != Some(e.authorId)
      ensures r.Some? <==> Owns(user, id)
    {
      if user.Some? && id in entries && entries[id].authorId == user.value then Some(entries[id]) else None
    }

    /** The author of a stored row finds it. */
    lemma AuthorFinds(id: int)
      requires Valid() && id in entries
      ensures Find(id, Some(entries[id].authorId)) == Some(entries[id])
    {
    }

    /** EntryExists: Any(e => e.Id == id), NOT scoped by the owner: some user, its author, can find the row. */
    function EntryExists(id: int): (b: bool)
      requires Valid()
      reads this
      ensures b <==> exists owner: UserId :: Find(id, Some(owner)).Some?
    {
      if id in entries then AuthorFinds(id); true else false
    }

    /** Tags.Where(t => t.Entries.Any(e => e.AuthorId == userId)): the catalog tags the user's entries use. */
    function TagsUsedBy(user: UserId): (r: set<Tag>)
      requires Valid()
      reads this
      ensures forall t :: t in r <==>
        InCatalog(t) && exists e :: Stored(e) && e.authorId == user && t.id in e.tags
    {
      var r := set k | k in catalog && (exists j :: j in entries && entries[j].authorId == user && k in entries[j].tags)
                     :: catalog[k];
      assert forall t :: InCatalog(t) && (exists e :: Stored(e) && e.authorId == user && t.id in e.tags) ==> t in r by {
        forall t | InCatalog(t) && (exists e :: Stored(e) && e.authorId == user && t.id in e.tags)
          ensures t in r
        {
          var e :| Stored(e) && e.authorId == user && t.id in e.tags;
          assert entries[e.id].authorId == user && t.id in entries[e.id].tags;
        }
      }
      r
    }

    /** Tags.Where(t => selectedTagIds.Contains(t.Id)). */
    function SelectTags(ids: seq<int>): (r: set<Tag>)
      requires Valid()
      reads this
      ensures forall t :: t in r <==> InCatalog(t) && t.id in ids
      ensures IdsOf(r) == SelectedTagIds(Some(ids))
    {
      var r := set k | k in catalog && k in ids :: catalog[k];
      assert forall t :: InCatalog(t) && t.id in ids ==> t in r;
      assert IdsOf(r) == SelectedTagIds(Some(ids)) by {
        forall k | k in SelectedTagIds(Some(ids)) ensures k in IdsOf(r) {
          assert catalog[k] in r;
        }
      }
      r
    }

    /** The tag ids an entry holds after a save with this selection: the catalog ids named in it. */
    function SelectedTagIds(selected: Option<seq<int>>): (r: set<int>)
      reads this
      ensures r <= catalog.Keys
      ensures forall k :: k in r <==> selected.Some? && k in catalog && k in selected.value
    {
      if selected.None? then {} else set k | k in catalog && k in selected.value
    }

    /** Duplicates, order and unknown ids in the selection make no difference; an empty or null list selects nothing. */
    lemma SelectionBySetOfKnownIds(a: seq<int>, b: seq<int>)
      requires forall k :: k in catalog ==> (k in a <==> k in b)
      ensures SelectedTagIds(Some(a)) == SelectedTagIds(Some(b))
      ensures SelectedTagIds(Some([])) == {} && SelectedTagIds(None) == {}
    {
      assert forall k :: k in SelectedTagIds(Some(a)) <==> k in SelectedTagIds(Some(b));
    }

    /** The user's rows with id at least lo, in ascending id order. */
    function OwnedFrom(user: UserId, lo: int): (r: seq<Entry>)
      requires Valid()
      reads this
      decreases nextId - lo
      ensures forall i :: 0 <= i < |r| ==> Stored(r[i]) && r[i].authorId == user && lo <= r[i].id
      ensures forall e :: Stored(e) && e.authorId == user && lo <= e.id ==> e in r
      ensures IdsIncreasing(r)
    {
      if nextId <= lo then []
      else
        var rest := OwnedFrom(user, lo + 1);
        if lo in entries && entries[lo].authorId == user then [entries[lo]] + rest else rest
    }

    /** Index: the caller's entries, newest first, with the catalog tags those entries use. */
    function Index(user: Option<UserId>): (r: Response)
      requires Valid()
      reads this
      ensures user.None? ==> r == Response(Unauthorized, Some(LoginToView))
      ensures user.Some? ==> r.notice.None? && r.outcome.ViewOk? && r.outcome.page.EntryList?
      ensures user.Some? ==> forall e :: e in r.outcome.page.entries <==> Stored(e) && e.authorId == user.value
      ensures user.Some? ==> NewestFirst(r.outcome.page.entries)
      ensures user.Some? ==> forall e :: e in multiset(r.outcome.page.entries) ==> multiset(r.outcome.page.entries)[e] == 1
      ensures user.Some? ==> forall t :: t in r.outcome.page.allTags <==>
        InCatalog(t) && exists e :: e in r.outcome.page.entries && t.id in e.tags
    {
      if user.None? then Response(Unauthorized, Some(LoginToView))
      else
        var owned := OwnedFrom(user.value, 1);
        var sorted := OrderByCreatedDesc(owned);
        IncreasingIdsOnce(owned);
        OrderByCreatedDescIsNewestFirst(owned);
        assert forall e :: e in sorted <==> e in owned by {
          forall e ensures e in sorted <==> e in owned {
            assert e in sorted <==> e in multiset(sorted);
            assert e in owned <==> e in multiset(owned);
          }
        }
        Response(ViewOk(EntryList(sorted, TagsUsedBy(user.value))), None)
    }

    /** Details: the entry, if the id is given and the caller owns it; otherwise NotFound. */
    function Details(id: Option<int>, user: Option<UserId>): (r: Response)
      requires Valid()
      reads this
      ensures r.outcome.ViewOk? <==> id.Some? && Owns(user, id.value)
      ensures r.outcome.ViewOk? ==> r.outcome.page == EntryPage(entries[id.value]) && r.notice.None?
      ensures id.None? ==> r == Response(NotFound, Some(EntryNotFound))
      ensures id.Some? && !Owns(user, id.value) ==> r == Response(NotFound, Some(NoPermissionToView))
    {
      if id.None? then Response(NotFound, Some(EntryNotFound))
      else match Find(id.value, user)
        case None => Response(NotFound, Some(NoPermissionToView))
        case Some(e) => Response(ViewOk(EntryPage(e)), None)
    }

    /** Create (GET): the empty form with the tags the caller uses. */
    function CreateForm(user: Option<UserId>): (r: Response)
      requires Valid()
      reads this
      ensures user.None? ==> r == Response(Unauthorized, Some(LoginToCreate))
      ensures user.Some? ==> r.notice.None? && r.outcome.ViewOk? && r.outcome.page.BlankForm?
      ensures user.Some? ==> r.outcome.page.availableTags == Index(user).outcome.page.allTags
    {
      if user.None? then Response(Unauthorized, Some(LoginToCreate))
      else Response(ViewOk(BlankForm(TagsUsedBy(user.value))), None)
    }

    /** Edit (GET): the caller's entry in the form, with its current tag ids selected. */
    function EditForm(id: Option<int>, user: Option<UserId>): (r: Response)
      requires Valid()
      reads this
      ensures r.outcome.ViewOk? <==> id.Some? && Owns(user, id.value)
      ensures r.outcome.ViewOk? ==>
        && r.notice.None?
        && r.outcome.page.FormPage?
        && r.outcome.page.entry == entries[id.value]
        && r.outcome.page.selectedTagIds == entries[id.value].tags
        && r.outcome.page.availableTags == Index(user).outcome.page.allTags
        && r.outcome.page.selectedTagIds <= catalog.Keys
      ensures id.None? ==> r == Response(NotFound, Some(EntryNotFound))
      ensures id.Some? && !Owns(user, id.value) ==> r == Response(NotFound, Some(NoPermissionToEdit))
    {
      if id.None? then Response(NotFound, Some(EntryNotFound))
      else match Find(id.value, user)
        case None => Response(NotFound, Some(NoPermissionToEdit))
        case Some(e) => Response(ViewOk(FormPage(e, TagsUsedBy(user.value), e.tags)), None)
    }

    /** Delete (GET): the confirmation page for the caller's own entry. */
    function DeleteForm(id: Option<int>, user: Option<UserId>): (r: Response)
      requires Valid()
      reads this
      ensures r.outcome.ViewOk? <==> id.Some? && Owns(user, id.value)
      ensures r.outcome.ViewOk? ==> r.outcome.page == EntryPage(entries[id.value]) && r.notice.None?
      ensures id.None? ==> r == Response(NotFound, Some(EntryNotFound))
      ensures id.Some? && !Owns(user, id.value) ==> r == Response(NotFound, Some(NoPermissionToDelete))
    {
      if id.None? then Response(NotFound, Some(EntryNotFound))
      else match Find(id.value, user)
        case None => Response(NotFound, Some(NoPermissionToDelete))
        case Some(e) => Response(ViewOk(EntryPage(e)), None)
    }

    /**
     * Another user's entry and a missing id are indistinguishable: Details,
     * Edit and Delete answer both with the same response.
     */
    lemma ForeignLooksMissing(user: UserId, foreign: int, missing: int)
      requires Valid()
      requires foreign in entries && entries[foreign].authorId != user
      requires missing !in entries
      ensures Details(Some(foreign), Some(user)) == Details(Some(missing), Some(user))
      ensures EditForm(Some(foreign), Some(user)) == EditForm(Some(missing), Some(user))
      ensures DeleteForm(Some(foreign), Some(user)) == DeleteForm(Some(missing), Some(user))
      ensures Details(Some(foreign), Some(user)).outcome == NotFound
    {
    }

    /**
     * Create (POST). The author and the creation time are stamped by the server;
     * `valid` is ModelState.IsValid, which checks the required fields but not the
     * title's length: an over-long title reaches SaveChangesAsync, the database
     * rejects it and the exception escapes. The Tags bound from the form are taken
     * to be empty.
     */
    method Create(user: Option<UserId>, title: string, content: string,
                  selectedTagIds: Option<seq<int>>, now: Instant, valid: bool)
      returns (r: Response)
      requires Valid()
      requires valid ==> Validates(title, content)
      modifies this
      ensures Valid() && catalog == old(catalog)
      ensures user.None? ==>
        r == Response(Unauthorized, Some(LoginToCreate)) && entries == old(entries) && nextId == old(nextId)
      ensures user.Some? && valid && |title| > MaxTitleLength ==>
        r == Response(Fault, None) && entries == old(entries) && nextId == old(nextId)
      ensures user.Some? && valid && |title| <= MaxTitleLength ==>
        && r == Response(RedirectIndex, Some(EntryCreated))
        && old(nextId) !in old(entries)
        && entries == old(entries)[old(nextId) :=
             Entry(old(nextId), title, content, now, user.value, SelectedTagIds(selectedTagIds))]
        && nextId == old(nextId) + 1
        && |entries| == |old(entries)| + 1
      ensures user.Some? && !valid ==>
        && r == Response(ValidationError(FormPage(Entry(0, title, content, now, user.value, {}),
                                                  TagsUsedBy(user.value), {})),
                         Some(FixValidationErrors))
        && entries == old(entries) && nextId == old(nextId)
    {
      if user.None? {
        return Response(Unauthorized, Some(LoginToCreate));
      }
      var entry := NewEntry(now).(title := title, content := content);
      entry := entry.(authorId := user.value, createdAt := now);
      if valid {
        if selectedTagIds.Some? && |selectedTagIds.value| > 0 {
          var selectedTags := SelectTags(selectedTagIds.value);
          entry := entry.(tags := IdsOf(selectedTags));
        } else {
          assert SelectedTagIds(selectedTagIds) == {};
        }
        if |title| > MaxTitleLength {
          // SaveChangesAsync fails on the varchar(200) column; nothing is caught.
          return Response(Fault, None);
        }
        entry := entry.(id := nextId);
        entries := entries[nextId := entry];
        nextId := nextId + 1;
        return Response(RedirectIndex, Some(EntryCreated));
      }
      r := Response(ValidationError(FormPage(entry, TagsUsedBy(user.value), {})), Some(FixValidationErrors));
    }

    /**
     * Edit (POST). `id` is the route value and `postedId`, `title`, `content` the
     * bound form; `valid` is the result of TryUpdateModelAsync, which, like
     * Create's validation, does not check the title's length. Only Title and
     * Content are taken from the form, and the tag set is replaced in full.
     * `interference` is what a concurrent request did before the save.
     */
    method Edit(id: int, postedId: int, title: string, content: string,
                selectedTagIds: Option<seq<int>>, user: Option<UserId>,
                valid: bool, interference: Interference, now: Instant)
      returns (r: Response)
      requires Valid()
      requires valid ==> Validates(title, content)
      modifies this
      ensures Valid() && catalog == old(catalog) && nextId == old(nextId)
      ensures id != postedId ==> r == Response(NotFound, Some(EntryNotFound)) && entries == old(entries)
      ensures id == postedId && user.None? ==> r == Response(Unauthorized, Some(LoginToEdit)) && entries == old(entries)
      ensures id == postedId && user.Some? && !old(Owns(user, id)) ==>
        r == Response(NotFound, Some(NoPermissionToEdit)) && entries == old(entries)
      ensures id == postedId && old(Owns(user, id)) && !valid ==>
        && r == Response(ValidationError(FormPage(NewEntry(now).(id := postedId, title := title, content := content),
                                                  TagsUsedBy(user.value), old(entries)[id].tags)),
                         Some(FixValidationErrors))
        && entries == old(entries)
      ensures id == postedId && old(Owns(user, id)) && valid && interference == NoInterference && |title| > MaxTitleLength ==>
        r == Response(Fault, None) && entries == old(entries)
      ensures id == postedId && old(Owns(user, id)) && valid && interference == NoInterference && |title| <= MaxTitleLength ==>
        && r == Response(RedirectIndex, Some(EntryUpdated))
        && entries == old(entries)[id := old(entries)[id].(title := title, content := content,
                                                            tags := SelectedTagIds(selectedTagIds))]
      ensures id == postedId && old(Owns(user, id)) && valid && interference == ConcurrentUpdate ==>
        r == Response(Fault, Some(UpdateFailed)) && entries == old(entries)
      ensures id == postedId && old(Owns(user, id)) && valid && interference == ConcurrentDelete ==>
        r == Response(NotFound, Some(EntryNotFound)) && entries == old(entries) - {id}
    {
      if id != postedId {
        return Response(NotFound, Some(EntryNotFound));
      }
      if user.None? {
        return Response(Unauthorized, Some(LoginToEdit));
      }
      var found := Find(id, user);
      if found.None? {
        return Response(NotFound, Some(NoPermissionToEdit));
      }
      var entryToUpdate := found.value;
      if !valid {
        var posted := NewEntry(now).(id := postedId, title := title, content := content);
        return Response(ValidationError(FormPage(posted, TagsUsedBy(user.value), entryToUpdate.tags)),
                        Some(FixValidationErrors));
      }
      entryToUpdate := entryToUpdate.(title := title, content := content);
      // Tags.Clear(), then Tags.Add for each selected catalog tag.
      var tagIds: set<int> := {};
      if selectedTagIds.Some? && |selectedTagIds.value| > 0 {
        var newTags := SelectTags(selectedTagIds.value);
        var pending := newTags;
        while pending != {}
          invariant pending <= newTags
          invariant tagIds == IdsOf(newTags - pending)
          decreases pending
        {
          var tag :| tag in pending;
          tagIds := tagIds + {tag.id};
          pending := pending - {tag};
          assert newTags - pending == (newTags - (pending + {tag})) + {tag};
        }
        assert newTags - pending == newTags;
      } else {
        assert SelectedTagIds(selectedTagIds) == {};
      }
      assert tagIds == SelectedTagIds(selectedTagIds);
      entryToUpdate := entryToUpdate.(tags := tagIds);
      // SaveChangesAsync, possibly after another request got to the row first.
      match interference
      case NoInterference =>
        if |title| > MaxTitleLength {
          // The UPDATE fails on the varchar(200) column; only the concurrency exception is caught.
          r := Response(Fault, None);
        } else {
          entries := entries[id := entryToUpdate];
          r := Response(RedirectIndex, Some(EntryUpdated));
        }
      case ConcurrentUpdate =>
        r := if !EntryExists(postedId) then Response(NotFound, Some(EntryNotFound))
             else Response(Fault, Some(UpdateFailed));
      case ConcurrentDelete =>
        entries := entries - {id};
        r := if !EntryExists(postedId) then Response(NotFound, Some(EntryNotFound))
             else Response(Fault, Some(UpdateFailed));
    }

    /** DeleteConfirmed (POST): removes the caller's own entry; always redirects to Index. */
    method DeleteConfirmed(id: int, user: Option<UserId>) returns (r: Response)
      requires Valid()
      modifies this
      ensures Valid() && catalog == old(catalog) && nextId == old(nextId)
      ensures r.outcome == RedirectIndex
      ensures old(Owns(user, id)) ==> entries == old(entries) - {id} && r.notice == Some(EntryDeleted)
      ensures !old(Owns(user, id)) ==> entries == old(entries) && r.notice == Some(NoPermissionToDelete)
    {
      var entry := Find(id, user);
      if entry.Some? {
        entries := entries - {entry.value.id};
        r := Response(RedirectIndex, Some(EntryDeleted));
      } else {
        r := Response(RedirectIndex, Some(NoPermissionToDelete));
      }
    }
  }
}
