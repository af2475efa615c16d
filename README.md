# declutter: a verified model of the entry store

declutter is a small ASP.NET note-taking application. Signed-in users write
entries (title, content, creation time), tag them from a shared catalog of
tags, and list, view, edit and delete them. Every lookup is scoped to the
entry's author. This project models that core in Dafny:

- `wrappers.dfy`: `Option`.
- `text.dfy`: `string.ToLower()` over ASCII and `string.Replace(char, char)`.
- `entry.dfy`: the `Entry` record (`Models/Entry.cs`), its field defaults and
  its computed `Slug`.
- `tag.dfy`: the `Tag` record (`Models/Tag.cs`). Its stored `Slug` defaults to
  `nameof(Name).ToLower()`, which is the constant `"name"` for every tag. The
  model keeps this as written.
- `schema.dfy`: the constraints of `ApplicationDbContext.OnModelCreating` as
  predicates, plus the five-tag `HasData` seed.
  - The constraints are: Title required and at most 200 characters, Content
    required, one required author, unique tag names, and tags as a set of
    catalog ids through the join table.
- `entries_controller.dfy`: `EntriesController`. The database is the class
  `EntryStore`, whose fields are:
  - the entries table, keyed by id;
  - the tag catalog, keyed by id;
  - the identity counter for new ids.

  Its invariant `Valid()` is the schema above. The read-only actions are
  functions of the store: `Index`, `Details`, the GET forms of
  Create/Edit/Delete, and `EntryExists`. The actions that save are methods
  that update the store in place: Create POST, Edit POST (including its
  `Tags.Add` loop) and `DeleteConfirmed`. Each action:
  - takes the current user as `Option<UserId>`;
  - returns a `Response`: the framework outcome (`ViewOk`, `RedirectIndex`,
    `NotFound`, `Unauthorized`, `ValidationError`, `Fault`) and the
    notification `ShowNotification` would store, with the source's exact
    message, title and `NotificationType`.
- `scenarios.dfy`: request sequences against a freshly seeded database, proved
  from the actions' specifications.

Two behaviours of the code are worth knowing, and the model keeps both:

- The successful views of Index, Details and the three GET forms set no
  notification (`Controllers/Entries.cs:52`, `79`, `98`, `172`, `277`).
- A tag's slug is the constant `"name"` for every tag (`Models/Tag.cs:8`).

## Model

| member | source | states |
|---|---|---|
| Text.LowerChar | Models/Entry.cs:19 | one character lower-cased: the result is never a capital, only capitals change, and a space stays a space and nothing else becomes one |
| Text.ToLower | Models/Entry.cs:19 | lower-casing keeps the length and maps each character by itself; ASCII capitals become small letters, all else is kept |
| Text.Replace | Models/Entry.cs:19 | keeps the length; exactly the occurrences of the old character become the new one |
| Text.ToLowerIdempotent | Models/Entry.cs:19 | lower-casing a lower-cased string changes nothing |
| EntryModel.EntrySlug | Models/Entry.cs:19 | the slug is as long as the title; each space becomes '-' and every other character is lower-cased; no space and no capital letter is left |
| EntryModel.Entry.Slug | Models/Entry.cs:19 | the computed Slug of an entry is as long as its title and holds no space and no capital letter |
| EntryModel.SlugIdempotent | Models/Entry.cs:19 | the slug of a slug is the slug itself |
| EntryModel.SlugExamples | Models/Entry.cs:19 | "My Title" gives "my-title"; "" gives "" |
| EntryModel.SlugTracksTitle | Models/Entry.cs:7-19 | Slug is computed from the current Title, so after a rename it is the new title's slug; an empty title gives an empty slug |
| EntryModel.NewEntry | Models/Entry.cs:5-17 | a new Entry has id 0, empty Title, Content and AuthorId, no tags, CreatedAt equal to the clock, and an empty slug |
| TagModel.DefaultSlug | Models/Tag.cs:8 | the Slug initialiser nameof(Name).ToLower() is "name" |
| TagModel.NewTag | Models/Tag.cs:5-9 | a new Tag has id 0, an empty Name and the slug "name" |
| TagModel.InitTag | Data/ApplicationDbContext.cs:90-94 | an object initialiser that sets Id and Name leaves the slug "name" |
| TagModel.SetName | Models/Tag.cs:6-8 | assigning Name later does not change the stored Slug |
| TagModel.DefaultSlugIgnoresName | Models/Tag.cs:8 | any two initialised tags have the same slug, whatever their names; for "Work" that slug is not the lower-cased name |
| Schema.Required | Data/ApplicationDbContext.cs:83-86 | a required string column holds a non-empty value |
| Schema.Validates | Data/ApplicationDbContext.cs:83-84 | what form validation checks: Title and Content are required; the length limit is not checked here |
| Schema.Fits | Data/ApplicationDbContext.cs:83-84 | what the Title and Content columns accept: both required, and a title of at most 200 characters |
| Schema.StoredEntryOk | Data/ApplicationDbContext.cs:83-86 | a stored entry fits the Title and Content columns and has a required author id |
| Schema.CatalogKeyed | Data/ApplicationDbContext.cs:79 | each catalog tag is stored under its own id |
| Schema.UniqueTagNames | Data/ApplicationDbContext.cs:74-76 | no two catalog tags share a name |
| Schema.CatalogOk | Data/ApplicationDbContext.cs:74-79 | the catalog is keyed by id and its names are unique |
| Schema.TagsInCatalog | Data/ApplicationDbContext.cs:55-58 | an entry's tags, through the join table, are ids of catalog tags |
| Schema.SeedCatalog | Data/ApplicationDbContext.cs:89-95 | the seed is exactly ids 1 to 5 named Personal, Work, Ideas, Learning and Health, all with slug "name" |
| Schema.SeedCatalogOk | Data/ApplicationDbContext.cs:74-76 | the seed is keyed by tag id and its names are pairwise distinct, so it meets the unique-name index |
| EntriesController.InsertNewestFirst | Controllers/Entries.cs:41 | inserting adds exactly the one element (multiset) |
| EntriesController.OrderByCreatedDesc | Controllers/Entries.cs:41 | the ordered list is a permutation of its input |
| EntriesController.InsertKeepsNewestFirst | Controllers/Entries.cs:41 | inserting into a list in non-increasing CreatedAt order keeps that order |
| EntriesController.OrderByCreatedDescIsNewestFirst | Controllers/Entries.cs:41 | the ordered list is in non-increasing CreatedAt order |
| EntriesController.IncreasingIdsOnce | Controllers/Entries.cs:38-42 | a list of rows with strictly increasing ids holds each row once |
| EntriesController.EntryStore.constructor | Data/ApplicationDbContext.cs:89-95 | a fresh database has no entries and the seeded catalog, and meets the invariant |
| EntriesController.EntryStore.Valid | Data/ApplicationDbContext.cs:55-86 | the store invariant: the catalog is keyed and its names unique; each entry is stored under its own id below the next identity value, meets the column constraints, has an author, and references catalog tags only |
| EntriesController.EntryStore.Find | Controllers/Entries.cs:69-71 | the lookup by id and author finds a row iff that row exists and belongs to the caller; if it finds one, it is that stored row |
| EntriesController.EntryStore.AuthorFinds | Controllers/Entries.cs:305-308 | the author of a stored row finds it by id |
| EntriesController.EntryStore.EntryExists | Controllers/Entries.cs:305-308 | true iff some user could find the id, so the check ignores ownership |
| EntriesController.EntryStore.TagsUsedBy | Controllers/Entries.cs:45-48 | exactly the catalog tags that at least one of the user's stored entries references |
| EntriesController.EntryStore.SelectTags | Controllers/Entries.cs:123-125 | exactly the catalog tags whose ids occur in the list; their ids are the tag ids a save stores |
| EntriesController.EntryStore.SelectedTagIds | Controllers/Entries.cs:121-126 | the tag ids a save stores: exactly the catalog ids named in the selection, none for a null selection, and always a subset of the catalog |
| EntriesController.EntryStore.SelectionBySetOfKnownIds | Controllers/Entries.cs:121-126 | two selections that name the same catalog ids select the same tags, so order, duplicates and unknown ids make no difference; an empty or null list selects nothing |
| EntriesController.EntryStore.OwnedFrom | Controllers/Entries.cs:38-40 | exactly the caller's stored rows, each once, in ascending id order |
| EntriesController.EntryStore.Index | Controllers/Entries.cs:27-53 | with no user: Unauthorized and the login notice. Otherwise: the list holds exactly the caller's entries, each once, in non-increasing CreatedAt order; the tag set is exactly the catalog tags those entries use |
| EntriesController.EntryStore.Details | Controllers/Entries.cs:57-80 | shows the entry iff the id is given and the caller owns it; a null id gives "Entry not found"; a missing or foreign id gives the no-permission notice |
| EntriesController.EntryStore.CreateForm | Controllers/Entries.cs:82-99 | with no user: Unauthorized; otherwise a blank form offering the same tags as Index |
| EntriesController.EntryStore.EditForm | Controllers/Entries.cs:143-173 | shows the form iff the caller owns the id; the entry's current tag ids are preselected, and the offered tags are those of Index; the NotFound cases are as in Details, with the edit notice |
| EntriesController.EntryStore.DeleteForm | Controllers/Entries.cs:255-278 | shows the confirmation iff the caller owns the id; the NotFound cases are as in Details, with the delete notice |
| EntriesController.EntryStore.ForeignLooksMissing | Controllers/Entries.cs:59-77 | for Details, Edit and Delete, another user's entry and a missing id give identical responses |
| EntriesController.EntryStore.Create | Controllers/Entries.cs:101-141 | no user: Unauthorized, nothing stored. Valid form with a title over 200 characters: the save is rejected (Fault, no notification), nothing stored. Otherwise, valid form: exactly one new row under a fresh id, with the caller as author, the clock as CreatedAt and exactly the selected catalog tags. Invalid form: the form again with the validation notice, nothing stored. The invariant and the catalog are kept |
| EntriesController.EntryStore.Edit | Controllers/Entries.cs:175-253 | Route id differs from body id: NotFound, no change. No user: Unauthorized. Not the owner: NotFound. Invalid form: the form with the current tag ids, no change. A save with a title over 200 characters is rejected: Fault, no notification, no change. A save: only Title, Content and the tag set change, the tag set being replaced by exactly the selected catalog ids. A concurrent update gives Fault; a concurrent delete gives NotFound. Other rows, the catalog and the invariant are kept |
| EntriesController.EntryStore.DeleteConfirmed | Controllers/Entries.cs:280-302 | always redirects to Index; removes the row iff the caller owns it, otherwise changes nothing; the catalog is never touched |
| Scenarios.SeedSelections | Controllers/Entries.cs:216-218 | against the seed, [1, 2] selects {1, 2} and [1, 9999] selects {1} |
| Scenarios.SeedSelection | Controllers/Entries.cs:214-218 | against the seed, a selection keeps exactly the seeded ids it names; null or empty keeps none |
| Scenarios.GroceriesListed | Controllers/Entries.cs:38-42 | with one row by "u1", u1's Index lists just that row and u2's lists nothing |
| Scenarios.GroceriesScenario | Controllers/Entries.cs:101-132 | after u1 creates an entry, u1's Index lists exactly it, with its tag and clock value, and u2's Index is empty |
| Scenarios.RetagScenario | Controllers/Entries.cs:212-223 | an entry created with tags [1, 2] and then edited has exactly the seeded ids of the new selection; [3] gives {3}, [1, 9999] gives {1}, null or [] gives {} |
| Scenarios.DeleteScenario | Controllers/Entries.cs:280-302 | a stranger's delete leaves the entry in place; the owner's removes it; Details then answers NotFound; the catalog is still the seed |
| Scenarios.LongTitleScenario | Controllers/Entries.cs:118-132 | a valid form with a title over 200 characters ends in Fault with no notification, and nothing is stored |
| Scenarios.AnonymousScenario | Controllers/Entries.cs:87-191 | with no user, Index, the Create form, Create POST and Edit POST answer Unauthorized, and nothing is stored |

## Left out

- Views, `ViewData`/`ViewBag`, `RedirectToAction` and the anti-forgery attributes are left out. Each is reduced to a case of the `Outcome` datatype.
- `ShowNotification`'s JSON serialisation into `TempData` is left out. The model returns the notice's message, title and type with the response.
- The `[Authorize]` filter is not modelled. The model takes each action's own null-user branch as written.
- `GetCurrentUserId` and the identity framework are not modelled. The current user is a parameter, and identity ids are taken to be non-empty strings. `Models/ApplicationUser.cs` is not part of this model.
- The `users` table and the `Author` navigation are left out. The author foreign key is the single required `authorId` string, which every action fills from the signed-in user.
- `Tag.Entries` is left out. The many-to-many association is kept on the entry side only, as a set of catalog tag ids.
- Entity Framework's async queries, change tracking, transactions and table and column names are left out. Each save is atomic on the in-memory maps.
- `DateTime.Now` is the `now` parameter. CreatedAt is a plain integer clock value.
- `string.ToLower()` is modelled over ASCII only. Culture-specific and non-ASCII case mappings are not modelled.
- `ModelState.IsValid` and `TryUpdateModelAsync` are the `valid` input. Valid input is required to have a non-empty Title and Content.
  - The 200-character limit on Title is a column constraint that validation does not read. A longer title passes validation.
  - The database then rejects the save, and the exception escapes the action uncaught. The model answers `Fault` with no notification and stores nothing.
  - An identity value that a rejected insert may consume is not modelled.
- `EntriesController.EntryStore.Create`: the `Tags` collection bound from the form is taken to be empty. Only `selectedTagIds` attaches tags.
- A `DbUpdateConcurrencyException` is modelled by the `Interference` input. No concurrency token is configured, so the exception arises only when Edit's save touches fewer rows than it expects. Two causes are modelled:
  - `ConcurrentDelete`: the entry itself was deleted.
  - `ConcurrentUpdate`: another save already removed the `entry_tags` rows that `Tags.Clear()` deletes, while the entry still exists.
  - A concurrent change of Title or Content raises nothing: the last writer wins, which the sequential model shows as one save after the other.
  - A rethrow becomes the `Fault` outcome.
  - The exception's propagation to the framework is not modelled.
- `EntriesController.EntryStore.Index`: the database's order among entries with equal CreatedAt is unspecified. The model scans rows in ascending id order and then sorts newest first. Stability of that sort is not proved.
- The tag lists shown by Index and the forms are sets, so their order is not modelled. `Distinct()` holds by construction.

