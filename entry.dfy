/**
 * The Entry record (Models/Entry.cs): a note with a title, a body, a creation
 * time, its single author and the ids of the catalog tags attached to it.
 * The Author navigation property is represented by AuthorId alone, and the
 * Tags navigation collection by the set of tag ids (the entry_tags join rows).
 */
module EntryModel {
  import opened Text

  /** Clock values (DateTime) are modelled as ticks. */
  type Instant = int

  datatype Entry = Entry(
    id: int,
    title: string,
    content: string,
    createdAt: Instant,
    authorId: string,
    tags: set<int>)
  {
    /** Slug is a computed property: it is derived from the current title on every read. */
    function Slug(): (slug: string)
      ensures |slug| == |title|
      ensures forall i :: 0 <= i < |slug| ==> slug[i] != ' ' && !IsUpper(slug[i])
    {
      EntrySlug(title)
    }
  }

  /**
   * The URL slug of a title: Title.ToLower().Replace(' ', '-').
   * Character for character, so the slug is as long as the title, and no space survives.
   */
  function EntrySlug(title: string): (slug: string)
    ensures |slug| == |title|
    ensures forall i :: 0 <= i < |title| ==>
      slug[i] == (if title[i] == ' ' then '-' else LowerChar(title[i]))
    ensures forall i :: 0 <= i < |slug| ==> slug[i] != ' ' && !IsUpper(slug[i])
  {
    Replace(ToLower(title), ' ', '-')
  }

  /** A slug is its own slug. */
  lemma SlugIdempotent(title: string)
    ensures EntrySlug(EntrySlug(title)) == EntrySlug(title)
  {
  }

  /** The slug of "My Title" is "my-title"; an empty title has an empty slug. */
  lemma SlugExamples()
    ensures EntrySlug("My Title") == "my-title"
    ensures EntrySlug("") == ""
  {
  }

  /** Renaming an entry renames its slug: the slug is never stale. */
  lemma SlugTracksTitle(e: Entry, title: string)
    ensures e.(title := title).Slug() == EntrySlug(title)
    ensures e.(title := title).Slug() == e.Slug() <==> EntrySlug(title) == EntrySlug(e.title)
    ensures title == "" ==> e.(title := title).Slug() == ""
  {
  }

  /**
   * `new Entry()`: the field initialisers. Id is the int default 0 and
   * CreatedAt is DateTime.Now, supplied here as `now`.
   */
  function NewEntry(now: Instant): (e: Entry)
    ensures e.title == "" && e.content == "" && e.authorId == "" && e.tags == {}
    ensures e.createdAt == now && e.id == 0
    ensures e.Slug() == ""
  {
    Entry(0, "", "", now, "", {})
  }
}
