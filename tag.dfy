/**
 * The Tag record (Models/Tag.cs). Its Slug is a stored, settable property whose
 * initialiser is nameof(Name).ToLower(): the lower-cased NAME OF THE PROPERTY,
 * i.e. the constant "name", whatever the tag is called. The model keeps this.
 * The Entries navigation collection is the inverse of Entry.tags and is
 * represented only on the entry side.
 */
module TagModel {
  import opened Text

  datatype Tag = Tag(id: int, name: string, slug: string)

  /** nameof(Name): the identifier of the property, as a string. */
  const NamePropertyName: string := "Name"

  /** The Slug initialiser, nameof(Name).ToLower(). */
  function DefaultSlug(): (s: string)
    ensures s == "name"
  {
    ToLower(NamePropertyName)
  }

  /** `new Tag()`: Id 0, empty Name, Slug from its initialiser. */
  function NewTag(): (t: Tag)
    ensures t.id == 0 && t.name == "" && t.slug == "name"
  {
    Tag(0, "", DefaultSlug())
  }

  /** `new Tag { Id = id, Name = name }`: the initialisers run first, then the two setters. */
  function InitTag(id: int, name: string): (t: Tag)
    ensures t.id == id && t.name == name
    ensures t.slug == "name"
  {
    NewTag().(id := id).(name := name)
  }

  /** Setting Name afterwards leaves the stored Slug as it was. */
  function SetName(t: Tag, name: string): (r: Tag)
    ensures r.name == name && r.id == t.id
    ensures r.slug == t.slug
  {
    t.(name := name)
  }

  /** Tags built with different names get the same slug, and that slug is not the lower-cased name. */
  lemma DefaultSlugIgnoresName(a: int, nameA: string, b: int, nameB: string)
    ensures InitTag(a, nameA).slug == InitTag(b, nameB).slug
    ensures InitTag(2, "Work").slug != ToLower("Work")
  {
  }
}
