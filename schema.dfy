/**
 * The store schema of ApplicationDbContext.OnModelCreating, as invariants over
 * the entries table and the tag catalog, plus the HasData seed of the catalog.
 */
module Schema {
  import opened EntryModel
  import opened TagModel

  /** HasMaxLength(200) on Entry.Title. */
  const MaxTitleLength: nat := 200

  /** IsRequired on a string column, as validation reads it: present and not empty. */
  predicate Required(s: string) {
    s != ""
  }

  /**
   * What model validation checks of a posted form: the non-nullable Title and
   * Content are required. HasMaxLength is a column constraint that validation
   * does not read, so an over-long title passes here.
   */
  predicate Validates(title: string, content: string) {
    Required(title) && Required(content)
  }

  /** What the database accepts in the Title and Content columns: required, and a title of at most 200 characters. */
  predicate Fits(title: string, content: string) {
    Validates(title, content) && |title| <= MaxTitleLength
  }

  /** A row of the entries table: the form constraints plus a required, single author. */
  predicate StoredEntryOk(e: Entry) {
    Fits(e.title, e.content) && Required(e.authorId)
  }

  /** The catalog is keyed by tag id. */
  predicate CatalogKeyed(catalog: map<int, Tag>) {
    forall k :: k in catalog ==> catalog[k].id == k
  }

  /** HasIndex(t => t.Name).IsUnique(): no two catalog tags share a name. */
  predicate UniqueTagNames(catalog: map<int, Tag>) {
    forall a, b :: a in catalog && b in catalog && catalog[a].name == catalog[b].name ==> a == b
  }

  predicate CatalogOk(catalog: map<int, Tag>) {
    CatalogKeyed(catalog) && UniqueTagNames(catalog)
  }

  /** The many-to-many join: an entry's tags are ids of catalog tags. */
  predicate TagsInCatalog(e: Entry, catalog: map<int, Tag>) {
    e.tags <= catalog.Keys
  }

  /** The HasData seed: five tags with fixed ids, built by the Tag object initialiser. */
  function SeedCatalog(): (c: map<int, Tag>)
    ensures c.Keys == {1, 2, 3, 4, 5}
    ensures c[1].name == "Personal" && c[2].name == "Work" && c[3].name == "Ideas"
    ensures c[4].name == "Learning" && c[5].name == "Health"
    ensures forall k :: k in c ==> c[k].slug == "name"
  {
    map[1 := InitTag(1, "Personal"),
        2 := InitTag(2, "Work"),
        3 := InitTag(3, "Ideas"),
        4 := InitTag(4, "Learning"),
        5 := InitTag(5, "Health")]
  }

  /** The seed meets the catalog invariants: keyed by id and pairwise distinct names. */
  lemma SeedCatalogOk()
    ensures CatalogOk(SeedCatalog())
  {
  }
}
