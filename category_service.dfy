/** `CategoryService`: listing categories by name, looking them up, creating and renaming them with
    unique slugs, and deleting a category only while no post belongs to it. */
module CategoryService {
  import opened Wrappers
  import opened Strings
  import opened Sorting
  import opened ContentStore

  /** `orderBy: { name: 'asc' }` */
  predicate ByName(a: Category, b: Category) {
    LexLe(a.name, b.name)
  }

  lemma {:induction false} ByNameTotal()
    ensures Total(ByName)
  {
    forall a: Category, b: Category ensures ByName(a, b) || ByName(b, a) {
      LexLeTotal(a.name, b.name);
    }
  }

  /** `findAll()`: every category, in ascending order of name; in a keyed table each category once, with
      ids and slugs still unique. */
  function FindAll(db: Database): (r: seq<Category>)
    reads db
    ensures multiset(r) == multiset(db.categories)
    ensures Sorted(r, ByName)
    ensures Keyed(db.categories, CategoryId, CategorySlug, db.nextCategoryId) ==>
              Keyed(r, CategoryId, CategorySlug, db.nextCategoryId) && Distinct(r)
  {
    ByNameTotal();
    var r := Sort(db.categories, ByName);
    KeyedPermutation(db.categories, r, CategoryId, CategorySlug, db.nextCategoryId);
    KeyedDistinct(r, CategoryId, CategorySlug, db.nextCategoryId);
    r
  }

  /** The first category of the listing has the least name of all. */
  lemma {:induction false} FirstHasLeastName(db: Database, c: Category)
    requires c in db.categories
    ensures FindAll(db) != [] && LexLe(FindAll(db)[0].name, c.name)
  {
    var r := FindAll(db);
    assert c in multiset(r);
    var k :| 0 <= k < |r| && r[k] == c;
    SortedPrefixLe(r, k);
  }

  lemma {:induction false} SortedPrefixLe(r: seq<Category>, k: nat)
    requires Sorted(r, ByName) && k < |r|
    ensures LexLe(r[0].name, r[k].name)
  {
    if k == 0 {
      LexLeTotal(r[0].name, r[0].name);
    } else {
      SortedPrefixLe(r, k - 1);
      LexLeTransitive(r[0].name, r[k - 1].name, r[k].name);
    }
  }

  /** `findById(id)` */
  function FindById(db: Database, id: int): (r: Option<Category>)
    reads db
    ensures r.None? <==> !Has(db.categories, CategoryId, id)
    ensures r.Some? ==> r.value.id == id && r.value in db.categories
  {
    Find(db.categories, CategoryId, id)
  }

  /** `findBySlug(slug)` */
  function FindBySlug(db: Database, slug: string): (r: Option<Category>)
    reads db
    ensures r.None? <==> !Has(db.categories, CategorySlug, slug)
    ensures r.Some? ==> r.value.slug == slug && r.value in db.categories
  {
    Find(db.categories, CategorySlug, slug)
  }

  /** `create(name, description)`: the slug is the slugified name, with `-<now>` appended when a
      category already has it; the store refuses the row (it throws) when that slug is still taken,
      and otherwise appends it under the next id. */
  method Create(db: Database, name: string, description: Option<string>, slugify: string -> string, now: int)
    returns (r: Option<Category>)
    requires db.Valid()
    modifies db
    ensures db.Valid()
    ensures db.posts == old(db.posts) && db.tags == old(db.tags)
    ensures db.nextPostId == old(db.nextPostId) && db.nextTagId == old(db.nextTagId)
    ensures var base := slugify(name);
            var c := Category(old(db.nextCategoryId), name, Suffixed(base, Has(old(db.categories), CategorySlug, base), now),
                              description, now, None);
            (r.None? <==> Has(old(db.categories), CategorySlug, c.slug))
            && (r.None? ==> db.categories == old(db.categories) && db.nextCategoryId == old(db.nextCategoryId))
            && (r.Some? ==> r.value == c && db.categories == old(db.categories) + [c]
                            && db.nextCategoryId == old(db.nextCategoryId) + 1)
  {
    var slug := slugify(name);
    var existing := Find(db.categories, CategorySlug, slug);
    slug := Suffixed(slug, existing.Some?, now);
    if Has(db.categories, CategorySlug, slug) {
      return None;
    }
    var c := Category(db.nextCategoryId, name, slug, description, now, None);
    KeyedAppend(db.categories, CategoryId, CategorySlug, db.nextCategoryId, c);
    db.categories := db.categories + [c];
    db.nextCategoryId := db.nextCategoryId + 1;
    r := Some(c);
  }

  /** The row `update(id, name, description)` writes: a non-empty name replaces the old one and, when
      it differs from it, brings a new slug (suffixed with `-<now>` when another category has it); a
      supplied description replaces the old one, even an empty one, and a `null` one clears it;
      `updatedAt` is now. */
  function Renamed(categories: seq<Category>, existing: Category, name: Option<string>, description: Field<string>,
                   slugify: string -> string, now: int): (c: Category)
    ensures c.id == existing.id && c.createdAt == existing.createdAt && c.updatedAt == Some(now)
    ensures c.name == (if name.Some? && name.value != "" then name.value else existing.name)
    ensures description.Absent? ==> c.description == existing.description
    ensures description.Null? ==> c.description.None?
    ensures description.Given? ==> c.description == Some(description.value)
    ensures !(name.Some? && name.value != "" && name.value != existing.name) ==> c.slug == existing.slug
    ensures name.Some? && name.value != "" && name.value != existing.name ==>
              var base := slugify(name.value);
              (c.slug == base <==> !TakenByOther(categories, CategoryId, CategorySlug, base, existing.id))
              && (c.slug != base ==> c.slug == base + "-" + IntToString(now))
  {
    var slug :=
      if name.Some? && name.value != "" && name.value != existing.name then
        var base := slugify(name.value);
        Suffixed(base, TakenByOther(categories, CategoryId, CategorySlug, base, existing.id), now)
      else existing.slug;
    existing.(
      name := if name.Some? && name.value != "" then name.value else existing.name,
      slug := slug,
      description := description.Over(existing.description),
      updatedAt := Some(now))
  }

  /** `update(id, name, description)`: null for a missing id, writing nothing; the store refuses a row
      whose slug another category has, writing nothing; otherwise the row becomes `Renamed`. */
  method Update(db: Database, id: int, name: Option<string>, description: Field<string>, slugify: string -> string, now: int)
    returns (r: Written<Category>)
    requires db.Valid()
    modifies db
    ensures db.Valid()
    ensures db.posts == old(db.posts) && db.tags == old(db.tags)
    ensures db.nextPostId == old(db.nextPostId) && db.nextCategoryId == old(db.nextCategoryId) && db.nextTagId == old(db.nextTagId)
    ensures !Has(old(db.categories), CategoryId, id) ==> r == NotFound && db.categories == old(db.categories)
    ensures Has(old(db.categories), CategoryId, id) ==>
              var c := Renamed(old(db.categories), Find(old(db.categories), CategoryId, id).value, name, description, slugify, now);
              (r == Refused <==> TakenByOther(old(db.categories), CategoryId, CategorySlug, c.slug, id))
              && (r == Refused ==> db.categories == old(db.categories))
              && (r != Refused ==> r == Written(c) && db.categories == Replace(old(db.categories), CategoryId, id, c))
  {
    var existing := Find(db.categories, CategoryId, id);
    if existing.None? {
      return NotFound;
    }
    var c := Renamed(db.categories, existing.value, name, description, slugify, now);
    if TakenByOther(db.categories, CategoryId, CategorySlug, c.slug, id) {
      return Refused;
    }
    KeyedReplace(db.categories, CategoryId, CategorySlug, db.nextCategoryId, id, c);
    forall p | p in db.posts ensures Has(Replace(db.categories, CategoryId, id, c), CategoryId, p.categoryId) {
      HasReplace(db.categories, CategoryId, id, c, p.categoryId);
    }
    db.categories := Replace(db.categories, CategoryId, id, c);
    r := Written(c);
  }

  /** `post.count({ where: { categoryId } })` */
  function PostCount(posts: seq<Post>, categoryId: int): (n: nat)
    ensures n <= |posts|
    ensures n == 0 <==> forall p :: p in posts ==> p.categoryId != categoryId
  {
    if posts == [] then 0
    else
      assert forall p :: p in posts <==> p == posts[0] || p in posts[1..];
      (if posts[0].categoryId == categoryId then 1 else 0) + PostCount(posts[1..], categoryId)
  }

  /** `delete(id)`: null, writing nothing, when a post still belongs to the category (the service
      throws and catches its own error) or no category has the id (the store throws); otherwise the
      category is gone, and no post is left without its category. */
  method Delete(db: Database, id: int) returns (r: Option<Category>)
    requires db.Valid()
    modifies db
    ensures db.Valid()
    ensures db.posts == old(db.posts) && db.tags == old(db.tags)
    ensures db.nextPostId == old(db.nextPostId) && db.nextCategoryId == old(db.nextCategoryId) && db.nextTagId == old(db.nextTagId)
    ensures r.None? <==> PostCount(old(db.posts), id) > 0 || !Has(old(db.categories), CategoryId, id)
    ensures r.None? ==> db.categories == old(db.categories)
    ensures r.Some? ==> r == Find(old(db.categories), CategoryId, id) && db.categories == Without(old(db.categories), CategoryId, id)
  {
    var postsCount := PostCount(db.posts, id);
    if postsCount > 0 {
      return None;
    }
    r := Find(db.categories, CategoryId, id);
    if r.Some? {
      var rest := Without(db.categories, CategoryId, id);
      KeyedWithout(db.categories, CategoryId, CategorySlug, db.nextCategoryId, id);
      forall p | p in db.posts ensures Has(rest, CategoryId, p.categoryId) {
        var c :| c in db.categories && c.id == p.categoryId;
        assert c in rest;
      }
      db.categories := rest;
    }
  }
}
