/** `TagService`: listing tags by name, looking them up singly and in bulk, creating and renaming them
    with unique slugs, and deleting a tag after detaching it from the posts that carry it. */
module TagService {
  import opened Wrappers
  import opened Strings
  import opened Sorting
  import opened ContentStore

  /** `orderBy: { name: 'asc' }` */
  predicate ByName(a: Tag, b: Tag) {
    LexLe(a.name, b.name)
  }

  lemma {:induction false} ByNameTotal()
    ensures Total(ByName)
  {
    forall a: Tag, b: Tag ensures ByName(a, b) || ByName(b, a) {
      LexLeTotal(a.name, b.name);
    }
  }

  /** `findAll()`: every tag, in ascending order of name; in a keyed table each tag once, with
      ids and slugs still unique. */
  function FindAll(db: Database): (r: seq<Tag>)
    reads db
    ensures multiset(r) == multiset(db.tags)
    ensures Sorted(r, ByName)
    ensures Keyed(db.tags, TagId, TagSlug, db.nextTagId) ==>
              Keyed(r, TagId, TagSlug, db.nextTagId) && Distinct(r)
  {
    ByNameTotal();
    var r := Sort(db.tags, ByName);
    KeyedPermutation(db.tags, r, TagId, TagSlug, db.nextTagId);
    KeyedDistinct(r, TagId, TagSlug, db.nextTagId);
    r
  }

  /** `findById(id)` */
  function FindById(db: Database, id: int): (r: Option<Tag>)
    reads db
    ensures r.None? <==> !Has(db.tags, TagId, id)
    ensures r.Some? ==> r.value.id == id && r.value in db.tags
  {
    Find(db.tags, TagId, id)
  }

  /** `findMany({ where: { id: { in: ids } } })`, in table order. */
  function WithIds(tags: seq<Tag>, ids: seq<int>): (r: seq<Tag>)
    ensures forall t :: t in r <==> t in tags && t.id in ids
    ensures |r| <= |tags|
  {
    if tags == [] then []
    else if tags[0].id in ids then [tags[0]] + WithIds(tags[1..], ids)
    else WithIds(tags[1..], ids)
  }

  /** `findByIds(ids)`: the tags whose id is listed; ids no tag has are skipped, and a keyed table
      gives each listed tag once (`WithIdsKeyed`). */
  function FindByIds(db: Database, ids: seq<int>): (r: seq<Tag>)
    reads db
    ensures forall t :: t in r <==> t in db.tags && t.id in ids
  {
    WithIds(db.tags, ids)
  }

  /** In a keyed table the bulk lookup is keyed too: no tag comes back twice. */
  lemma {:induction false} WithIdsKeyed(tags: seq<Tag>, next: int, ids: seq<int>)
    requires Keyed(tags, TagId, TagSlug, next)
    ensures Keyed(WithIds(tags, ids), TagId, TagSlug, next)
  {
    if tags != [] {
      var tail := tags[1..];
      KeyedTail(tags, TagId, TagSlug, next);
      WithIdsKeyed(tail, next, ids);
      if tags[0].id in ids {
        var w := WithIds(tail, ids);
        forall y | y in w ensures TagId(tags[0]) != TagId(y) && TagSlug(tags[0]) != TagSlug(y) {
          var m :| 0 <= m < |tail| && tail[m] == y;
          assert tags[m + 1] == y && Apart(tags, TagId, TagSlug, 0, m + 1);
        }
        assert tags[0] in tags;
        KeyedCons(tags[0], w, TagId, TagSlug, next);
      }
    }
  }

  /** In a keyed table the bulk lookup finds exactly one tag per listed id that some tag has. */
  lemma {:induction false} FindByIdsPerId(tags: seq<Tag>, next: int, ids: seq<int>, id: int)
    requires Keyed(tags, TagId, TagSlug, next) && id in ids && Has(tags, TagId, id)
    ensures Find(tags, TagId, id).value in WithIds(tags, ids)
    ensures forall t :: t in WithIds(tags, ids) && t.id == id ==> t == Find(tags, TagId, id).value
  {
    KeyedRows(tags, TagId, TagSlug, next);
    var x := Find(tags, TagId, id).value;
    assert x in tags && x.id in ids;
    forall t | t in WithIds(tags, ids) && t.id == id ensures t == x {
      assert t in tags;
      assert TagId(t) == TagId(x);
    }
  }

  /** `findBySlug(slug)` */
  function FindBySlug(db: Database, slug: string): (r: Option<Tag>)
    reads db
    ensures r.None? <==> !Has(db.tags, TagSlug, slug)
    ensures r.Some? ==> r.value.slug == slug && r.value in db.tags
  {
    Find(db.tags, TagSlug, slug)
  }

  /** `create(name)`: the slug is the slugified name, with `-<now>` appended when a tag already has it;
      the store refuses the row (it throws) when that slug is still taken, and otherwise appends it
      under the next id. */
  method Create(db: Database, name: string, slugify: string -> string, now: int) returns (r: Option<Tag>)
    requires db.Valid()
    modifies db
    ensures db.Valid()
    ensures db.posts == old(db.posts) && db.categories == old(db.categories)
    ensures db.nextPostId == old(db.nextPostId) && db.nextCategoryId == old(db.nextCategoryId)
    ensures var base := slugify(name);
            var t := Tag(old(db.nextTagId), name, Suffixed(base, Has(old(db.tags), TagSlug, base), now), now, None);
            (r.None? <==> Has(old(db.tags), TagSlug, t.slug))
            && (r.None? ==> db.tags == old(db.tags) && db.nextTagId == old(db.nextTagId))
            && (r.Some? ==> r.value == t && db.tags == old(db.tags) + [t] && db.nextTagId == old(db.nextTagId) + 1)
  {
    var slug := slugify(name);
    var existing := Find(db.tags, TagSlug, slug);
    slug := Suffixed(slug, existing.Some?, now);
    if Has(db.tags, TagSlug, slug) {
      return None;
    }
    var t := Tag(db.nextTagId, name, slug, now, None);
    KeyedAppend(db.tags, TagId, TagSlug, db.nextTagId, t);
    forall p | p in db.posts ensures forall i :: i in p.tagIds ==> Has(db.tags + [t], TagId, i) {
      forall i | i in p.tagIds ensures Has(db.tags + [t], TagId, i) {
        var x :| x in db.tags && x.id == i;
        assert x in db.tags + [t];
      }
    }
    db.tags := db.tags + [t];
    db.nextTagId := db.nextTagId + 1;
    r := Some(t);
  }

  /** The row `update(id, name)` writes: the name always, a new slug only when the name differs from
      the old one (suffixed with `-<now>` when another tag has it), and `updatedAt` now. */
  function Renamed(tags: seq<Tag>, existing: Tag, name: string, slugify: string -> string, now: int): (t: Tag)
    ensures t.id == existing.id && t.name == name && t.createdAt == existing.createdAt && t.updatedAt == Some(now)
    ensures name == existing.name ==> t.slug == existing.slug
    ensures name != existing.name ==>
              var base := slugify(name);
              (t.slug == base <==> !TakenByOther(tags, TagId, TagSlug, base, existing.id))
              && (t.slug != base ==> t.slug == base + "-" + IntToString(now))
  {
    var slug :=
      if name != existing.name then
        var base := slugify(name);
        Suffixed(base, TakenByOther(tags, TagId, TagSlug, base, existing.id), now)
      else existing.slug;
    existing.(name := name, slug := slug, updatedAt := Some(now))
  }

  /** `update(id, name)`: null for a missing id, writing nothing; the store refuses a row whose slug
      another tag has, writing nothing; otherwise the row becomes `Renamed`. */
  method Update(db: Database, id: int, name: string, slugify: string -> string, now: int) returns (r: Written<Tag>)
    requires db.Valid()
    modifies db
    ensures db.Valid()
    ensures db.posts == old(db.posts) && db.categories == old(db.categories)
    ensures db.nextPostId == old(db.nextPostId) && db.nextCategoryId == old(db.nextCategoryId) && db.nextTagId == old(db.nextTagId)
    ensures !Has(old(db.tags), TagId, id) ==> r == NotFound && db.tags == old(db.tags)
    ensures Has(old(db.tags), TagId, id) ==>
              var t := Renamed(old(db.tags), Find(old(db.tags), TagId, id).value, name, slugify, now);
              (r == Refused <==> TakenByOther(old(db.tags), TagId, TagSlug, t.slug, id))
              && (r == Refused ==> db.tags == old(db.tags))
              && (r != Refused ==> r == Written(t) && db.tags == Replace(old(db.tags), TagId, id, t))
  {
    var existing := Find(db.tags, TagId, id);
    if existing.None? {
      return NotFound;
    }
    var t := Renamed(db.tags, existing.value, name, slugify, now);
    if TakenByOther(db.tags, TagId, TagSlug, t.slug, id) {
      return Refused;
    }
    KeyedReplace(db.tags, TagId, TagSlug, db.nextTagId, id, t);
    forall p | p in db.posts ensures forall i :: i in p.tagIds ==> Has(Replace(db.tags, TagId, id, t), TagId, i) {
      forall i | i in p.tagIds ensures Has(Replace(db.tags, TagId, id, t), TagId, i) {
        HasReplace(db.tags, TagId, id, t, i);
      }
    }
    db.tags := Replace(db.tags, TagId, id, t);
    r := Written(t);
  }

  // ------------------------------------------------------------------ deleting a tag

  /** The selector of a `post.update`: a post's id, which is unique, or "a post carrying the tag",
      which is not. */
  datatype PostWhere = ById(id: int) | WithTag(tagId: int)

  /** `post.update({ where, data: { tags: { disconnect: { id: tagId } } } })`. An update selects one row
      by a unique field, so the store rejects a selector that is not unique (it throws) whatever the
      table holds; for an id it throws when no post has it. Otherwise that post loses the tag. */
  function UpdateDisconnect(posts: seq<Post>, where: PostWhere, tagId: int): (r: Option<seq<Post>>)
    ensures where.WithTag? ==> r.None?
    ensures where.ById? ==> (r.None? <==> !Has(posts, PostId, where.id))
    ensures r.Some? ==> |r.value| == |posts|
  {
    match where
    case WithTag(_) => None
    case ById(id) =>
      match Find(posts, PostId, id)
      case None => None
      case Some(p) => Some(Replace(posts, PostId, id, p.(tagIds := p.tagIds - {tagId})))
  }

  /** `delete(id)` as written: it first detaches the tag through a `post.update` selecting "a post
      carrying the tag", which the store always rejects, so the catch answers null before the tag is
      ever deleted. The operation deletes nothing, for every tag. */
  function DeleteAsWritten(posts: seq<Post>, tags: seq<Tag>, id: int): (r: (Option<Tag>, seq<Post>, seq<Tag>))
    ensures r == (None, posts, tags)
  {
    match UpdateDisconnect(posts, WithTag(id), id)
    case None => (None, posts, tags)
    case Some(detached) => (Find(tags, TagId, id), detached, Without(tags, TagId, id))
  }

  /** `post.updateMany` disconnecting the tag: every post loses the tag and nothing else. */
  function Disconnect(posts: seq<Post>, tagId: int): (r: seq<Post>)
    ensures |r| == |posts|
  {
    if posts == [] then []
    else [posts[0].(tagIds := posts[0].tagIds - {tagId})] + Disconnect(posts[1..], tagId)
  }

  /** Detaching a tag removes it from every post, position by position, and changes nothing else. */
  lemma {:induction false} DisconnectAt(posts: seq<Post>, tagId: int)
    ensures forall k :: 0 <= k < |posts| ==> Disconnect(posts, tagId)[k] == posts[k].(tagIds := posts[k].tagIds - {tagId})
    decreases |posts|
  {
    if posts != [] {
      DisconnectAt(posts[1..], tagId);
      var r := Disconnect(posts, tagId);
      assert r == [posts[0].(tagIds := posts[0].tagIds - {tagId})] + Disconnect(posts[1..], tagId);
      forall k | 0 < k < |posts| ensures r[k] == posts[k].(tagIds := posts[k].tagIds - {tagId}) {
        assert r[k] == Disconnect(posts[1..], tagId)[k - 1];
        assert posts[1..][k - 1] == posts[k];
      }
    }
  }

  /** Every post after detaching is a post of before, minus the tag. */
  lemma DisconnectedFrom(posts: seq<Post>, tagId: int, p: Post) returns (q: Post)
    requires p in Disconnect(posts, tagId)
    ensures q in posts && p == q.(tagIds := q.tagIds - {tagId})
    ensures tagId !in p.tagIds
  {
    var r := Disconnect(posts, tagId);
    var i :| 0 <= i < |r| && r[i] == p;
    DisconnectAt(posts, tagId);
    q := posts[i];
  }

  /** Detaching a tag keeps post ids and slugs unique. */
  lemma DisconnectKeyed(posts: seq<Post>, next: int, tagId: int)
    requires Keyed(posts, PostId, PostSlug, next)
    ensures Keyed(Disconnect(posts, tagId), PostId, PostSlug, next)
  {
    var r := Disconnect(posts, tagId);
    DisconnectAt(posts, tagId);
    forall i, j | 0 <= i < j < |r| ensures Apart(r, PostId, PostSlug, i, j) {
      assert Apart(posts, PostId, PostSlug, i, j);
    }
  }

  /** `delete(id)` as intended: null for a missing tag, writing nothing; otherwise the tag is detached
      from every post carrying it and then deleted, so no post is left linked to a missing tag. */
  method Delete(db: Database, id: int) returns (r: Option<Tag>)
    requires db.Valid()
    modifies db
    ensures db.Valid()
    ensures db.categories == old(db.categories)
    ensures db.nextPostId == old(db.nextPostId) && db.nextCategoryId == old(db.nextCategoryId) && db.nextTagId == old(db.nextTagId)
    ensures r.None? <==> !Has(old(db.tags), TagId, id)
    ensures r.None? ==> db.posts == old(db.posts) && db.tags == old(db.tags)
    ensures r.Some? ==>
              r == Find(old(db.tags), TagId, id)
              && db.posts == Disconnect(old(db.posts), id)
              && db.tags == Without(old(db.tags), TagId, id)
  {
    r := Find(db.tags, TagId, id);
    if r.None? {
      return;
    }
    var posts := Disconnect(db.posts, id);
    var tags := Without(db.tags, TagId, id);
    DisconnectKeyed(db.posts, db.nextPostId, id);
    KeyedWithout(db.tags, TagId, TagSlug, db.nextTagId, id);
    forall p | p in posts ensures Has(db.categories, CategoryId, p.categoryId) && forall i :: i in p.tagIds ==> Has(tags, TagId, i) {
      var q := DisconnectedFrom(db.posts, id, p);
      forall i | i in p.tagIds ensures Has(tags, TagId, i) {
        var x :| x in db.tags && x.id == i;
        assert x in tags;
      }
    }
    db.posts := posts;
    db.tags := tags;
  }
}
