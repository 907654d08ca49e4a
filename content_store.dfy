/** The store behind the content services: the post, category and tag tables, with the unique ids
    and slugs, the id sequences and the references from posts to categories and tags that the
    database keeps, and the table operations the services' queries and writes come down to. */
module ContentStore {
  import opened Wrappers
  import opened Strings
  import opened Sorting

  datatype Status = Draft | Published | Archived
  datatype Visibility = Public | Private | Members

  /** A post row. `tagIds` is the post's side of the post-tag relation. Dates are milliseconds. */
  datatype Post = Post(
    id: int,
    title: string,
    content: string,
    excerpt: string,
    slug: string,
    authorId: int,
    categoryId: int,
    tagIds: set<int>,
    featuredImage: Option<string>,
    status: Status,
    visibility: Visibility,
    publishedAt: Option<int>,
    createdAt: int,
    updatedAt: Option<int>,
    viewCount: int,
    commentCount: int,
    likeCount: int)

  datatype Category = Category(id: int, name: string, slug: string, description: Option<string>, createdAt: int, updatedAt: Option<int>)

  datatype Tag = Tag(id: int, name: string, slug: string, createdAt: int, updatedAt: Option<int>)

  function PostId(p: Post): int { p.id }
  function PostSlug(p: Post): string { p.slug }
  function CategoryId(c: Category): int { c.id }
  function CategorySlug(c: Category): string { c.slug }
  function TagId(t: Tag): int { t.id }
  function TagSlug(t: Tag): string { t.slug }

  // ------------------------------------------------------------------ one table

  /** Some row has `value` in the column `key`. */
  predicate Has<T(==,!new), K(==)>(rows: seq<T>, key: T -> K, value: K) {
    exists x :: x in rows && key(x) == value
  }

  /** `findUnique`/`findFirst` on one column: the first row holding the value. */
  function Find<T(==,!new), K(==)>(rows: seq<T>, key: T -> K, value: K): (r: Option<T>)
    ensures r.None? <==> !Has(rows, key, value)
    ensures r.Some? ==> key(r.value) == value && r.value in rows
  {
    if rows == [] then None
    else if key(rows[0]) == value then Some(rows[0])
    else
      assert forall x :: x in rows <==> x == rows[0] || x in rows[1..];
      Find(rows[1..], key, value)
  }

  /** `findFirst({ where: { slug, id: { not: self } } })`: a row other than `self` has the slug. */
  predicate TakenByOther<T(==,!new)>(rows: seq<T>, id: T -> int, slug: T -> string, s: string, self: int) {
    exists x :: x in rows && slug(x) == s && id(x) != self
  }

  /** No two positions of the table share an id or a slug, and every id is below the one the
      sequence hands out next. */
  ghost predicate Keyed<T(!new)>(rows: seq<T>, id: T -> int, slug: T -> string, next: int) {
    (forall k :: 0 <= k < |rows| ==> id(rows[k]) < next)
    && (forall i, j :: 0 <= i < j < |rows| ==> Apart(rows, id, slug, i, j))
  }

  /** The rows at positions `i` and `j` differ in id and in slug. */
  predicate Apart<T>(rows: seq<T>, id: T -> int, slug: T -> string, i: nat, j: nat)
    requires i < |rows| && j < |rows|
  {
    id(rows[i]) != id(rows[j]) && slug(rows[i]) != slug(rows[j])
  }

  /** The same, said of the rows a keyed table holds: two different rows differ in id and in slug,
      and no row is held twice. */
  lemma KeyedRows<T(!new)>(rows: seq<T>, id: T -> int, slug: T -> string, next: int)
    requires Keyed(rows, id, slug, next)
    ensures forall x :: x in rows ==> id(x) < next
    ensures forall x, y :: x in rows && y in rows && x != y ==> id(x) != id(y) && slug(x) != slug(y)
    ensures Distinct(rows)
  {
    forall x, y | x in rows && y in rows && x != y
      ensures id(x) != id(y) && slug(x) != slug(y)
    {
      var i :| 0 <= i < |rows| && rows[i] == x;
      var j :| 0 <= j < |rows| && rows[j] == y;
      if i < j {
        assert Apart(rows, id, slug, i, j);
      } else {
        assert Apart(rows, id, slug, j, i);
      }
    }
    forall i, j | 0 <= i < j < |rows| ensures rows[i] != rows[j] {
      assert Apart(rows, id, slug, i, j);
    }
  }

  /** A keyed table holds no row twice. */
  lemma KeyedDistinct<T(!new)>(rows: seq<T>, id: T -> int, slug: T -> string, next: int)
    ensures Keyed(rows, id, slug, next) ==> Distinct(rows)
  {
    if Keyed(rows, id, slug, next) {
      KeyedRows(rows, id, slug, next);
    }
  }

  /** Any rearrangement of a keyed table is keyed: a listing holds every row once. */
  lemma KeyedPermutation<T(!new)>(rows: seq<T>, r: seq<T>, id: T -> int, slug: T -> string, next: int)
    requires multiset(r) == multiset(rows)
    ensures Keyed(rows, id, slug, next) ==> Keyed(r, id, slug, next)
  {
    if Keyed(rows, id, slug, next) {
      KeyedRows(rows, id, slug, next);
      PermutationDistinct(rows, r);
      forall k | 0 <= k < |r| ensures r[k] in rows {
        assert r[k] in multiset(r);
      }
      forall i, j | 0 <= i < j < |r| ensures Apart(r, id, slug, i, j) {
        assert r[i] in rows && r[j] in rows && r[i] != r[j];
      }
    }
  }

  /** In a keyed table the row found by id is the only row with that id. */
  lemma FindKeyed<T(!new)>(rows: seq<T>, id: T -> int, slug: T -> string, next: int, x: T)
    requires Keyed(rows, id, slug, next) && x in rows
    ensures Find(rows, id, id(x)) == Some(x)
  {
    KeyedRows(rows, id, slug, next);
  }

  /** `delete({ where: { id } })` on the rows: every row with the id goes, the others stay in order. */
  function Without<T(==,!new)>(rows: seq<T>, id: T -> int, value: int): (r: seq<T>)
    ensures forall x :: x in r <==> x in rows && id(x) != value
    ensures |r| <= |rows|
  {
    if rows == [] then []
    else if id(rows[0]) == value then Without(rows[1..], id, value)
    else [rows[0]] + Without(rows[1..], id, value)
  }

  /** Deleting by id keeps a table keyed. */
  lemma {:induction false} KeyedWithout<T(!new)>(rows: seq<T>, id: T -> int, slug: T -> string, next: int, value: int)
    requires Keyed(rows, id, slug, next)
    ensures Keyed(Without(rows, id, value), id, slug, next)
  {
    if rows != [] {
      var tail := rows[1..];
      KeyedTail(rows, id, slug, next);
      KeyedWithout(tail, id, slug, next, value);
      if id(rows[0]) != value {
        var w := Without(tail, id, value);
        forall y | y in w ensures id(rows[0]) != id(y) && slug(rows[0]) != slug(y) {
          var m :| 0 <= m < |tail| && tail[m] == y;
          assert rows[m + 1] == y && Apart(rows, id, slug, 0, m + 1);
        }
        KeyedCons(rows[0], w, id, slug, next);
      }
    }
  }

  lemma KeyedTail<T(!new)>(rows: seq<T>, id: T -> int, slug: T -> string, next: int)
    requires Keyed(rows, id, slug, next) && rows != []
    ensures Keyed(rows[1..], id, slug, next)
  {
    var tail := rows[1..];
    forall i, j | 0 <= i < j < |tail| ensures Apart(tail, id, slug, i, j) {
      assert tail[i] == rows[i + 1] && tail[j] == rows[j + 1] && Apart(rows, id, slug, i + 1, j + 1);
    }
  }

  lemma KeyedCons<T(!new)>(x: T, w: seq<T>, id: T -> int, slug: T -> string, next: int)
    requires Keyed(w, id, slug, next) && id(x) < next
    requires forall y :: y in w ==> id(x) != id(y) && slug(x) != slug(y)
    ensures Keyed([x] + w, id, slug, next)
  {
    var r := [x] + w;
    forall i, j | 0 <= i < j < |r| ensures Apart(r, id, slug, i, j) {
      assert r[j] == w[j - 1] && r[j] in w;
      if i > 0 {
        assert r[i] == w[i - 1] && Apart(w, id, slug, i - 1, j - 1);
      }
    }
  }

  /** `update({ where: { id } })` on the rows: every row with the id becomes `row`. */
  function Replace<T(==,!new)>(rows: seq<T>, id: T -> int, value: int, row: T): (r: seq<T>)
    ensures |r| == |rows|
    ensures forall k :: 0 <= k < |rows| ==> r[k] == if id(rows[k]) == value then row else rows[k]
  {
    if rows == [] then []
    else [if id(rows[0]) == value then row else rows[0]] + Replace(rows[1..], id, value, row)
  }

  /** What the replaced table holds: the new row where the id was, every other row as it was. */
  lemma ReplaceMembers<T(!new)>(rows: seq<T>, id: T -> int, value: int, row: T)
    requires Has(rows, id, value)
    ensures var r := Replace(rows, id, value, row);
            row in r && forall x :: x in r <==> x == row || (x in rows && id(x) != value)
  {
    var r := Replace(rows, id, value, row);
    var x0 :| x0 in rows && id(x0) == value;
    var k0 :| 0 <= k0 < |rows| && rows[k0] == x0;
    assert r[k0] == row;
    forall x | x in rows && id(x) != value ensures x in r {
      var k :| 0 <= k < |rows| && rows[k] == x;
      assert r[k] == x;
    }
    forall x | x in r ensures x == row || (x in rows && id(x) != value) {
      var k :| 0 <= k < |r| && r[k] == x;
    }
  }

  /** A row with a fresh id and an unused slug can be added to a keyed table. */
  lemma KeyedAppend<T(!new)>(rows: seq<T>, id: T -> int, slug: T -> string, next: int, row: T)
    requires Keyed(rows, id, slug, next) && id(row) == next && !Has(rows, slug, slug(row))
    ensures Keyed(rows + [row], id, slug, next + 1)
  {
    var r := rows + [row];
    forall i, j | 0 <= i < j < |r| ensures Apart(r, id, slug, i, j) {
      assert r[i] == rows[i];
      if j < |rows| {
        assert r[j] == rows[j] && Apart(rows, id, slug, i, j);
      } else {
        assert r[j] == row && rows[i] in rows;
      }
    }
  }

  /** Replacing the row holding an id by a row with the same id, whose slug no other row has, keeps
      the table keyed. */
  lemma KeyedReplace<T(!new)>(rows: seq<T>, id: T -> int, slug: T -> string, next: int, value: int, row: T)
    requires Keyed(rows, id, slug, next) && Has(rows, id, value) && id(row) == value
    requires !TakenByOther(rows, id, slug, slug(row), value)
    ensures Keyed(Replace(rows, id, value, row), id, slug, next)
  {
    var r := Replace(rows, id, value, row);
    var x0 :| x0 in rows && id(x0) == value;
    forall k | 0 <= k < |r| ensures id(r[k]) < next {
      assert rows[k] in rows;
    }
    forall i, j | 0 <= i < j < |r| ensures Apart(r, id, slug, i, j) {
      assert Apart(rows, id, slug, i, j);
      assert rows[i] in rows && rows[j] in rows;
    }
  }

  /** In a keyed table the slug of the row holding an id is taken by no other row. */
  lemma OwnSlugNotTaken<T(!new)>(rows: seq<T>, id: T -> int, slug: T -> string, next: int, value: int, x: T)
    requires Keyed(rows, id, slug, next) && Find(rows, id, value) == Some(x)
    ensures !TakenByOther(rows, id, slug, slug(x), value)
  {
    KeyedRows(rows, id, slug, next);
  }

  /** Ids survive a replacement that keeps the id. */
  lemma HasReplace<T(!new)>(rows: seq<T>, id: T -> int, value: int, row: T, other: int)
    requires Has(rows, id, value) && id(row) == value
    ensures Has(Replace(rows, id, value, row), id, other) <==> Has(rows, id, other)
  {
    ReplaceMembers(rows, id, value, row);
  }

  /** What a service's update by id does: writes the row, finds no row (the service answers null), or
      is refused by the store (it throws). */
  datatype Written<T> = Written(row: T) | NotFound | Refused

  // ------------------------------------------------------------------ slugs

  /** The slug a service settles on: the slugified name, with `-<now>` appended when that slug is
      already taken. */
  function Suffixed(base: string, taken: bool, now: int): (slug: string)
    ensures slug == base <==> !taken
    ensures taken ==> slug == base + "-" + IntToString(now)
  {
    if taken then base + "-" + IntToString(now) else base
  }

  // ------------------------------------------------------------------ the database

  /** Every post's category exists, and so does every tag the post is linked to. */
  ghost predicate Linked(posts: seq<Post>, categories: seq<Category>, tags: seq<Tag>) {
    forall p :: p in posts ==>
      Has(categories, CategoryId, p.categoryId) && forall t :: t in p.tagIds ==> Has(tags, TagId, t)
  }

  /** The tables the content services share, and the next id of each table's sequence. */
  class Database {
    var posts: seq<Post>
    var categories: seq<Category>
    var tags: seq<Tag>
    var nextPostId: int
    var nextCategoryId: int
    var nextTagId: int

    ghost predicate Valid()
      reads this
    {
      Keyed(posts, PostId, PostSlug, nextPostId)
      && Keyed(categories, CategoryId, CategorySlug, nextCategoryId)
      && Keyed(tags, TagId, TagSlug, nextTagId)
      && Linked(posts, categories, tags)
    }

    /** An empty database. */
    constructor ()
      ensures Valid()
      ensures posts == [] && categories == [] && tags == []
      ensures nextPostId == 1 && nextCategoryId == 1 && nextTagId == 1
    {
      posts := [];
      categories := [];
      tags := [];
      nextPostId := 1;
      nextCategoryId := 1;
      nextTagId := 1;
    }
  }
}
