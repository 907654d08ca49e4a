/** `PostService`: listing, looking up, creating, updating and deleting posts in the database, with
    the `where` object `findAll` builds from its filters, the slug a post gets from its title, and
    the newest-first order of listings. */
module PostService {
  import opened Wrappers
  import opened Strings
  import opened Sorting
  import opened ContentStore

  /** `status: 'draft' | 'published' | 'archived' | 'all'` */
  datatype StatusFilter = Only(status: Status) | All

  /** `findAll`'s default status. */
  const DefaultStatus: StatusFilter := Only(Published)

  /** The default `skip` and `take` of `findAll` and `findByAuthor`. */
  const DefaultSkip: nat := 0
  const DefaultTake: nat := 10

  /** The filters of `findAll`; an id or text the caller leaves out is None. */
  datatype PostFilter = PostFilter(
    status: StatusFilter,
    categoryId: Option<int>,
    authorId: Option<int>,
    tag: Option<string>,
    search: Option<string>)

  /** `findAll()` with every argument left out. */
  const DefaultFilter: PostFilter := PostFilter(DefaultStatus, None, None, None, None)

  /** The `where` object of a post query. Each field that is Some is one condition. */
  datatype Where = Where(
    status: Option<Status>,
    visibility: Option<Visibility>,
    categoryId: Option<int>,
    authorId: Option<int>,
    tagName: Option<string>,
    search: Option<string>)

  /** `{}` */
  const NoCondition: Where := Where(None, None, None, None, None, None)

  /** `tags: { some: { name } }`: one of the post's tags has the name. */
  predicate HasTagNamed(p: Post, tags: seq<Tag>, name: string) {
    exists t :: t in tags && t.id in p.tagIds && t.name == name
  }

  /** `OR: [{ title: { contains: q, mode: 'insensitive' } }, { content: ... }]` */
  predicate Mentions(p: Post, q: string) {
    ContainsIgnoringCase(p.title, q) || ContainsIgnoringCase(p.content, q)
  }

  /** How the store reads a `where`: a post satisfies it when it meets every condition present. */
  predicate Satisfies(p: Post, tags: seq<Tag>, w: Where) {
    (w.status.None? || p.status == w.status.value)
    && (w.visibility.None? || p.visibility == w.visibility.value)
    && (w.categoryId.None? || p.categoryId == w.categoryId.value)
    && (w.authorId.None? || p.authorId == w.authorId.value)
    && (w.tagName.None? || HasTagNamed(p, tags, w.tagName.value))
    && (w.search.None? || Mentions(p, w.search.value))
  }

  /** A filter value JavaScript treats as given: an id other than 0, a non-empty text. */
  predicate GivenId(id: Option<int>) {
    id.Some? && id.value != 0
  }

  predicate GivenText(s: Option<string>) {
    s.Some? && s.value != ""
  }

  /** The posts a listing with filter `f` is meant to show: public ones only, of the requested
      status unless all are asked for, and narrowed by each filter that is given. */
  predicate Listed(p: Post, tags: seq<Tag>, f: PostFilter) {
    p.visibility == Public
    && (f.status.Only? ==> p.status == f.status.status)
    && (GivenId(f.categoryId) ==> p.categoryId == f.categoryId.value)
    && (GivenId(f.authorId) ==> p.authorId == f.authorId.value)
    && (GivenText(f.tag) ==> HasTagNamed(p, tags, f.tag.value))
    && (GivenText(f.search) ==> Mentions(p, f.search.value))
  }

  /** `findAll` building its `where` field by field: the conditions it ends up with select exactly the
      posts the filter is meant to show. */
  method BuildWhere(f: PostFilter) returns (w: Where)
    ensures forall p, tags :: Satisfies(p, tags, w) <==> Listed(p, tags, f)
  {
    w := NoCondition;
    if f.status.Only? {
      w := w.(status := Some(f.status.status));
    }
    w := w.(visibility := Some(Public));
    if GivenId(f.categoryId) {
      w := w.(categoryId := f.categoryId);
    }
    if GivenId(f.authorId) {
      w := w.(authorId := f.authorId);
    }
    if GivenText(f.tag) {
      w := w.(tagName := f.tag);
    }
    if GivenText(f.search) {
      w := w.(search := f.search);
    }
  }

  /** The rows of the post table a `where` selects, in table order. */
  function Select(posts: seq<Post>, tags: seq<Tag>, w: Where): (r: seq<Post>)
    ensures forall p :: p in r <==> p in posts && Satisfies(p, tags, w)
    ensures |r| <= |posts|
  {
    if posts == [] then []
    else if Satisfies(posts[0], tags, w) then [posts[0]] + Select(posts[1..], tags, w)
    else Select(posts[1..], tags, w)
  }

  /** The posts a filter is meant to show, in table order. */
  function Matching(posts: seq<Post>, tags: seq<Tag>, f: PostFilter): (r: seq<Post>)
    ensures forall p :: p in r <==> p in posts && Listed(p, tags, f)
  {
    if posts == [] then []
    else if Listed(posts[0], tags, f) then [posts[0]] + Matching(posts[1..], tags, f)
    else Matching(posts[1..], tags, f)
  }

  /** A `where` that selects exactly the intended posts selects them in the same order too. */
  lemma {:induction false} SelectMatching(posts: seq<Post>, tags: seq<Tag>, w: Where, f: PostFilter)
    requires forall p :: Satisfies(p, tags, w) <==> Listed(p, tags, f)
    ensures Select(posts, tags, w) == Matching(posts, tags, f)
  {
    if posts != [] {
      SelectMatching(posts[1..], tags, w, f);
    }
  }

  /** `orderBy: { createdAt: 'desc' }` */
  predicate NewestFirst(a: Post, b: Post) {
    a.createdAt >= b.createdAt
  }

  lemma NewestFirstTotal()
    ensures Total(NewestFirst)
  {
  }

  /** The rows in listing order, newest first; rows created at the same instant keep their table
      order. */
  function NewestFirstOrder(posts: seq<Post>): (r: seq<Post>)
    ensures multiset(r) == multiset(posts) && Sorted(r, NewestFirst)
  {
    NewestFirstTotal();
    Sort(posts, NewestFirst)
  }

  /** `findAll(skip, take, status, categoryId, authorId, tag, searchQuery)`: the store refuses a
      negative skip or take; otherwise the page `[skip, skip + take)` of the intended posts, newest
      first, and how many posts are intended in all. */
  method FindAll(db: Database, skip: int, take: int, f: PostFilter) returns (r: Option<(seq<Post>, nat)>)
    ensures r.None? <==> skip < 0 || take < 0
    ensures r.Some? ==>
              var matching := Matching(db.posts, db.tags, f);
              r.value == (Page(NewestFirstOrder(matching), skip, take), |matching|)
  {
    if skip < 0 || take < 0 {
      return None;
    }
    var w := BuildWhere(f);
    var matching := Select(db.posts, db.tags, w);
    SelectMatching(db.posts, db.tags, w, f);
    r := Some((Page(NewestFirstOrder(matching), skip, take), |matching|));
  }

  /** A listing page holds only intended posts of the table, newest first, and never more than the
      total it reports. */
  lemma ListingPage(posts: seq<Post>, tags: seq<Tag>, f: PostFilter, skip: nat, take: nat)
    ensures var matching := Matching(posts, tags, f);
            var page := Page(NewestFirstOrder(matching), skip, take);
            Sorted(page, NewestFirst) && |page| <= |matching|
            && forall p :: p in page ==> p in posts && Listed(p, tags, f)
  {
    var matching := Matching(posts, tags, f);
    var sorted := NewestFirstOrder(matching);
    PageSorted(sorted, skip, take, NewestFirst);
    forall p | p in Page(sorted, skip, take) ensures p in posts && Listed(p, tags, f) {
      PageMember(sorted, skip, take, p);
      assert p in multiset(sorted);
    }
  }

  /** `findAll()` with no arguments lists the ten newest public published posts: the page holds
      ten posts, or all of them when there are fewer, and only such posts. */
  lemma DefaultListing(posts: seq<Post>, tags: seq<Tag>)
    ensures var matching := Matching(posts, tags, DefaultFilter);
            var page := Page(NewestFirstOrder(matching), DefaultSkip, DefaultTake);
            (forall p :: p in matching <==> p in posts && p.visibility == Public && p.status == Published)
            && |page| == (if |matching| < 10 then |matching| else 10)
            && Sorted(page, NewestFirst)
            && forall p :: p in page ==> p in posts && p.visibility == Public && p.status == Published
  {
    ListingPage(posts, tags, DefaultFilter, DefaultSkip, DefaultTake);
  }

  /** `findByAuthor(authorId, skip, take)`: like `findAll` with the author as the only condition, so
      the author's drafts and non-public posts are listed too. */
  method FindByAuthor(db: Database, authorId: int, skip: int, take: int) returns (r: Option<(seq<Post>, nat)>)
    ensures r.None? <==> skip < 0 || take < 0
    ensures r.Some? ==>
              var selected := Select(db.posts, db.tags, NoCondition.(authorId := Some(authorId)));
              r.value == (Page(NewestFirstOrder(selected), skip, take), |selected|)
              && forall p :: p in selected <==> p in db.posts && p.authorId == authorId
  {
    if skip < 0 || take < 0 {
      return None;
    }
    var selected := Select(db.posts, db.tags, NoCondition.(authorId := Some(authorId)));
    r := Some((Page(NewestFirstOrder(selected), skip, take), |selected|));
  }

  /** `findById(id)` */
  function FindById(db: Database, id: int): (r: Option<Post>)
    reads db
    ensures r.None? <==> !Has(db.posts, PostId, id)
    ensures r.Some? ==> r.value.id == id && r.value in db.posts
  {
    Find(db.posts, PostId, id)
  }

  /** `findBySlug(slug)` */
  function FindBySlug(db: Database, slug: string): (r: Option<Post>)
    reads db
    ensures r.None? <==> !Has(db.posts, PostSlug, slug)
    ensures r.Some? ==> r.value.slug == slug && r.value in db.posts
  {
    Find(db.posts, PostSlug, slug)
  }

  /** The fields a caller creates a post with. */
  datatype NewPost = NewPost(
    title: string,
    content: string,
    excerpt: string,
    authorId: int,
    categoryId: int,
    tagIds: Option<seq<int>>,
    featuredImage: Option<string>,
    status: Status,
    visibility: Visibility,
    publishedAt: Option<int>)

  /** `connect: tagIds?.map(id => ({ id })) || []`: the tags a list of ids links. */
  function IdSet(ids: Option<seq<int>>): (s: set<int>)
    ensures forall i :: i in s <==> ids.Some? && i in ids.value
  {
    if ids.None? then {} else set i | i in ids.value
  }

  /** The row `create` asks the store to insert: the caller's fields, the slug, the linked tags, and
      view, comment and like counts of 0. */
  function CreatedPost(id: int, d: NewPost, slug: string, now: int): (p: Post)
    ensures p.id == id && p.slug == slug && p.tagIds == IdSet(d.tagIds) && p.createdAt == now
    ensures p.viewCount == 0 && p.commentCount == 0 && p.likeCount == 0
    ensures p.title == d.title && p.content == d.content && p.excerpt == d.excerpt
    ensures p.authorId == d.authorId && p.categoryId == d.categoryId && p.featuredImage == d.featuredImage
    ensures p.status == d.status && p.visibility == d.visibility && p.publishedAt == d.publishedAt
  {
    Post(id, d.title, d.content, d.excerpt, slug, d.authorId, d.categoryId, IdSet(d.tagIds),
         d.featuredImage, d.status, d.visibility, d.publishedAt, now, None, 0, 0, 0)
  }

  /** The links of a row exist: its category and every tag it connects. */
  predicate LinksExist(p: Post, categories: seq<Category>, tags: seq<Tag>) {
    Has(categories, CategoryId, p.categoryId) && forall t :: t in p.tagIds ==> Has(tags, TagId, t)
  }

  /** Replacing the post holding an id by a post with that id, existing links and a slug no other
      post has keeps the post table keyed and linked. */
  lemma ReplaceKeepsValid(posts: seq<Post>, categories: seq<Category>, tags: seq<Tag>, next: int, id: int, p: Post)
    requires Keyed(posts, PostId, PostSlug, next) && Linked(posts, categories, tags)
    requires Has(posts, PostId, id) && p.id == id && LinksExist(p, categories, tags)
    requires !TakenByOther(posts, PostId, PostSlug, p.slug, id)
    ensures Keyed(Replace(posts, PostId, id, p), PostId, PostSlug, next)
    ensures Linked(Replace(posts, PostId, id, p), categories, tags)
  {
    KeyedReplace(posts, PostId, PostSlug, next, id, p);
    ReplaceMembers(posts, PostId, id, p);
  }

  /** The post after one more view: the view count goes up by one and nothing else changes. */
  function Viewed(p: Post): (v: Post)
    ensures v.viewCount == p.viewCount + 1 && v.(viewCount := p.viewCount) == p
  {
    p.(viewCount := p.viewCount + 1)
  }

  /** Counting a view of the post holding an id keeps the post table keyed and linked. */
  lemma CountKeepsValid(posts: seq<Post>, categories: seq<Category>, tags: seq<Tag>, next: int, id: int, x: Post)
    requires Keyed(posts, PostId, PostSlug, next) && Linked(posts, categories, tags)
    requires Find(posts, PostId, id) == Some(x)
    ensures Keyed(Replace(posts, PostId, id, Viewed(x)), PostId, PostSlug, next)
    ensures Linked(Replace(posts, PostId, id, Viewed(x)), categories, tags)
  {
    var p := Viewed(x);
    assert LinksExist(x, categories, tags);
    OwnSlugNotTaken(posts, PostId, PostSlug, next, id, x);
    ReplaceKeepsValid(posts, categories, tags, next, id, p);
  }

  /** `create(postData)`: the slug is the slugified title, with `-<now>` appended when a post already
      has it. The store refuses the row (it throws) when its category or one of its tags does not
      exist or its slug is still taken; otherwise the row is appended under the next id. */
  method Create(db: Database, d: NewPost, slugify: string -> string, now: int) returns (r: Option<Post>)
    requires db.Valid()
    modifies db
    ensures db.Valid()
    ensures db.categories == old(db.categories) && db.tags == old(db.tags)
    ensures db.nextCategoryId == old(db.nextCategoryId) && db.nextTagId == old(db.nextTagId)
    ensures var base := slugify(d.title);
            var p := CreatedPost(old(db.nextPostId), d, Suffixed(base, Has(old(db.posts), PostSlug, base), now), now);
            (r.None? <==> !LinksExist(p, db.categories, db.tags) || Has(old(db.posts), PostSlug, p.slug))
            && (r.None? ==> db.posts == old(db.posts) && db.nextPostId == old(db.nextPostId))
            && (r.Some? ==> r.value == p && db.posts == old(db.posts) + [p] && db.nextPostId == old(db.nextPostId) + 1)
  {
    var slug := slugify(d.title);
    var existing := Find(db.posts, PostSlug, slug);
    slug := Suffixed(slug, existing.Some?, now);
    var p := CreatedPost(db.nextPostId, d, slug, now);
    if !LinksExist(p, db.categories, db.tags) || Has(db.posts, PostSlug, slug) {
      return None;
    }
    KeyedAppend(db.posts, PostId, PostSlug, db.nextPostId, p);
    db.posts := db.posts + [p];
    db.nextPostId := db.nextPostId + 1;
    r := Some(p);
  }

  /** The fields a caller may update; None leaves the field as it is. */
  datatype PostPatch = PostPatch(
    title: Option<string>,
    content: Option<string>,
    excerpt: Option<string>,
    categoryId: Option<int>,
    tagIds: Option<seq<int>>,
    featuredImage: Option<string>,
    status: Option<Status>,
    visibility: Option<Visibility>,
    publishedAt: Option<int>)

  /** The slug `update` writes: the old one unless a non-empty title different from the current one is
      given; then the slugified title, with `-<now>` appended when a post other than this one has it. */
  function UpdatedSlug(posts: seq<Post>, existing: Post, title: Option<string>, slugify: string -> string, now: int): (slug: string)
    ensures !(title.Some? && title.value != "" && title.value != existing.title) ==> slug == existing.slug
    ensures title.Some? && title.value != "" && title.value != existing.title ==>
              var base := slugify(title.value);
              (slug == base <==> !TakenByOther(posts, PostId, PostSlug, base, existing.id))
              && (slug != base ==> slug == base + "-" + IntToString(now))
  {
    if title.Some? && title.value != "" && title.value != existing.title then
      var base := slugify(title.value);
      Suffixed(base, TakenByOther(posts, PostId, PostSlug, base, existing.id), now)
    else existing.slug
  }

  /** Retitling a post to a title whose slug only the post itself holds keeps that slug unsuffixed:
      the collision check does not count the post against itself. */
  lemma OwnSlugNoCollision(posts: seq<Post>, existing: Post, title: string, slugify: string -> string, now: int)
    requires title != "" && title != existing.title && slugify(title) == existing.slug
    requires existing in posts && forall q :: q in posts && q.slug == existing.slug ==> q.id == existing.id
    ensures UpdatedSlug(posts, existing, Some(title), slugify, now) == existing.slug
  {
  }

  /** The row `update` writes: id, author, creation date and counters are kept, each supplied field
      replaces the old one, the tags are replaced as a whole only when `tagIds` is supplied, and
      `updatedAt` is now. */
  function PatchedPost(existing: Post, patch: PostPatch, slug: string, now: int): (p: Post)
    ensures p.id == existing.id && p.authorId == existing.authorId && p.createdAt == existing.createdAt
    ensures p.viewCount == existing.viewCount && p.commentCount == existing.commentCount && p.likeCount == existing.likeCount
    ensures p.slug == slug && p.updatedAt == Some(now)
    ensures p.tagIds == if patch.tagIds.Some? then IdSet(patch.tagIds) else existing.tagIds
    ensures p.title == patch.title.GetOr(existing.title) && p.content == patch.content.GetOr(existing.content)
    ensures p.excerpt == patch.excerpt.GetOr(existing.excerpt) && p.categoryId == patch.categoryId.GetOr(existing.categoryId)
    ensures p.status == patch.status.GetOr(existing.status) && p.visibility == patch.visibility.GetOr(existing.visibility)
    ensures p.featuredImage == (if patch.featuredImage.Some? then patch.featuredImage else existing.featuredImage)
    ensures p.publishedAt == (if patch.publishedAt.Some? then patch.publishedAt else existing.publishedAt)
  {
    existing.(
      title := patch.title.GetOr(existing.title),
      content := patch.content.GetOr(existing.content),
      excerpt := patch.excerpt.GetOr(existing.excerpt),
      slug := slug,
      categoryId := patch.categoryId.GetOr(existing.categoryId),
      tagIds := if patch.tagIds.Some? then IdSet(patch.tagIds) else existing.tagIds,
      featuredImage := if patch.featuredImage.Some? then patch.featuredImage else existing.featuredImage,
      status := patch.status.GetOr(existing.status),
      visibility := patch.visibility.GetOr(existing.visibility),
      publishedAt := if patch.publishedAt.Some? then patch.publishedAt else existing.publishedAt,
      updatedAt := Some(now))
  }

  /** `update(id, postData)`: null for a missing id, writing nothing. Otherwise the store refuses a
      row whose category or tags do not exist or whose slug another post has, writing nothing; or it
      replaces the row by `PatchedPost`. */
  method Update(db: Database, id: int, patch: PostPatch, slugify: string -> string, now: int) returns (r: Written<Post>)
    requires db.Valid()
    modifies db
    ensures db.Valid()
    ensures db.categories == old(db.categories) && db.tags == old(db.tags) && db.nextPostId == old(db.nextPostId)
    ensures db.nextCategoryId == old(db.nextCategoryId) && db.nextTagId == old(db.nextTagId)
    ensures !Has(old(db.posts), PostId, id) ==> r == NotFound && db.posts == old(db.posts)
    ensures Has(old(db.posts), PostId, id) ==>
              var existing := Find(old(db.posts), PostId, id).value;
              var p := PatchedPost(existing, patch, UpdatedSlug(old(db.posts), existing, patch.title, slugify, now), now);
              (r == Refused <==> !LinksExist(p, db.categories, db.tags) || TakenByOther(old(db.posts), PostId, PostSlug, p.slug, id))
              && (r == Refused ==> db.posts == old(db.posts))
              && (r != Refused ==> r == Written(p) && db.posts == Replace(old(db.posts), PostId, id, p))
  {
    var existing := Find(db.posts, PostId, id);
    if existing.None? {
      return NotFound;
    }
    var slug := UpdatedSlug(db.posts, existing.value, patch.title, slugify, now);
    var p := PatchedPost(existing.value, patch, slug, now);
    if !LinksExist(p, db.categories, db.tags) || TakenByOther(db.posts, PostId, PostSlug, slug, id) {
      return Refused;
    }
    ReplaceKeepsValid(db.posts, db.categories, db.tags, db.nextPostId, id, p);
    db.posts := Replace(db.posts, PostId, id, p);
    r := Written(p);
  }

  /** `incrementViewCount(id)`: the store refuses a missing id (it throws), writing nothing; otherwise
      the view count of the post goes up by exactly one and nothing else changes. */
  method IncrementViewCount(db: Database, id: int) returns (ok: bool)
    requires db.Valid()
    modifies db
    ensures db.Valid()
    ensures db.categories == old(db.categories) && db.tags == old(db.tags) && db.nextPostId == old(db.nextPostId)
    ensures db.nextCategoryId == old(db.nextCategoryId) && db.nextTagId == old(db.nextTagId)
    ensures ok <==> Has(old(db.posts), PostId, id)
    ensures !ok ==> db.posts == old(db.posts)
    ensures ok ==> db.posts == Replace(old(db.posts), PostId, id, Viewed(Find(old(db.posts), PostId, id).value))
  {
    var existing := Find(db.posts, PostId, id);
    if existing.None? {
      return false;
    }
    var p := Viewed(existing.value);
    CountKeepsValid(db.posts, db.categories, db.tags, db.nextPostId, id, existing.value);
    db.posts := Replace(db.posts, PostId, id, p);
    ok := true;
  }

  /** `delete(id)`: null for a missing id (the store throws and the error is caught), writing
      nothing; otherwise the post, and its links to tags with it, is gone. */
  method Delete(db: Database, id: int) returns (r: Option<Post>)
    requires db.Valid()
    modifies db
    ensures db.Valid()
    ensures db.categories == old(db.categories) && db.tags == old(db.tags) && db.nextPostId == old(db.nextPostId)
    ensures db.nextCategoryId == old(db.nextCategoryId) && db.nextTagId == old(db.nextTagId)
    ensures r.None? <==> !Has(old(db.posts), PostId, id)
    ensures r.None? ==> db.posts == old(db.posts)
    ensures r.Some? ==> r == Find(old(db.posts), PostId, id) && db.posts == Without(old(db.posts), PostId, id)
    ensures !Has(db.posts, PostId, id)
  {
    r := Find(db.posts, PostId, id);
    if r.Some? {
      KeyedWithout(db.posts, PostId, PostSlug, db.nextPostId, id);
      db.posts := Without(db.posts, PostId, id);
    }
  }
}
