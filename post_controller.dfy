/** The handlers of the in-memory post endpoints: they parse the `:id` parameter, build the records the
    store keeps, and choose the HTTP status of the reply. */
module PostController {
  import opened Wrappers
  import opened Strings
  import opened PostRepository

  /** `value || ''` */
  function OrEmpty(value: Option<string>): (s: string)
    ensures Falsy(value) ==> s == ""
    ensures !Falsy(value) ==> s == value.value
  {
    if Falsy(value) then "" else value.value
  }

  /** The record `createPost` hands to the store: the content defaults to `''`, the author is the
      user's name and both dates are the same instant. */
  function NewPost(title: string, content: Option<string>, author: string, now: int): (d: Draft)
    ensures d.title == title && d.author == author
    ensures d.content == OrEmpty(content)
    ensures d.createdAt == d.updatedAt == now
  {
    Draft(title, OrEmpty(content), author, now, now)
  }

  /** The record `updatePost` writes: id, author and creation date are kept; title and content keep
      their old value when the body leaves them out (`!== undefined`), and otherwise take what the
      body sent, a JSON `null` included. */
  function MergePost(existing: Post, id: int, title: Field<string>, content: Field<string>, now: int): (p: Post)
    ensures p.id == id && p.author == existing.author && p.createdAt == existing.createdAt
    ensures title.Absent? ==> p.title == existing.title
    ensures title.Null? ==> p.title == None
    ensures title.Given? ==> p.title == Some(title.value)
    ensures content.Absent? ==> p.content == existing.content
    ensures content.Null? ==> p.content == None
    ensures content.Given? ==> p.content == Some(content.value)
    ensures p.updatedAt == now
  {
    Post(id, title.Over(existing.title), content.Over(existing.content), existing.author, existing.createdAt, now)
  }

  /** Applying the same update twice at the same instant gives what applying it once gives. */
  lemma MergePostIdempotent(existing: Post, id: int, title: Field<string>, content: Field<string>, now: int)
    ensures MergePost(MergePost(existing, id, title, content, now), id, title, content, now)
            == MergePost(existing, id, title, content, now)
  {
  }

  /** An update that supplies nothing only moves `updatedAt`. */
  lemma MergeNothing(existing: Post, now: int)
    ensures MergePost(existing, existing.id, Absent, Absent, now) == existing.(updatedAt := now)
  {
  }

  /** `getAllPost`: 200 with every post. */
  method GetAllPosts(store: Store) returns (reply: Reply<seq<Post>>)
    ensures reply == Reply(200, Json(store.posts))
  {
    var posts := store.FindAll();
    reply := Reply(200, Json(posts));
  }

  /** `getPostById`: 400 for an id `parseInt` cannot read, 200 with the first post holding the id,
      404 when none does. */
  method GetPostById(store: Store, param: string) returns (reply: Reply<Post>)
    ensures ParseInt(param).None? ==> reply == Reply(400, Message("Invalid post ID"))
    ensures ParseInt(param).Some? && !HasId(store.posts, ParseInt(param).value) ==>
              reply == Reply(404, Message("Post not found"))
    ensures ParseInt(param).Some? && HasId(store.posts, ParseInt(param).value) ==>
              reply == Reply(200, Json(store.posts[IndexOf(store.posts, ParseInt(param).value)]))
  {
    var id := ParseInt(param);
    if id.None? {
      return Reply(400, Message("Invalid post ID"));
    }
    var post := store.FindById(id.value);
    if post.Some? {
      reply := Reply(200, Json(post.value));
    } else {
      reply := Reply(404, Message("Post not found"));
    }
  }

  /** `createPost`: 400 without a title and 404 when the signed-in user is not found, creating
      nothing in either case; otherwise 201 with the post the store created from `NewPost`.
      `user` is the name of the user the request's user id resolves to, if any. */
  method CreatePost(store: Store, title: Option<string>, content: Option<string>, user: Option<string>, now: int)
    returns (reply: Reply<Post>)
    requires store.Valid()
    modifies store
    ensures store.Valid()
    ensures Falsy(title) ==> reply == Reply(400, Message("Title is required")) && unchanged(store)
    ensures !Falsy(title) && user.None? ==> reply == Reply(404, Message("User not found")) && unchanged(store)
    ensures !Falsy(title) && user.Some? ==>
              var p := WithId(old(store.nextId), NewPost(title.value, content, user.value, now));
              reply == Reply(201, Json(p))
              && store.posts == old(store.posts) + [p]
              && store.nextId == old(store.nextId) + 1
  {
    if Falsy(title) {
      return Reply(400, Message("Title is required"));
    }
    if user.None? {
      return Reply(404, Message("User not found"));
    }
    var draft := NewPost(title.value, content, user.value, now);
    var post := store.Create(draft);
    reply := Reply(201, Json(post));
  }

  /** `updatePost`: 400 for an unreadable id and 404 for a missing post, writing nothing; otherwise
      the first post holding the id is replaced by `MergePost` of it and the reply is 200 with it. */
  method UpdatePost(store: Store, param: string, title: Field<string>, content: Field<string>, now: int)
    returns (reply: Reply<Post>)
    requires store.Valid()
    modifies store
    ensures store.Valid()
    ensures ParseInt(param).None? ==> reply == Reply(400, Message("Invalid post ID")) && unchanged(store)
    ensures ParseInt(param).Some? && !HasId(old(store.posts), ParseInt(param).value) ==>
              reply == Reply(404, Message("Post not found")) && unchanged(store)
    ensures ParseInt(param).Some? && HasId(old(store.posts), ParseInt(param).value) ==>
              var id := ParseInt(param).value;
              var k := IndexOf(old(store.posts), id);
              var p := MergePost(old(store.posts)[k], id, title, content, now);
              reply == Reply(200, Json(p))
              && store.posts == old(store.posts)[k := p]
              && store.nextId == old(store.nextId)
  {
    var id := ParseInt(param);
    if id.None? {
      return Reply(400, Message("Invalid post ID"));
    }
    var existing := store.FindById(id.value);
    if existing.None? {
      return Reply(404, Message("Post not found"));
    }
    var updated := MergePost(existing.value, id.value, title, content, now);
    var post := store.Update(id.value, updated);
    reply := Reply(200, Json(post.value));
  }

  /** `deletePost`: 400 for an unreadable id, writing nothing; otherwise every post holding the id is
      removed, and the reply is 204 exactly when one was. */
  method DeletePost(store: Store, param: string) returns (reply: Reply<Post>)
    requires store.Valid()
    modifies store
    ensures store.Valid()
    ensures ParseInt(param).None? ==> reply == Reply(400, Message("Invalid post ID")) && unchanged(store)
    ensures ParseInt(param).Some? ==>
              var id := ParseInt(param).value;
              store.posts == Without(old(store.posts), id)
              && store.nextId == old(store.nextId)
              && (reply == Reply(204, Empty) <==> HasId(old(store.posts), id))
              && (!HasId(old(store.posts), id) ==> reply == Reply(404, Message("Post not found")))
  {
    var id := ParseInt(param);
    if id.None? {
      return Reply(400, Message("Invalid post ID"));
    }
    var deleted := store.Remove(id.value);
    if deleted {
      reply := Reply(204, Empty);
    } else {
      reply := Reply(404, Message("Post not found"));
    }
  }
}
