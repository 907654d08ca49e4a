/** The in-memory post store: a module-level array of posts and the counter that hands out their ids. */
module PostRepository {
  import opened Wrappers

  /** A post as the in-memory store keeps it. Dates are milliseconds since the epoch. Title and
      content are strings, or `null` (None) once an update has written a JSON null into them. */
  datatype Post = Post(id: int, title: Option<string>, content: Option<string>, author: string, createdAt: int, updatedAt: int)

  /** A post before the store has given it an id (`Omit<Post, 'id'>`). */
  datatype Draft = Draft(title: string, content: string, author: string, createdAt: int, updatedAt: int)

  /** `{ id, ...draft }` */
  function WithId(id: int, d: Draft): (p: Post)
    ensures p.id == id && p.title == Some(d.title) && p.content == Some(d.content) && p.author == d.author
    ensures p.createdAt == d.createdAt && p.updatedAt == d.updatedAt
  {
    Post(id, Some(d.title), Some(d.content), d.author, d.createdAt, d.updatedAt)
  }

  /** Some post of `posts` has the id. */
  predicate HasId(posts: seq<Post>, id: int) {
    exists k :: 0 <= k < |posts| && posts[k].id == id
  }

  /** `posts.findIndex(post => post.id === id)`: the first index holding the id, or -1. */
  function IndexOf(posts: seq<Post>, id: int): (k: int)
    ensures -1 <= k < |posts|
    ensures k == -1 <==> !HasId(posts, id)
    ensures k >= 0 ==> posts[k].id == id && forall j :: 0 <= j < k ==> posts[j].id != id
  {
    if posts == [] then -1
    else if posts[0].id == id then 0
    else
      var k := IndexOf(posts[1..], id);
      assert forall j :: 1 <= j < |posts| ==> posts[1..][j - 1] == posts[j];
      if k == -1 then -1 else k + 1
  }

  /** `posts.filter(post => post.id !== id)` */
  function Without(posts: seq<Post>, id: int): (r: seq<Post>)
    ensures |r| <= |posts|
    ensures forall p :: p in r <==> p in posts && p.id != id
    ensures forall k :: 0 <= k < |r| ==> r[k].id != id
  {
    if posts == [] then []
    else if posts[0].id == id then Without(posts[1..], id)
    else [posts[0]] + Without(posts[1..], id)
  }

  /** The filter keeps the relative order of what it keeps: filtering a concatenation filters each part. */
  lemma {:induction false} WithoutAppend(a: seq<Post>, b: seq<Post>, id: int)
    ensures Without(a + b, id) == Without(a, id) + Without(b, id)
  {
    if a == [] {
      assert a + b == b;
    } else {
      assert (a + b)[1..] == a[1..] + b;
      WithoutAppend(a[1..], b, id);
    }
  }

  /** The filter shortens the array exactly when some post had the id. */
  lemma {:induction false} WithoutShorter(posts: seq<Post>, id: int)
    ensures |Without(posts, id)| < |posts| <==> HasId(posts, id)
    ensures !HasId(posts, id) ==> Without(posts, id) == posts
  {
    if posts != [] {
      var tail := posts[1..];
      WithoutShorter(tail, id);
      if posts[0].id == id {
        assert HasId(posts, id);
      } else {
        assert HasId(tail, id) ==> HasId(posts, id) by {
          if HasId(tail, id) {
            var k :| 0 <= k < |tail| && tail[k].id == id;
            assert posts[k + 1].id == id;
          }
        }
        assert HasId(posts, id) ==> HasId(tail, id) by {
          if HasId(posts, id) {
            var k :| 0 <= k < |posts| && posts[k].id == id;
            assert tail[k - 1].id == id;
          }
        }
        assert posts == [posts[0]] + tail;
      }
    }
  }

  /** Filtering twice by the same id changes nothing more. */
  lemma WithoutIdempotent(posts: seq<Post>, id: int)
    ensures Without(Without(posts, id), id) == Without(posts, id)
  {
    WithoutShorter(Without(posts, id), id);
  }

  /** Ids given out, in the order they were given out, are strictly increasing. */
  ghost predicate Increasing(ids: seq<int>) {
    forall i, j :: 0 <= i < j < |ids| ==> ids[i] < ids[j]
  }

  /** The module state of the store: `posts` and `nextId`. */
  class Store {
    var posts: seq<Post>
    var nextId: int
    /** The ids `create` has handed out so far, in order. */
    ghost var issued: seq<int>

    ghost predicate Valid()
      reads this
    {
      1 <= nextId
      && Increasing(issued)
      && (forall k :: 0 <= k < |issued| ==> issued[k] < nextId)
    }

    /** `let posts = []; let nextId = 1;` */
    constructor ()
      ensures Valid()
      ensures posts == [] && nextId == 1 && issued == []
    {
      posts := [];
      nextId := 1;
      issued := [];
    }

    /** `findAll`: a copy of the array. */
    method FindAll() returns (r: seq<Post>)
      ensures r == posts
    {
      r := posts;
    }

    /** `findById`: the first post holding the id, or undefined when none does. */
    method FindById(id: int) returns (r: Option<Post>)
      ensures r.None? <==> !HasId(posts, id)
      ensures r.Some? ==> r.value.id == id && r.value == posts[IndexOf(posts, id)]
                          && forall j :: 0 <= j < IndexOf(posts, id) ==> posts[j].id != id
    {
      var index := IndexOf(posts, id);
      if index == -1 {
        r := None;
      } else {
        r := Some(posts[index]);
      }
    }

    /** `create`: the post gets the id `nextId++` and is appended; earlier posts are unchanged, and the
        id is larger than every id handed out before. */
    method Create(d: Draft) returns (p: Post)
      requires Valid()
      modifies this
      ensures Valid()
      ensures p == WithId(old(nextId), d)
      ensures posts == old(posts) + [p]
      ensures nextId == old(nextId) + 1
      ensures issued == old(issued) + [p.id]
      ensures forall k :: 0 <= k < |old(issued)| ==> old(issued)[k] < p.id
    {
      p := WithId(nextId, d);
      issued := issued + [nextId];
      nextId := nextId + 1;
      posts := posts + [p];
    }

    /** `update`: null and no change when no post holds the id; otherwise the first post holding it is
        replaced and every other position is left as it was. */
    method Update(id: int, updated: Post) returns (r: Option<Post>)
      requires Valid()
      modifies this
      ensures Valid()
      ensures nextId == old(nextId) && issued == old(issued)
      ensures !HasId(old(posts), id) ==> r == None && posts == old(posts)
      ensures HasId(old(posts), id) ==>
                r == Some(updated) && posts == old(posts)[IndexOf(old(posts), id) := updated]
    {
      var index := IndexOf(posts, id);
      if index == -1 {
        return None;
      }
      posts := posts[index := updated];
      r := Some(updated);
    }

    /** `remove`: filters out every post holding the id and answers whether the array got shorter,
        which is whether some post held it. The counter is untouched, so no id is handed out twice. */
    method Remove(id: int) returns (removed: bool)
      requires Valid()
      modifies this
      ensures Valid()
      ensures nextId == old(nextId) && issued == old(issued)
      ensures posts == Without(old(posts), id)
      ensures removed <==> HasId(old(posts), id)
      ensures !HasId(posts, id)
    {
      var initialLength := |posts|;
      posts := Without(posts, id);
      WithoutShorter(old(posts), id);
      removed := |posts| < initialLength;
    }
  }

  /** After an update that keeps the id, looking the id up finds the new post. */
  lemma UpdateThenFind(posts: seq<Post>, id: int, updated: Post)
    requires HasId(posts, id) && updated.id == id
    ensures IndexOf(posts[IndexOf(posts, id) := updated], id) == IndexOf(posts, id)
  {
    var k := IndexOf(posts, id);
    var s := posts[k := updated];
    assert s[k].id == id;
    assert HasId(s, id);
    assert forall j :: 0 <= j < k ==> s[j].id != id;
    var m := IndexOf(s, id);
    assert m <= k;
  }
}
