/**
 * The feed and post tables the updater reads and writes through its content
 * provider, as an in-memory store: feeds keyed by id, posts as an ordered
 * list of rows. Columns that were never set are NULL (None).
 */
module FeedStore {
  import opened Wrappers

  datatype Feed = Feed(title: string, description: string, url: string)

  datatype Post = Post(feedId: int, title: Option<string>, description: Option<string>, url: Option<string>)

  /** The rows of feed `id`, in order. */
  function PostsOf(posts: seq<Post>, id: int): (r: seq<Post>)
    ensures |r| <= |posts|
    ensures forall p :: p in r <==> p in posts && p.feedId == id
    decreases |posts|
  {
    if posts == [] then []
    else PostsOf(posts[..|posts| - 1], id)
         + (if posts[|posts| - 1].feedId == id then [posts[|posts| - 1]] else [])
  }

  /** The rows of every feed but `id`, in order: what "delete where feed_id = id" leaves. */
  function PostsNotOf(posts: seq<Post>, id: int): (r: seq<Post>)
    ensures |r| + |PostsOf(posts, id)| == |posts|
    ensures forall p :: p in r <==> p in posts && p.feedId != id
    decreases |posts|
  {
    if posts == [] then []
    else PostsNotOf(posts[..|posts| - 1], id)
         + (if posts[|posts| - 1].feedId != id then [posts[|posts| - 1]] else [])
  }

  /** Selecting the rows of a feed distributes over concatenation. */
  lemma {:induction false} PostsOfAppend(a: seq<Post>, b: seq<Post>, id: int)
    ensures PostsOf(a + b, id) == PostsOf(a, id) + PostsOf(b, id)
    decreases |b|
  {
    if b == [] {
      assert a + b == a;
    } else {
      var init, last := b[..|b| - 1], b[|b| - 1];
      var tail := if last.feedId == id then [last] else [];
      assert (a + b)[..|a + b| - 1] == a + init;
      assert (a + b)[|a + b| - 1] == last;
      assert PostsOf(a + b, id) == PostsOf(a + init, id) + tail;
      assert PostsOf(b, id) == PostsOf(init, id) + tail;
      PostsOfAppend(a, init, id);
    }
  }

  /** Deleting the rows of feed `id` leaves the rows of every other feed exactly as they were. */
  lemma {:induction false} PostsNotOfKeepsOthers(posts: seq<Post>, id: int, other: int)
    requires other != id
    ensures PostsOf(PostsNotOf(posts, id), other) == PostsOf(posts, other)
    decreases |posts|
  {
    if posts != [] {
      var init := posts[..|posts| - 1];
      var last := posts[|posts| - 1];
      PostsNotOfKeepsOthers(init, id, other);
      PostsOfAppend(PostsNotOf(init, id), if last.feedId != id then [last] else [], other);
    }
  }

  /** After deleting the rows of feed `id`, none of its rows are left. */
  lemma {:induction false} PostsNotOfRemovesAll(posts: seq<Post>, id: int)
    ensures PostsOf(PostsNotOf(posts, id), id) == []
    decreases |posts|
  {
    if posts != [] {
      var init := posts[..|posts| - 1];
      var last := posts[|posts| - 1];
      PostsNotOfRemovesAll(init, id);
      PostsOfAppend(PostsNotOf(init, id), if last.feedId != id then [last] else [], id);
    }
  }

  /** Rows that all belong to feed `id` are all selected for it and none for another feed. */
  lemma {:induction false} PostsOfUniform(posts: seq<Post>, id: int, other: int)
    requires forall k :: 0 <= k < |posts| ==> posts[k].feedId == id
    ensures PostsOf(posts, id) == posts
    ensures other != id ==> PostsOf(posts, other) == []
    decreases |posts|
  {
    if posts != [] {
      var init, last := posts[..|posts| - 1], posts[|posts| - 1];
      assert last.feedId == id;
      assert forall k :: 0 <= k < |init| ==> init[k].feedId == id by {
        forall k | 0 <= k < |init| ensures init[k].feedId == id {
          assert init[k] == posts[k];
        }
      }
      PostsOfUniform(init, id, other);
      assert PostsOf(posts, id) == PostsOf(init, id) + [last];
      assert init + [last] == posts;
    }
  }

  /** Appending rows of feed `id` only adds to that feed's selection and leaves every other feed's selection as it was. */
  lemma AppendOwnRows(kept: seq<Post>, posts: seq<Post>, id: int, other: int)
    requires kept <= posts
    requires forall k :: |kept| <= k < |posts| ==> posts[k].feedId == id
    ensures PostsOf(posts, id) == PostsOf(kept, id) + posts[|kept|..]
    ensures other != id ==> PostsOf(posts, other) == PostsOf(kept, other)
  {
    var added := posts[|kept|..];
    assert posts == kept + added;
    assert forall k :: 0 <= k < |added| ==> added[k].feedId == id by {
      forall k | 0 <= k < |added| ensures added[k].feedId == id {
        assert added[k] == posts[|kept| + k];
      }
    }
    PostsOfAppend(kept, added, id);
    PostsOfAppend(kept, added, other);
    PostsOfUniform(added, id, other);
  }

  /** The whole content of the store, as a value. */
  datatype Db = Db(feeds: map<int, Feed>, posts: seq<Post>) {

    /** DELETE FROM posts WHERE feed_id = id */
    function DeletePosts(id: int): Db {
      this.(posts := PostsNotOf(posts, id))
    }

    /** INSERT INTO posts */
    function InsertPost(p: Post): Db {
      this.(posts := posts + [p])
    }

    /** UPDATE feeds SET title = t WHERE id = id (no row, no change) */
    function UpdateTitle(id: int, t: string): Db {
      if id in feeds then this.(feeds := feeds[id := feeds[id].(title := t)]) else this
    }

    /** UPDATE feeds SET description = d WHERE id = id (no row, no change) */
    function UpdateDescription(id: int, d: string): Db {
      if id in feeds then this.(feeds := feeds[id := feeds[id].(description := d)]) else this
    }
  }

  /** The content provider: two tables and the next row id it will hand out. */
  class Store {
    var feeds: map<int, Feed>
    var posts: seq<Post>
    var nextId: int

    /** Row ids start at 1 and every id in use is below `nextId`. */
    ghost predicate Valid()
      reads this
    {
      1 <= nextId && forall id :: id in feeds ==> 1 <= id < nextId
    }

    function Snapshot(): Db
      reads this
    {
      Db(feeds, posts)
    }

    constructor (initial: Db, nextId: int)
      requires 1 <= nextId && forall id :: id in initial.feeds ==> 1 <= id < nextId
      ensures Valid() && Snapshot() == initial && this.nextId == nextId
    {
      feeds := initial.feeds;
      posts := initial.posts;
      this.nextId := nextId;
    }

    /** SELECT FROM feeds WHERE url = u has at least one row. */
    function HasFeedWithUrl(u: string): bool
      reads this
    {
      exists id :: id in feeds && feeds[id].url == u
    }

    /** INSERT INTO feeds: the new row gets an id not used before. */
    method InsertFeed(f: Feed) returns (id: int)
      requires Valid()
      modifies this
      ensures Valid()
      ensures id !in old(feeds) && id >= 1
      ensures feeds == old(feeds)[id := f] && posts == old(posts)
    {
      id := nextId;
      feeds := feeds[id := f];
      nextId := nextId + 1;
    }

    method InsertPost(p: Post)
      requires Valid()
      modifies this
      ensures Valid() && nextId == old(nextId)
      ensures Snapshot() == old(Snapshot()).InsertPost(p)
    {
      posts := posts + [p];
    }

    method DeletePosts(id: int)
      requires Valid()
      modifies this
      ensures Valid() && nextId == old(nextId)
      ensures Snapshot() == old(Snapshot()).DeletePosts(id)
    {
      posts := PostsNotOf(posts, id);
    }

    method UpdateTitle(id: int, t: string)
      requires Valid()
      modifies this
      ensures Valid() && nextId == old(nextId)
      ensures Snapshot() == old(Snapshot()).UpdateTitle(id, t)
    {
      if id in feeds {
        feeds := feeds[id := feeds[id].(title := t)];
      }
    }

    method UpdateDescription(id: int, d: string)
      requires Valid()
      modifies this
      ensures Valid() && nextId == old(nextId)
      ensures Snapshot() == old(Snapshot()).UpdateDescription(id, d)
    {
      if id in feeds {
        feeds := feeds[id := feeds[id].(description := d)];
      }
    }
  }
}
