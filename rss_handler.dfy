/**
 * FeedUpdater.RSSHandler: the SAX callbacks that turn a stream of element
 * events into post rows and feed-title/description updates.
 *
 * The handler's three fields are `current` (the item being built, or none),
 * `saveText` (whether character data is captured) and `text` (the capture
 * buffer). The pure functions OnStart, OnChars and OnEnd give the effect of
 * one callback on those fields and on the store; Run folds them over a whole
 * event sequence. The class Handler does the same in place and is proved
 * against them.
 */
module RssHandler {
  import opened Wrappers
  import opened JavaStrings
  import opened FeedStore

  /** One event from the XML tokenizer; `href` is the element's href attribute, if any. */
  datatype Event = Start(name: string, href: Option<string>) | Chars(s: string) | End(name: string)

  /** The columns collected for the item in progress; a column never put stays NULL. */
  datatype PostValues = PostValues(title: Option<string>, description: Option<string>, url: Option<string>)

  const EmptyPost: PostValues := PostValues(None, None, None)

  /** The handler's fields. */
  datatype HandlerState = HandlerState(current: Option<PostValues>, saveText: bool, text: string)

  const Initial: HandlerState := HandlerState(None, false, "")

  /** What the handler reads from the enclosing updater: the feed id and the title and
      description baselines loaded before parsing (the description may be null). */
  datatype Context = Context(feedId: int, feedTitle: string, feedDescription: Option<string>)

  /** The handler's fields together with the store's content. */
  datatype Config = Config(st: HandlerState, db: Db)

  predicate IsItemTag(name: string) {
    name == "item" || name == "entry"
  }

  predicate IsTextTag(name: string) {
    name == "title" || name == "description" || name == "link"
  }

  /** The row written for a completed item of feed `feedId`. */
  function ToPost(feedId: int, v: PostValues): (p: Post)
    ensures p.feedId == feedId
    ensures p.title == v.title && p.description == v.description && p.url == v.url
  {
    Post(feedId, v.title, v.description, v.url)
  }

  /**
   * startElement. `item`/`entry` opens a fresh item (and leaves the capture
   * flag and buffer alone); `title`, `description` and `link` restart capture
   * with an empty buffer; `link` inside an item sets its url to the href
   * attribute, absent or not.
   */
  function OnStart(st: HandlerState, name: string, href: Option<string>): (r: HandlerState)
    ensures IsItemTag(name) ==> r == st.(current := Some(EmptyPost))
    ensures IsTextTag(name) ==> r.saveText && r.text == ""
    ensures name == "link" ==>
      r.current == (if st.current.Some? then Some(st.current.value.(url := href)) else None)
    ensures name in {"title", "description"} ==> r.current == st.current
    ensures !IsItemTag(name) && !IsTextTag(name) ==> r == st
  {
    var afterTag :=
      if IsItemTag(name) then st.(current := Some(EmptyPost))
      else if IsTextTag(name) then st.(saveText := true, text := "")
      else st;
    if afterTag.current.Some? && name == "link" then
      afterTag.(current := Some(afterTag.current.value.(url := href)))
    else afterTag
  }

  /** characters: the data is appended only while capture is on; nothing else changes. */
  function OnChars(st: HandlerState, s: string): (r: HandlerState)
    ensures r.current == st.current && r.saveText == st.saveText
    ensures st.saveText ==> r.text == st.text + s
    ensures !st.saveText ==> r == st
  {
    if st.saveText then st.(text := st.text + s) else st
  }

  /** Closing element `name` completes an open item. */
  predicate ClosesItem(st: HandlerState, name: string) {
    st.current.Some? && IsItemTag(name)
  }

  /**
   * endElement. Every end tag stops capture and keeps the buffer. Inside an
   * item: `title`/`description` store the trimmed buffer, `link` stores the
   * untrimmed buffer when it is not empty, `item`/`entry` writes the row for
   * this feed and closes the item. Outside an item: `title`/`description`
   * update the feed only when the trimmed buffer differs from the baseline.
   */
  function OnEnd(ctx: Context, st: HandlerState, db: Db, name: string): (r: Config)
    ensures !r.st.saveText && r.st.text == st.text
    ensures ClosesItem(st, name) ==>
      r.st.current == None && r.db == db.InsertPost(ToPost(ctx.feedId, st.current.value))
    ensures st.current.None? && IsItemTag(name) ==> r.st.current == None && r.db == db
    ensures st.current.Some? && name == "title" ==>
      r.st.current == Some(st.current.value.(title := Some(Trim(st.text)))) && r.db == db
    ensures st.current.Some? && name == "description" ==>
      r.st.current == Some(st.current.value.(description := Some(Trim(st.text)))) && r.db == db
    ensures st.current.Some? && name == "link" ==>
      r.db == db && r.st.current == (if st.text != "" then Some(st.current.value.(url := Some(st.text))) else st.current)
    ensures st.current.None? && name == "title" ==>
      r.st.current == None
      && r.db == (if Trim(st.text) != ctx.feedTitle then db.UpdateTitle(ctx.feedId, Trim(st.text)) else db)
    ensures st.current.None? && name == "description" ==>
      r.st.current == None
      && r.db == (if Some(Trim(st.text)) != ctx.feedDescription then db.UpdateDescription(ctx.feedId, Trim(st.text)) else db)
    ensures st.current.None? && name == "link" ==> r == Config(st.(saveText := false), db)
    ensures !IsItemTag(name) && !IsTextTag(name) ==> r == Config(st.(saveText := false), db)
  {
    var st := st.(saveText := false);
    match st.current
    case Some(v) =>
      if name == "title" then Config(st.(current := Some(v.(title := Some(Trim(st.text))))), db)
      else if name == "description" then Config(st.(current := Some(v.(description := Some(Trim(st.text))))), db)
      else if name == "link" && st.text != "" then Config(st.(current := Some(v.(url := Some(st.text)))), db)
      else if IsItemTag(name) then Config(st.(current := None), db.InsertPost(ToPost(ctx.feedId, v)))
      else Config(st, db)
    case None =>
      if name == "title" then
        var newTitle := Trim(st.text);
        Config(st, if newTitle != ctx.feedTitle then db.UpdateTitle(ctx.feedId, newTitle) else db)
      else if name == "description" then
        var newDescription := Trim(st.text);
        Config(st, if Some(newDescription) != ctx.feedDescription then db.UpdateDescription(ctx.feedId, newDescription) else db)
      else Config(st, db)
  }

  /** Whether an item is open after event `e`, tracking item boundaries only. */
  function OpenAfter(open: bool, e: Event): bool {
    match e
    case Start(n, _) => IsItemTag(n) || open
    case Chars(_) => open
    case End(n) => !IsItemTag(n) && open
  }

  /** Event `e` closes an item that is open. */
  predicate Completes(open: bool, e: Event) {
    e.End? && IsItemTag(e.name) && open
  }

  /** The number of items completed by `events`, starting with an item open or not. */
  function CompletedItems(open: bool, events: seq<Event>): nat
    decreases |events|
  {
    if events == [] then 0
    else (if Completes(open, events[0]) then 1 else 0) + CompletedItems(OpenAfter(open, events[0]), events[1..])
  }

  /** One callback. */
  function Step(ctx: Context, c: Config, e: Event): Config {
    match e
    case Start(n, h) => Config(OnStart(c.st, n, h), c.db)
    case Chars(s) => Config(OnChars(c.st, s), c.db)
    case End(n) => OnEnd(ctx, c.st, c.db, n)
  }

  /**
   * What one callback can do to the store: append the row of the item it
   * completes, and nothing else to the posts; keep every feed but this one;
   * keep every url; write a title or description only when it differs from
   * the baseline. Item openness follows the item boundaries alone.
   */
  lemma StepEffects(ctx: Context, c: Config, e: Event)
    ensures var r := Step(ctx, c, e);
      && r.st.current.Some? == OpenAfter(c.st.current.Some?, e)
      && r.db.posts == c.db.posts + (if Completes(c.st.current.Some?, e) then [ToPost(ctx.feedId, c.st.current.value)] else [])
      && r.db.feeds.Keys == c.db.feeds.Keys
      && (forall id :: id in c.db.feeds && id != ctx.feedId ==> r.db.feeds[id] == c.db.feeds[id])
      && (forall id :: id in c.db.feeds ==> r.db.feeds[id].url == c.db.feeds[id].url)
      && (ctx.feedId in c.db.feeds ==>
            r.db.feeds[ctx.feedId].title == c.db.feeds[ctx.feedId].title
            || r.db.feeds[ctx.feedId].title != ctx.feedTitle)
      && (ctx.feedId in c.db.feeds ==>
            r.db.feeds[ctx.feedId].description == c.db.feeds[ctx.feedId].description
            || Some(r.db.feeds[ctx.feedId].description) != ctx.feedDescription)
  {
  }

  /** The callbacks for `events`, in order. */
  function Run(ctx: Context, c: Config, events: seq<Event>): Config
    decreases |events|
  {
    if events == [] then c else Run(ctx, Step(ctx, c, events[0]), events[1..])
  }

  /** A whole parse: startDocument deletes the feed's rows, then the events run from the initial fields. */
  function Sync(ctx: Context, db: Db, events: seq<Event>): Config {
    Run(ctx, Config(Initial, db.DeletePosts(ctx.feedId)), events)
  }

  /** A run only appends rows, and every row it appends belongs to this feed. */
  lemma {:induction false} RunAppendsOwnPosts(ctx: Context, c: Config, events: seq<Event>)
    ensures var r := Run(ctx, c, events);
      c.db.posts <= r.db.posts
      && forall k :: |c.db.posts| <= k < |r.db.posts| ==> r.db.posts[k].feedId == ctx.feedId
    decreases |events|
  {
    if events != [] {
      StepEffects(ctx, c, events[0]);
      RunAppendsOwnPosts(ctx, Step(ctx, c, events[0]), events[1..]);
    }
  }

  /** A run appends exactly one row per completed item or entry. */
  lemma {:induction false} RunCountsItems(ctx: Context, c: Config, events: seq<Event>)
    ensures |Run(ctx, c, events).db.posts| == |c.db.posts| + CompletedItems(c.st.current.Some?, events)
    decreases |events|
  {
    if events != [] {
      StepEffects(ctx, c, events[0]);
      RunCountsItems(ctx, Step(ctx, c, events[0]), events[1..]);
    }
  }

  /**
   * A run changes no other feed, adds or removes no feed, never changes a url,
   * and only ever writes a title or description that differs from the baseline,
   * so the feed's record ends either as it was or with such a value.
   */
  lemma {:induction false} RunFeedEffects(ctx: Context, c: Config, events: seq<Event>)
    ensures var r := Run(ctx, c, events).db;
      && r.feeds.Keys == c.db.feeds.Keys
      && (forall id :: id in c.db.feeds && id != ctx.feedId ==> r.feeds[id] == c.db.feeds[id])
      && (forall id :: id in c.db.feeds ==> r.feeds[id].url == c.db.feeds[id].url)
      && (ctx.feedId in c.db.feeds ==>
            r.feeds[ctx.feedId].title == c.db.feeds[ctx.feedId].title
            || r.feeds[ctx.feedId].title != ctx.feedTitle)
      && (ctx.feedId in c.db.feeds ==>
            r.feeds[ctx.feedId].description == c.db.feeds[ctx.feedId].description
            || Some(r.feeds[ctx.feedId].description) != ctx.feedDescription)
    decreases |events|
  {
    if events != [] {
      StepEffects(ctx, c, events[0]);
      RunFeedEffects(ctx, Step(ctx, c, events[0]), events[1..]);
    }
  }

  /** After a whole parse the store holds the other feeds' rows followed by one row of this feed per completed item. */
  lemma SyncPostsShape(ctx: Context, db: Db, events: seq<Event>)
    ensures var r := Sync(ctx, db, events).db;
      var kept := PostsNotOf(db.posts, ctx.feedId);
      && kept <= r.posts
      && |r.posts| == |kept| + CompletedItems(false, events)
      && forall k :: |kept| <= k < |r.posts| ==> r.posts[k].feedId == ctx.feedId
  {
    var c := Config(Initial, db.DeletePosts(ctx.feedId));
    RunAppendsOwnPosts(ctx, c, events);
    RunCountsItems(ctx, c, events);
  }

  /** Replace semantics, for this feed: afterwards it has exactly one row per completed item. */
  lemma SyncPostsOfFeed(ctx: Context, db: Db, events: seq<Event>)
    ensures |PostsOf(Sync(ctx, db, events).db.posts, ctx.feedId)| == CompletedItems(false, events)
  {
    var posts := Sync(ctx, db, events).db.posts;
    var kept := PostsNotOf(db.posts, ctx.feedId);
    SyncPostsShape(ctx, db, events);
    AppendOwnRows(kept, posts, ctx.feedId, ctx.feedId);
    PostsNotOfRemovesAll(db.posts, ctx.feedId);
  }

  /** Replace semantics, for every other feed: its rows are exactly as before. */
  lemma SyncPostsOfOthers(ctx: Context, db: Db, events: seq<Event>, other: int)
    requires other != ctx.feedId
    ensures PostsOf(Sync(ctx, db, events).db.posts, other) == PostsOf(db.posts, other)
  {
    var posts := Sync(ctx, db, events).db.posts;
    var kept := PostsNotOf(db.posts, ctx.feedId);
    SyncPostsShape(ctx, db, events);
    AppendOwnRows(kept, posts, ctx.feedId, other);
    PostsNotOfKeepsOthers(db.posts, ctx.feedId, other);
  }

  /** Running two event sequences one after the other is running their concatenation. */
  lemma {:induction false} RunAppend(ctx: Context, c: Config, a: seq<Event>, b: seq<Event>)
    ensures Run(ctx, c, a + b) == Run(ctx, Run(ctx, c, a), b)
    decreases |a|
  {
    if a == [] {
      assert a + b == b;
    } else {
      RunAppend(ctx, Step(ctx, c, a[0]), a[1..], b);
      assert (a + b)[1..] == a[1..] + b;
    }
  }

  /** Running a single event is its step. */
  lemma RunOne(ctx: Context, c: Config, a: Event)
    ensures Run(ctx, c, [a]) == Step(ctx, c, a)
  {
    assert [a][1..] == [];
  }

  /** Running one, two or three events is applying their steps in order. */
  lemma RunShort(ctx: Context, c: Config, a: Event, b: Event, d: Event)
    ensures Run(ctx, c, [a]) == Step(ctx, c, a)
    ensures Run(ctx, c, [a, b]) == Step(ctx, Step(ctx, c, a), b)
    ensures Run(ctx, c, [a, b, d]) == Step(ctx, Step(ctx, Step(ctx, c, a), b), d)
  {
    var c1 := Step(ctx, c, a);
    var c2 := Step(ctx, c1, b);
    RunOne(ctx, c, a);
    RunOne(ctx, c1, b);
    RunOne(ctx, c2, d);
    assert [a, b][1..] == [b];
    assert [a, b, d][1..] == [b, d];
    assert [b, d][1..] == [d];
  }

  /** <title>t</title> or <description>t</description> inside an item sets that column to trim(t) and leaves the store alone. */
  lemma ItemTextField(ctx: Context, st: HandlerState, db: Db, name: string, href: Option<string>, t: string)
    requires st.current.Some? && (name == "title" || name == "description")
    ensures var v := st.current.value;
      Run(ctx, Config(st, db), [Start(name, href), Chars(t), End(name)])
      == Config(HandlerState(Some(if name == "title" then v.(title := Some(Trim(t))) else v.(description := Some(Trim(t)))), false, t), db)
  {
    RunShort(ctx, Config(st, db), Start(name, href), Chars(t), End(name));
    var c1 := Step(ctx, Config(st, db), Start(name, href));
    var c2 := Step(ctx, c1, Chars(t));
    assert c2.st == HandlerState(st.current, true, t);
  }

  /** <link href=h>t</link> inside an item: non-empty text, untrimmed, wins over the href; empty text keeps the href. */
  lemma ItemLinkWithText(ctx: Context, st: HandlerState, db: Db, href: Option<string>, t: string)
    requires st.current.Some?
    ensures Run(ctx, Config(st, db), [Start("link", href), Chars(t), End("link")])
      == Config(HandlerState(Some(st.current.value.(url := if t != "" then Some(t) else href)), false, t), db)
  {
    RunShort(ctx, Config(st, db), Start("link", href), Chars(t), End("link"));
    var c1 := Step(ctx, Config(st, db), Start("link", href));
    var c2 := Step(ctx, c1, Chars(t));
    assert c2.st == HandlerState(Some(st.current.value.(url := href)), true, t);
  }

  /** A self-closing <link href=h/> inside an item keeps the href as the url. */
  lemma ItemSelfClosingLink(ctx: Context, st: HandlerState, db: Db, href: Option<string>)
    requires st.current.Some?
    ensures Run(ctx, Config(st, db), [Start("link", href), End("link")])
      == Config(HandlerState(Some(st.current.value.(url := href)), false, ""), db)
  {
    RunShort(ctx, Config(st, db), Start("link", href), End("link"), End("link"));
    var c1 := Step(ctx, Config(st, db), Start("link", href));
    assert c1.st == HandlerState(Some(st.current.value.(url := href)), true, "");
  }

  /** <title>t</title> outside any item updates the feed's title to trim(t) exactly when that differs from the baseline. */
  lemma FeedTitleElement(ctx: Context, st: HandlerState, db: Db, href: Option<string>, t: string)
    requires st.current.None?
    ensures Run(ctx, Config(st, db), [Start("title", href), Chars(t), End("title")])
      == Config(HandlerState(None, false, t),
                if Trim(t) != ctx.feedTitle then db.UpdateTitle(ctx.feedId, Trim(t)) else db)
  {
    RunShort(ctx, Config(st, db), Start("title", href), Chars(t), End("title"));
    var c1 := Step(ctx, Config(st, db), Start("title", href));
    var c2 := Step(ctx, c1, Chars(t));
    assert c2.st == HandlerState(None, true, t);
  }

  /** Opening an item starts from all-NULL columns; closing it writes the row for this feed. */
  lemma ItemBoundaries(ctx: Context, st: HandlerState, db: Db, name: string, href: Option<string>, v: PostValues)
    requires IsItemTag(name)
    ensures Run(ctx, Config(st, db), [Start(name, href)]) == Config(st.(current := Some(EmptyPost)), db)
    ensures Run(ctx, Config(HandlerState(Some(v), st.saveText, st.text), db), [End(name)])
      == Config(HandlerState(None, false, st.text), db.InsertPost(ToPost(ctx.feedId, v)))
  {
    RunShort(ctx, Config(st, db), Start(name, href), End(name), End(name));
    RunShort(ctx, Config(HandlerState(Some(v), st.saveText, st.text), db), End(name), End(name), End(name));
  }

  /** The SAX handler object: its three fields change in place and its callbacks write through to the store. */
  class Handler {
    const store: Store
    const ctx: Context
    var current: Option<PostValues>
    var saveText: bool
    var text: string

    function State(): HandlerState
      reads this
    {
      HandlerState(current, saveText, text)
    }

    function Now(): Config
      reads this, store
    {
      Config(State(), store.Snapshot())
    }

    constructor (store: Store, ctx: Context)
      ensures this.store == store && this.ctx == ctx && State() == Initial
    {
      this.store := store;
      this.ctx := ctx;
      current := None;
      saveText := false;
      text := "";
    }

    /** startDocument: delete every row of this feed. */
    method StartDocument()
      requires store.Valid()
      modifies store
      ensures store.Valid() && store.nextId == old(store.nextId)
      ensures store.Snapshot() == old(store.Snapshot()).DeletePosts(ctx.feedId)
    {
      store.DeletePosts(ctx.feedId);
    }

    method StartElement(name: string, href: Option<string>)
      modifies this
      ensures State() == OnStart(old(State()), name, href)
    {
      if IsItemTag(name) {
        current := Some(EmptyPost);
      } else if IsTextTag(name) {
        saveText := true;
        text := "";
      }
      if current.Some? && name == "link" {
        current := Some(current.value.(url := href));
      }
    }

    method EndElement(name: string)
      requires store.Valid()
      modifies this, store
      ensures store.Valid() && store.nextId == old(store.nextId)
      ensures Now() == OnEnd(ctx, old(State()), old(store.Snapshot()), name)
    {
      saveText := false;
      if current.Some? {
        if name == "title" {
          current := Some(current.value.(title := Some(Trim(text))));
        } else if name == "description" {
          current := Some(current.value.(description := Some(Trim(text))));
        } else if name == "link" && text != "" {
          current := Some(current.value.(url := Some(text)));
        } else if IsItemTag(name) {
          store.InsertPost(ToPost(ctx.feedId, current.value));
          current := None;
        }
      } else if name == "title" {
        var newTitle := Trim(text);
        if newTitle != ctx.feedTitle {
          store.UpdateTitle(ctx.feedId, newTitle);
        }
      } else if name == "description" {
        var newDescription := Trim(text);
        if Some(newDescription) != ctx.feedDescription {
          store.UpdateDescription(ctx.feedId, newDescription);
        }
      }
    }

    method Characters(s: string)
      modifies this
      ensures State() == OnChars(old(State()), s)
    {
      if saveText {
        text := text + s;
      }
    }

    /** Deliver one event to the matching callback. */
    method Handle(e: Event)
      requires store.Valid()
      modifies this, store
      ensures store.Valid() && store.nextId == old(store.nextId)
      ensures Now() == Step(ctx, old(Now()), e)
    {
      match e
      case Start(n, h) => StartElement(n, h);
      case Chars(s) => Characters(s);
      case End(n) => EndElement(n);
    }

    /** Deliver every event, in order. */
    method Parse(events: seq<Event>)
      requires store.Valid()
      modifies this, store
      ensures store.Valid() && store.nextId == old(store.nextId)
      ensures Now() == Run(ctx, old(Now()), events)
    {
      for i := 0 to |events|
        invariant store.Valid() && store.nextId == old(store.nextId)
        invariant Run(ctx, Now(), events[i..]) == Run(ctx, old(Now()), events)
      {
        assert events[i..][1..] == events[i + 1..];
        Handle(events[i]);
      }
    }
  }
}
