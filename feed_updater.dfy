/**
 * FeedUpdater.onHandleIntent: resolve the feed (register a new url or load a
 * known feed), fetch its XML, and run the RSS handler over it, reporting one
 * outcome. Networking and the XML tokenizer are parameters: `connect` gives
 * the HTTP response for a url (None when connecting throws an IOException),
 * `parse` gives the events the tokenizer delivers for a text and whether it
 * reached the end without a SAXException.
 */
module FeedUpdater {
  import opened Wrappers
  import opened FeedStore
  import opened Fetcher
  import opened RssHandler

  /** The feed_id extra that means "register the url extra as a new feed". */
  const NoFeed: int := -1

  /** The intent's extras: feed_id (NoFeed when absent), url and description (None when null). */
  datatype Intent = Intent(feedId: int, url: Option<string>, description: Option<string>)

  /** What the result receiver is sent; Crashed is an uncaught runtime exception, after which nothing is sent. */
  datatype Outcome = Ok | FeedExists | Error | Crashed

  /** What the tokenizer delivers: the events up to the end or up to the first SAXException. */
  datatype Document = Document(events: seq<Event>, complete: bool)

  datatype Resolution = Proceed(url: string) | Halt(outcome: Outcome)

  /** The text getXmlByUrl returns for `url`, None when it throws. */
  function Download(connect: string -> Option<Response>, url: string): Option<string> {
    match connect(url)
    case None => None
    case Some(response) => FetchedText(response)
  }

  class Updater {
    const store: Store
    var feedId: int
    var feedTitle: string
    var feedDescription: Option<string>

    /** The fields the inner RSSHandler reads. */
    function Ctx(): Context
      reads this
    {
      Context(feedId, feedTitle, feedDescription)
    }

    constructor (store: Store)
      ensures this.store == store
    {
      this.store := store;
      feedId := 0;
      feedTitle := "";
      feedDescription := None;
    }

    /**
     * The feed-resolution half of onHandleIntent. With feed_id = -1 the url is
     * refused when a feed already has it, and otherwise inserted as a feed
     * titled by its url with an empty description; the title baseline becomes
     * the url and the description baseline is the intent's description extra.
     * With a real id the feed's title, description and url are loaded.
     */
    method Resolve(intent: Intent) returns (res: Resolution)
      requires store.Valid()
      modifies this, store
      ensures store.Valid()
      ensures intent.feedId == NoFeed && intent.url.None? ==> res == Halt(Crashed) && unchanged(store)
      ensures intent.feedId == NoFeed && intent.url.Some? && old(store.HasFeedWithUrl(intent.url.value)) ==>
        res == Halt(FeedExists) && unchanged(store)
      ensures intent.feedId == NoFeed && intent.url.Some? && !old(store.HasFeedWithUrl(intent.url.value)) ==>
        var u := intent.url.value;
        && res == Proceed(u)
        && feedId !in old(store.feeds)
        && store.feeds == old(store.feeds)[feedId := Feed(u, "", u)]
        && store.posts == old(store.posts)
        && feedTitle == u && feedDescription == intent.description
      ensures intent.feedId != NoFeed && intent.feedId !in old(store.feeds) ==>
        res == Halt(Crashed) && unchanged(store)
      ensures intent.feedId != NoFeed && intent.feedId in old(store.feeds) ==>
        var f := old(store.feeds)[intent.feedId];
        && res == Proceed(f.url) && unchanged(store)
        && feedId == intent.feedId && feedTitle == f.title && feedDescription == Some(f.description)
      ensures res.Proceed? ==> feedId in store.feeds && store.feeds[feedId].url == res.url
    {
      feedId := intent.feedId;
      feedDescription := intent.description;
      if feedId == NoFeed {
        if intent.url.None? {
          return Halt(Crashed);
        }
        var feedUrl := intent.url.value;
        if store.HasFeedWithUrl(feedUrl) {
          return Halt(FeedExists);
        }
        feedTitle := feedUrl;
        feedId := store.InsertFeed(Feed(feedUrl, "", feedUrl));
        res := Proceed(feedUrl);
      } else {
        if feedId !in store.feeds {
          return Halt(Crashed);
        }
        var f := store.feeds[feedId];
        feedTitle := f.title;
        feedDescription := Some(f.description);
        res := Proceed(f.url);
      }
    }

    /**
     * The fetch-and-parse half of onHandleIntent. A failed download reports an
     * error and leaves the store alone; otherwise the handler deletes the
     * feed's rows and replays the tokenizer's events, and the outcome is OK
     * exactly when the tokenizer reached the end of the document.
     */
    method Update(url: string, connect: string -> Option<Response>, parse: string -> Document) returns (outcome: Outcome)
      requires store.Valid()
      modifies store
      ensures store.Valid()
      ensures Download(connect, url).None? ==> outcome == Error && unchanged(store)
      ensures Download(connect, url).Some? ==>
        var doc := parse(Download(connect, url).value);
        && store.Snapshot() == Sync(Ctx(), old(store.Snapshot()), doc.events).db
        && outcome == (if doc.complete then Ok else Error)
    {
      var response := connect(url);
      if response.None? {
        return Error;
      }
      var xml := GetXmlByUrl(response.value);
      if xml.None? {
        return Error;
      }
      var doc := parse(xml.value);
      var handler := new Handler(store, Ctx());
      handler.StartDocument();
      handler.Parse(doc.events);
      outcome := if doc.complete then Ok else Error;
    }

    /**
     * onHandleIntent. Registering a url that a feed already has reports
     * FEED_EXISTS and nothing else happens; no other feed's rows or record
     * change, no url changes, and an OK run leaves the feed with one row per
     * completed item of the document fetched from its url.
     */
    method HandleIntent(intent: Intent, connect: string -> Option<Response>, parse: string -> Document)
      returns (outcome: Outcome)
      requires store.Valid()
      modifies this, store
      ensures store.Valid()
      ensures outcome == FeedExists <==>
        intent.feedId == NoFeed && intent.url.Some? && old(store.HasFeedWithUrl(intent.url.value))
      ensures outcome == FeedExists || outcome == Crashed ==> unchanged(store)
      ensures forall other :: other != feedId ==> PostsOf(store.posts, other) == PostsOf(old(store.posts), other)
      ensures forall id :: id in old(store.feeds) && id != feedId ==> id in store.feeds && store.feeds[id] == old(store.feeds)[id]
      ensures forall id :: id in old(store.feeds) ==> id in store.feeds && store.feeds[id].url == old(store.feeds)[id].url
      ensures outcome == Ok ==>
        && feedId in store.feeds
        && var text := Download(connect, store.feeds[feedId].url);
        && text.Some? && parse(text.value).complete
        && |PostsOf(store.posts, feedId)| == CompletedItems(false, parse(text.value).events)
    {
      var res := Resolve(intent);
      if res.Halt? {
        return res.outcome;
      }
      ghost var resolved := store.Snapshot();
      outcome := Update(res.url, connect, parse);
      var text := Download(connect, res.url);
      if text.Some? {
        var events := parse(text.value).events;
        SyncPostsOfFeed(Ctx(), resolved, events);
        forall other | other != feedId
          ensures PostsOf(store.posts, other) == PostsOf(resolved.posts, other)
        {
          SyncPostsOfOthers(Ctx(), resolved, events, other);
        }
        RunFeedEffects(Ctx(), Config(Initial, resolved.DeletePosts(feedId)), events);
      }
    }
  }
}
