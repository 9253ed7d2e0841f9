/**
 * Concrete runs of the model: the RSS and Atom link conventions, link
 * precedence, the untrimmed link text, the stale title baseline, and charset
 * selection on sample Content-Type headers.
 */
module Scenarios {
  import opened Wrappers
  import opened JavaStrings
  import opened FeedStore
  import opened Fetcher
  import opened RssHandler

  /** A string without trimmable characters at either end trims to itself. */
  lemma TrimKeeps(s: string)
    requires Trimmed(s)
    ensures Trim(s) == s
  {
    assert Pads(s, 0, s);
    TrimUnique(s, 0, s);
  }

  /** RSS: <item><title>A</title><link>http://x</link></item> writes one row titled "A" with url "http://x". */
  lemma RssItem(ctx: Context, db: Db)
    ensures Run(ctx, Config(Initial, db),
      [Start("item", None)]
      + [Start("title", None), Chars("A"), End("title")]
      + [Start("link", None), Chars("http://x"), End("link")]
      + [End("item")]).db
      == db.InsertPost(Post(ctx.feedId, Some("A"), None, Some("http://x")))
  {
    var open := [Start("item", None)];
    var title := [Start("title", None), Chars("A"), End("title")];
    var link := [Start("link", None), Chars("http://x"), End("link")];
    var close := [End("item")];
    var c0 := Config(Initial, db);
    var v := PostValues(Some("A"), None, Some("http://x"));
    TrimKeeps("A");
    ItemBoundaries(ctx, Initial, db, "item", None, EmptyPost);
    var c1 := Run(ctx, c0, open);
    assert c1 == Config(HandlerState(Some(EmptyPost), false, ""), db);
    ItemTextField(ctx, c1.st, db, "title", None, "A");
    var c2 := Run(ctx, c1, title);
    assert c2 == Config(HandlerState(Some(v.(url := None)), false, "A"), db);
    ItemLinkWithText(ctx, c2.st, db, None, "http://x");
    var c3 := Run(ctx, c2, link);
    assert c3 == Config(HandlerState(Some(v), false, "http://x"), db);
    ItemBoundaries(ctx, c3.st, db, "item", None, v);
    var c4 := Run(ctx, c3, close);
    assert c4.db == db.InsertPost(Post(ctx.feedId, Some("A"), None, Some("http://x")));
    RunAppend(ctx, c0, open, title);
    RunAppend(ctx, c0, open + title, link);
    RunAppend(ctx, c0, open + title + link, close);
    assert Run(ctx, c0, open + title + link + close) == c4;
  }

  /** Atom: <entry><title>B</title><link href="http://y"/></entry> writes one row titled "B" with url "http://y". */
  lemma AtomEntry(ctx: Context, db: Db)
    ensures Run(ctx, Config(Initial, db),
      [Start("entry", None)]
      + [Start("title", None), Chars("B"), End("title")]
      + [Start("link", Some("http://y")), End("link")]
      + [End("entry")]).db
      == db.InsertPost(Post(ctx.feedId, Some("B"), None, Some("http://y")))
  {
    var open := [Start("entry", None)];
    var title := [Start("title", None), Chars("B"), End("title")];
    var link := [Start("link", Some("http://y")), End("link")];
    var close := [End("entry")];
    var c0 := Config(Initial, db);
    var v := PostValues(Some("B"), None, Some("http://y"));
    TrimKeeps("B");
    ItemBoundaries(ctx, Initial, db, "entry", None, EmptyPost);
    var c1 := Run(ctx, c0, open);
    assert c1 == Config(HandlerState(Some(EmptyPost), false, ""), db);
    ItemTextField(ctx, c1.st, db, "title", None, "B");
    var c2 := Run(ctx, c1, title);
    assert c2 == Config(HandlerState(Some(v.(url := None)), false, "B"), db);
    ItemSelfClosingLink(ctx, c2.st, db, Some("http://y"));
    var c3 := Run(ctx, c2, link);
    assert c3 == Config(HandlerState(Some(v), false, ""), db);
    ItemBoundaries(ctx, c3.st, db, "entry", None, v);
    var c4 := Run(ctx, c3, close);
    assert c4.db == db.InsertPost(Post(ctx.feedId, Some("B"), None, Some("http://y")));
    RunAppend(ctx, c0, open, title);
    RunAppend(ctx, c0, open + title, link);
    RunAppend(ctx, c0, open + title + link, close);
    assert Run(ctx, c0, open + title + link + close) == c4;
  }

  /** <item><link href="http://attr"> http://text </link></item>: the text wins over the href, and it is kept untrimmed. */
  lemma LinkTextWins(ctx: Context, db: Db)
    ensures Run(ctx, Config(Initial, db),
      [Start("item", None)]
      + [Start("link", Some("http://attr")), Chars(" http://text "), End("link")]
      + [End("item")]).db
      == db.InsertPost(Post(ctx.feedId, None, None, Some(" http://text ")))
  {
    var open := [Start("item", None)];
    var link := [Start("link", Some("http://attr")), Chars(" http://text "), End("link")];
    var close := [End("item")];
    var c0 := Config(Initial, db);
    var v := PostValues(None, None, Some(" http://text "));
    ItemBoundaries(ctx, Initial, db, "item", None, EmptyPost);
    var c1 := Run(ctx, c0, open);
    assert c1 == Config(HandlerState(Some(EmptyPost), false, ""), db);
    ItemLinkWithText(ctx, c1.st, db, Some("http://attr"), " http://text ");
    var c2 := Run(ctx, c1, link);
    assert c2 == Config(HandlerState(Some(v), false, " http://text "), db);
    ItemBoundaries(ctx, c2.st, db, "item", None, v);
    var c3 := Run(ctx, c2, close);
    assert c3.db == db.InsertPost(Post(ctx.feedId, None, None, Some(" http://text ")));
    RunAppend(ctx, c0, open, link);
    RunAppend(ctx, c0, open + link, close);
    assert Run(ctx, c0, open + link + close) == c3;
  }

  /**
   * The title baseline is loaded once and never refreshed: with stored title
   * "Old", a feed-level "New" followed by a feed-level "Old" (a channel title,
   * then an image title, say) leaves the feed titled "New", because the second
   * title equals the stale baseline and is not written.
   */
  lemma StaleTitleBaseline(feedId: int, url: string)
    ensures var ctx := Context(feedId, "Old", Some(""));
      var db := Db(map[feedId := Feed("Old", "", url)], []);
      var r := Run(ctx, Config(Initial, db),
        [Start("title", None), Chars("New"), End("title")]
        + [Start("title", None), Chars("Old"), End("title")]).db;
      feedId in r.feeds && r.feeds[feedId].title == "New"
  {
    var ctx := Context(feedId, "Old", Some(""));
    var db := Db(map[feedId := Feed("Old", "", url)], []);
    var first := [Start("title", None), Chars("New"), End("title")];
    var second := [Start("title", None), Chars("Old"), End("title")];
    TrimKeeps("New");
    TrimKeeps("Old");
    FeedTitleElement(ctx, Initial, db, None, "New");
    var c1 := Run(ctx, Config(Initial, db), first);
    assert c1.db.feeds[feedId].title == "New";
    FeedTitleElement(ctx, c1.st, c1.db, None, "Old");
    RunAppend(ctx, Config(Initial, db), first, second);
  }

  /** A feed-level title equal to the stored baseline writes nothing: re-syncing an unchanged title is a no-op. */
  lemma UnchangedTitleNotWritten(ctx: Context, db: Db, t: string)
    requires Trimmed(t) && t == ctx.feedTitle
    ensures Run(ctx, Config(Initial, db), [Start("title", None), Chars(t), End("title")]).db == db
  {
    TrimKeeps(t);
    FeedTitleElement(ctx, Initial, db, None, t);
  }

  /** "<media type>; charset=<cs>" splits into the media type and " charset=<cs>". */
  lemma SplitCharsetParameter(mediaType: string, cs: string)
    requires ';' !in mediaType && ';' !in cs
    ensures Split(mediaType + "; charset=" + cs, ';') == [mediaType, " charset=" + cs]
  {
    var param := " charset=" + cs;
    assert mediaType + "; charset=" + cs == mediaType + [';'] + param;
    SplitPrefix(mediaType, param, ';');
    assert ';' !in param;
  }

  /** " charset=<cs>" trims to a charset parameter whose value is cs. */
  lemma CharsetParameterValue(cs: string)
    requires cs == [] || !IsTrimmable(cs[|cs| - 1])
    ensures var v := Trim(" charset=" + cs); IsCharsetParam(v) && CharsetValue(v) == cs
  {
    var param := " charset=" + cs;
    var value := "charset=" + cs;
    assert Pads(param, 1, value) by {
      assert param[1..1 + |value|] == value;
    }
    assert Trimmed(value) by {
      assert value[|value| - 1] == if cs == [] then '=' else cs[|cs| - 1];
    }
    TrimUnique(param, 1, value);
    assert IsCharsetParam(value) by {
      assert ToLower(value)[..8] == "charset=" by {
        forall k | 0 <= k < 8 ensures ToLower(value)[k] == "charset="[k] {
          assert value[k] == "charset="[k];
        }
      }
    }
    assert value[8..] == cs;
  }

  /**
   * Content-Type "<media type>; charset=<cs>" decodes with cs, whatever the
   * content-encoding, unless cs is empty: then the content-encoding, else UTF-8.
   */
  lemma CharsetParameter(mediaType: string, cs: string, contentEncoding: Option<string>)
    requires ';' !in mediaType && ';' !in cs
    requires cs == [] || !IsTrimmable(cs[|cs| - 1])
    ensures ResolvedEncoding(mediaType + "; charset=" + cs, contentEncoding)
      == if cs != "" then cs else contentEncoding.GetOr("utf-8")
  {
    SplitCharsetParameter(mediaType, cs);
    CharsetParameterValue(cs);
    DeclaredCharsetIsLast([mediaType, " charset=" + cs]);
    assert LastCharsetAt([mediaType, " charset=" + cs], 1);
  }

  /** Content-Type: text/xml with no content-encoding decodes as UTF-8; with one, as that. */
  lemma CharsetFallback(contentEncoding: Option<string>)
    ensures ResolvedEncoding("text/xml", contentEncoding) == contentEncoding.GetOr("utf-8")
  {
    var parts := Split("text/xml", ';');
    assert parts == ["text/xml"];
    TrimKeeps("text/xml");
    assert ToLower("text/xml")[0] == 't';
    assert !IsCharsetParam(Trim(parts[0]));
    DeclaredCharsetIsLast(parts);
  }
}
