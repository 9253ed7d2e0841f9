# FeedUpdater: feed resolution, RSS/Atom synchronisation and charset selection

This project models the core of `FeedUpdater`, the background service of the
rss-reader Android app that refreshes one feed. It covers three parts.

- **Feed resolution** (`onHandleIntent`). With `feed_id = -1`, the service registers
  the `url` extra as a new feed. If a feed already has that url, it refuses with
  FEED_EXISTS. Otherwise it inserts a feed titled by its url, with an empty
  description. With a real id, it loads the stored title, description and url
  as the baselines for the sync.
- **Charset selection and download** (`getXmlByUrl`). The Content-Type header is
  split on `;` and each part trimmed. The last part whose lower-case form starts
  with `charset=` gives the encoding. An empty result falls back to the
  content-encoding header, then to `utf-8`. The body lines are joined with no
  separator. A non-OK status yields `""`.
- **The SAX handler** (`RSSHandler`). This is a three-field state machine:
  - `current` is the item being built, or none;
  - `saveText` says whether character data is being captured;
  - `text` is the capture buffer.

  The handler works as follows:
  - `startDocument` deletes the feed's posts.
  - Every completed `item`/`entry` inserts one post row.
  - Outside an item, `title`/`description` update the feed record, but only when
    the trimmed text differs from the baseline loaded at the start.

Each part is modelled in the source's own imperative form.

- The store is a class `FeedStore.Store` with a feeds map and a post sequence,
  which its methods reassign.
- The handler is a class `RssHandler.Handler` whose callbacks update its three
  fields and write through to the store. Each callback is proved equal to a pure
  step function (`OnStart`, `OnChars`, `OnEnd`), and `Parse` is proved equal to
  the fold `Run` of those steps. The whole-run properties are lemmas about `Run`.
- The charset loop and the read loop are methods with loop invariants. They are
  proved against `ResolvedEncoding` and `Concat`.
- `Updater.HandleIntent` strings these together. Its contract gives:
  - FEED_EXISTS if and only if the url is already registered;
  - no change to other feeds or to any url;
  - one post row per completed item after an OK run.

The Java string operations the code relies on are modelled exactly in
`JavaStrings`:
- `trim()` removes every character at or below U+0020;
- `split(";")` drops trailing empty fields;
- `startsWith`;
- `StringBuilder` appends.

`trim()` is characterised by `TrimSpec`/`TrimUnique`, and split by its round
trip with join.

Where the evident intent and the code differ, the model follows the code:
- The feed-level title and description are compared against the baseline
  loaded once at the start (`FeedUpdater.java:84-85`, `195`, `202`). That
  baseline is never refreshed after an update, so a second feed-level `title`
  equal to the old title is not written back (`Scenarios.StaleTitleBaseline`).
- With `feed_id = -1`, the description baseline is the intent's `description`
  extra (`FeedUpdater.java:52`), not the `""` just inserted. A null extra makes
  every feed-level description count as different.
- A feed id that is not in the store is not reported as an error. `moveToFirst`
  fails and the following `getString` throws, which the service does not catch.
  A null `url` extra also throws, in `sqlEscapeString`. Both are modelled as the
  outcome `Crashed`, with the store unchanged.
- Link text wins over `href` when the untrimmed text is non-empty, and it is
  stored untrimmed (`FeedUpdater.java:186-187`).
- An absent `href` is stored as NULL, because `ContentValues.put` accepts null.
  The model treats this as behaviour, not as a precondition.

## Model

| member | source | states |
|---|---|---|
| JavaStrings.TrimSpec | app/src/main/java/com/pokrasko/rssreader2/FeedUpdater.java:122 | trim() leaves a core with no trimmable character at either end, and everything removed before and after it is at or below U+0020 |
| JavaStrings.TrimUnique | app/src/main/java/com/pokrasko/rssreader2/FeedUpdater.java:122 | any untrimmable core padded only by characters at or below U+0020 is exactly trim() of the string: trim() is determined by those two properties |
| JavaStrings.TrimIdempotent | app/src/main/java/com/pokrasko/rssreader2/FeedUpdater.java:183 | trimming an already trimmed buffer changes nothing |
| JavaStrings.TrimEmpty | app/src/main/java/com/pokrasko/rssreader2/FeedUpdater.java:194 | a buffer trims to "" exactly when every character is at or below U+0020 |
| JavaStrings.ToLower | app/src/main/java/com/pokrasko/rssreader2/FeedUpdater.java:124 | toLowerCase keeps the length, maps every upper-case ASCII letter to the matching lower-case letter and keeps every other character |
| JavaStrings.SplitOn | app/src/main/java/com/pokrasko/rssreader2/FeedUpdater.java:118 | the fields between separators: at least one, none containing the separator, the whole string when there is no separator |
| JavaStrings.JoinSplit | app/src/main/java/com/pokrasko/rssreader2/FeedUpdater.java:118 | joining the fields with the separator gives back the Content-Type: splitting loses nothing |
| JavaStrings.SplitJoin | app/src/main/java/com/pokrasko/rssreader2/FeedUpdater.java:118 | splitting a join of separator-free fields gives back those fields |
| JavaStrings.SplitPrefix | app/src/main/java/com/pokrasko/rssreader2/FeedUpdater.java:118 | a separator-free prefix followed by the separator becomes the first field, and the rest splits on its own |
| JavaStrings.DropTrailingEmpty | app/src/main/java/com/pokrasko/rssreader2/FeedUpdater.java:118 | the kept fields are a prefix of all fields, end in a non-empty field, and everything dropped is empty |
| JavaStrings.SplitFields | app/src/main/java/com/pokrasko/rssreader2/FeedUpdater.java:118 | String.split(";") yields separator-free fields; without a separator the whole string; with one, either no field (the string is only separators) or fields ending in a non-empty one whose join is the string minus its trailing separators |
| JavaStrings.SplitFieldsFree | app/src/main/java/com/pokrasko/rssreader2/FeedUpdater.java:118 | no field of split(";") contains the separator |
| JavaStrings.SplitNoFields | app/src/main/java/com/pokrasko/rssreader2/FeedUpdater.java:118 | split(";") returns no field only for a string made of separators alone |
| JavaStrings.SplitSomeFields | app/src/main/java/com/pokrasko/rssreader2/FeedUpdater.java:118 | otherwise, with a separator present, the last field is non-empty and joining the fields gives the string without its trailing separators |
| JavaStrings.JoinDropTrailingEmpty | app/src/main/java/com/pokrasko/rssreader2/FeedUpdater.java:118 | dropping k trailing empty fields removes exactly k separators from the end of the join |
| JavaStrings.JoinAppend | app/src/main/java/com/pokrasko/rssreader2/FeedUpdater.java:118 | joining two field lists puts one separator between their joins |
| JavaStrings.ConcatAppend | app/src/main/java/com/pokrasko/rssreader2/FeedUpdater.java:135-137 | appending lines in two batches gives the concatenation of both: nothing is inserted between lines |
| JavaStrings.ConcatLength | app/src/main/java/com/pokrasko/rssreader2/FeedUpdater.java:135-137 | the body is exactly as long as all its lines together |
| Fetcher.DeclaredCharsetIsLast | app/src/main/java/com/pokrasko/rssreader2/FeedUpdater.java:121-127 | the declared charset is "" when no trimmed part names one, and otherwise the value after "charset=" of the last part that does |
| Fetcher.DeclaredCharsetSnoc | app/src/main/java/com/pokrasko/rssreader2/FeedUpdater.java:121-127 | one more part overwrites the charset when it names one and otherwise keeps it: the loop step |
| Fetcher.DeclaredCharsetIgnoresEmpty | app/src/main/java/com/pokrasko/rssreader2/FeedUpdater.java:118-127 | empty parts never change the declared charset |
| Fetcher.DeclaredCharsetOfSplit | app/src/main/java/com/pokrasko/rssreader2/FeedUpdater.java:118-127 | split's dropping of trailing empty fields never changes the declared charset |
| Fetcher.SelectEncoding | app/src/main/java/com/pokrasko/rssreader2/FeedUpdater.java:117-131 | the charset loop yields the resolved encoding (declared charset, else content-encoding, else utf-8), and it is "" only when the content-encoding header itself is "" |
| Fetcher.AppendLines | app/src/main/java/com/pokrasko/rssreader2/FeedUpdater.java:134-137 | the readLine loop leaves the builder holding all lines concatenated in order |
| Fetcher.GetXmlByUrl | app/src/main/java/com/pokrasko/rssreader2/FeedUpdater.java:107-141 | the text is "" for a non-OK status and otherwise the lines decoded with the resolved encoding, concatenated; a read failure is an error |
| FeedStore.PostsOf | app/src/main/java/com/pokrasko/rssreader2/FeedUpdater.java:162 | the rows of a feed are exactly the stored rows with that feed_id |
| FeedStore.PostsNotOf | app/src/main/java/com/pokrasko/rssreader2/FeedUpdater.java:162 | "delete where feed_id = id" keeps exactly the rows of other feeds, and with the deleted rows accounts for every row |
| FeedStore.PostsOfAppend | app/src/main/java/com/pokrasko/rssreader2/FeedUpdater.java:190 | selecting a feed's rows distributes over appending rows |
| FeedStore.PostsNotOfKeepsOthers | app/src/main/java/com/pokrasko/rssreader2/FeedUpdater.java:161-163 | deleting one feed's rows leaves every other feed's rows exactly as they were, in order |
| FeedStore.PostsNotOfRemovesAll | app/src/main/java/com/pokrasko/rssreader2/FeedUpdater.java:161-163 | after the delete, the feed has no rows left |
| FeedStore.PostsOfUniform | app/src/main/java/com/pokrasko/rssreader2/FeedUpdater.java:189-190 | rows all tagged with one feed are all selected for it and none for another |
| FeedStore.AppendOwnRows | app/src/main/java/com/pokrasko/rssreader2/FeedUpdater.java:189-190 | appending rows tagged with a feed adds exactly those rows to its selection and none to any other feed's |
| FeedStore.Store.InsertFeed | app/src/main/java/com/pokrasko/rssreader2/FeedUpdater.java:78-79 | the new feed row gets a fresh positive id; nothing else changes |
| FeedStore.Store.InsertPost | app/src/main/java/com/pokrasko/rssreader2/FeedUpdater.java:190 | the post row is appended |
| FeedStore.Store.DeletePosts | app/src/main/java/com/pokrasko/rssreader2/FeedUpdater.java:162 | exactly the feed's rows are removed |
| FeedStore.Store.UpdateTitle | app/src/main/java/com/pokrasko/rssreader2/FeedUpdater.java:196-198 | the feed's title is replaced when the feed exists; nothing else changes |
| FeedStore.Store.UpdateDescription | app/src/main/java/com/pokrasko/rssreader2/FeedUpdater.java:203-205 | the feed's description is replaced when the feed exists; nothing else changes |
| RssHandler.ToPost | app/src/main/java/com/pokrasko/rssreader2/FeedUpdater.java:189-190 | the inserted row carries the feed id and the collected title, description and url |
| RssHandler.OnStart | app/src/main/java/com/pokrasko/rssreader2/FeedUpdater.java:166-176 | item/entry opens an all-NULL item without touching capture; title/description/link switch capture on with an empty buffer; link inside an item sets the url to the href; any other tag changes nothing |
| RssHandler.OnChars | app/src/main/java/com/pokrasko/rssreader2/FeedUpdater.java:211-214 | characters are appended only while capture is on; nothing else changes |
| RssHandler.OnEnd | app/src/main/java/com/pokrasko/rssreader2/FeedUpdater.java:179-208 | every end tag stops capture and keeps the buffer; in an item, title/description store the trimmed buffer, link stores the untrimmed buffer when it is non-empty, item/entry inserts the row and closes the item; outside an item, title/description update the feed only when the trimmed buffer differs from the baseline, and link does nothing |
| RssHandler.RunAppendsOwnPosts | app/src/main/java/com/pokrasko/rssreader2/FeedUpdater.java:179-192 | a run of callbacks only appends rows, and every appended row belongs to this feed |
| RssHandler.RunCountsItems | app/src/main/java/com/pokrasko/rssreader2/FeedUpdater.java:167-168 | a run appends exactly one row per item or entry completed while open |
| RssHandler.RunFeedEffects | app/src/main/java/com/pokrasko/rssreader2/FeedUpdater.java:193-207 | a run adds or removes no feed, changes no other feed and no url, and leaves this feed's title and description either as they were or with a value different from the baseline |
| RssHandler.SyncPostsShape | app/src/main/java/com/pokrasko/rssreader2/FeedUpdater.java:161-192 | after a whole parse the store holds the other feeds' rows followed by one row of this feed per completed item |
| RssHandler.SyncPostsOfFeed | app/src/main/java/com/pokrasko/rssreader2/FeedUpdater.java:161-192 | after a whole parse the feed has exactly as many rows as completed items: its rows are replaced, not accumulated |
| RssHandler.SyncPostsOfOthers | app/src/main/java/com/pokrasko/rssreader2/FeedUpdater.java:161-163 | after a whole parse every other feed's rows are exactly as before |
| RssHandler.RunAppend | app/src/main/java/com/pokrasko/rssreader2/FeedUpdater.java:155-215 | delivering two event sequences one after the other is delivering their concatenation |
| RssHandler.ItemTextField | app/src/main/java/com/pokrasko/rssreader2/FeedUpdater.java:181-185 | title or description text inside an item sets that column to the trimmed text and touches no feed record |
| RssHandler.ItemLinkWithText | app/src/main/java/com/pokrasko/rssreader2/FeedUpdater.java:173-187 | a link inside an item ends with the untrimmed text as url when the text is non-empty, else the href |
| RssHandler.ItemSelfClosingLink | app/src/main/java/com/pokrasko/rssreader2/FeedUpdater.java:173-175 | a self-closing link inside an item keeps the href as the url |
| RssHandler.FeedTitleElement | app/src/main/java/com/pokrasko/rssreader2/FeedUpdater.java:193-199 | a feed-level title updates the feed title to the trimmed text exactly when that differs from the baseline |
| RssHandler.ItemBoundaries | app/src/main/java/com/pokrasko/rssreader2/FeedUpdater.java:167-191 | opening an item starts from all-NULL columns; closing it writes the row for this feed and leaves no item open |
| RssHandler.Handler.constructor | app/src/main/java/com/pokrasko/rssreader2/FeedUpdater.java:155-158 | a new handler has no item, capture off and an empty buffer |
| RssHandler.Handler.StartDocument | app/src/main/java/com/pokrasko/rssreader2/FeedUpdater.java:161-163 | the store loses exactly this feed's rows |
| RssHandler.Handler.StartElement | app/src/main/java/com/pokrasko/rssreader2/FeedUpdater.java:166-176 | the fields change as OnStart says |
| RssHandler.Handler.Characters | app/src/main/java/com/pokrasko/rssreader2/FeedUpdater.java:211-214 | the fields change as OnChars says |
| RssHandler.Handler.EndElement | app/src/main/java/com/pokrasko/rssreader2/FeedUpdater.java:179-208 | the fields and the store change as OnEnd says |
| RssHandler.Handler.Handle | app/src/main/java/com/pokrasko/rssreader2/FeedUpdater.java:155-215 | one event changes fields and store as one step of the model |
| RssHandler.Handler.Parse | app/src/main/java/com/pokrasko/rssreader2/FeedUpdater.java:95 | delivering all events leaves fields and store as the fold Run of the steps |
| FeedUpdater.Updater.constructor | app/src/main/java/com/pokrasko/rssreader2/FeedUpdater.java:41-43 | the service is bound to its store |
| FeedUpdater.Updater.Resolve | app/src/main/java/com/pokrasko/rssreader2/FeedUpdater.java:51-88 | a known url gives FEED_EXISTS and an unchanged store; a new url inserts one feed (url, "", url) under a fresh id with the url as title baseline and the description extra as description baseline; a known id loads title, description and url; a missing id or null url crashes with the store unchanged |
| FeedUpdater.Updater.Update | app/src/main/java/com/pokrasko/rssreader2/FeedUpdater.java:90-104 | a failed download reports an error and leaves the store alone; otherwise the store becomes the sync of the parsed events, and the outcome is OK exactly when the document was parsed to its end |
| FeedUpdater.Updater.HandleIntent | app/src/main/java/com/pokrasko/rssreader2/FeedUpdater.java:46-105 | FEED_EXISTS exactly when the url is already registered, and then the store is unchanged; no other feed's rows or record and no url change; after OK the feed has one row per completed item of the document fetched from its url |
| Scenarios.TrimKeeps | app/src/main/java/com/pokrasko/rssreader2/FeedUpdater.java:183 | a string already free of padding trims to itself |
| Scenarios.RssItem | app/src/main/java/com/pokrasko/rssreader2/FeedUpdater.java:166-192 | an RSS item with title and link text writes one row with that title and url |
| Scenarios.AtomEntry | app/src/main/java/com/pokrasko/rssreader2/FeedUpdater.java:166-192 | an Atom entry with a title and a self-closing link href writes one row with that title and the href |
| Scenarios.LinkTextWins | app/src/main/java/com/pokrasko/rssreader2/FeedUpdater.java:173-187 | link text with surrounding spaces overrides the href and is stored with its spaces |
| Scenarios.StaleTitleBaseline | app/src/main/java/com/pokrasko/rssreader2/FeedUpdater.java:193-199 | with stored title "Old", feed-level titles "New" then "Old" leave the feed titled "New" |
| Scenarios.UnchangedTitleNotWritten | app/src/main/java/com/pokrasko/rssreader2/FeedUpdater.java:193-199 | a feed-level title equal to the baseline leaves the store unchanged |
| Scenarios.SplitCharsetParameter | app/src/main/java/com/pokrasko/rssreader2/FeedUpdater.java:118 | "type; charset=cs" splits into the media type and " charset=cs" |
| Scenarios.CharsetParameterValue | app/src/main/java/com/pokrasko/rssreader2/FeedUpdater.java:122-125 | " charset=cs" trims to a charset parameter whose value is cs |
| Scenarios.CharsetParameter | app/src/main/java/com/pokrasko/rssreader2/FeedUpdater.java:117-131 | "type; charset=cs" decodes with cs, and with an empty cs falls back to the content-encoding, then utf-8 |
| Scenarios.CharsetFallback | app/src/main/java/com/pokrasko/rssreader2/FeedUpdater.java:129-131 | "text/xml" decodes with the content-encoding, else utf-8 |

## Left out

- HTTP connection set-up and byte decoding (lines 110-113, 115 and 133). The status check of line 114 is modelled. A response is a status, the two headers and a function from an encoding to the decoded lines, or to an I/O failure.
- The SAX parser (lines 91-95). It is a parameter that yields the event sequence and says whether it reached the end without a SAXException. `startDocument` is taken to be delivered whenever parsing starts. One tag name per event stands for both `qName` and `localName`.
- ParserConfigurationException (line 98). Creating the parser is assumed to succeed.
- ContentResolver and FeedContentProvider, SQL string building and `sqlEscapeString` (lines 59-66, 162, 190, 198). They are replaced by the in-memory `Store`. Content URIs, cursors and `Long.parseLong` of the new row's URI are not modelled.
- The static `running` flag and `onDestroy` (lines 39, 49, 144-147). They are lifecycle state only.
- ResultReceiver/Bundle delivery and the `e.toString()` messages (lines 97-104, 149-153). Only the outcome kind is modelled.
- The `title` intent extra (line 53). Both branches overwrite it before it is read.
- The platform-default `getBytes()` re-encoding (line 94). The parser is handed the downloaded text as is.
- A null Content-Type (line 118). The header is a string; the resulting null-pointer crash is not modelled.
- JavaStrings.ToLower: only ASCII letters are lower-cased. Java's locale-dependent Unicode case mapping is not modelled. A non-ASCII part that lower-cases to "charset=" is therefore out of scope.
- Java strings are UTF-16 code units; here a character is a Unicode scalar value, so lone surrogates cannot be represented. Trimming, splitting on `;` and ASCII lower-casing treat every character the same way under both views.
