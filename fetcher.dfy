/**
 * FeedUpdater.getXmlByUrl: pick the text encoding of an HTTP response from its
 * Content-Type header, then read the body line by line into one string.
 * The connection and the byte decoding are outside the model: a response is a
 * status, two headers and a reader that yields lines for a given encoding.
 */
module Fetcher {
  import opened Wrappers
  import opened JavaStrings

  /** HttpURLConnection.HTTP_OK */
  const HttpOk: int := 200

  /** The parameter name looked for, compared after lower-casing. */
  const CharsetKey: string := "charset="

  /** Encoding used when neither header names one. */
  const DefaultEncoding: string := "utf-8"

  /**
   * An HTTP response as the updater sees it. `readLines(encoding)` is what
   * BufferedReader.readLine yields, line terminators removed, when the body is
   * decoded with `encoding`; None stands for an IOException (an unsupported
   * encoding, a broken stream).
   */
  datatype Response = Response(
    status: int,
    contentType: string,
    contentEncoding: Option<string>,
    readLines: string -> Option<seq<string>>)

  /** A trimmed Content-Type part that names a charset. */
  predicate IsCharsetParam(part: string) {
    StartsWith(ToLower(part), CharsetKey)
  }

  /** What follows "charset=" in such a part, with its original case. */
  function CharsetValue(part: string): string
    requires IsCharsetParam(part)
  {
    part[|CharsetKey|..]
  }

  /** Part `i` names a charset, and no later part does. */
  ghost predicate LastCharsetAt(parts: seq<string>, i: int) {
    0 <= i < |parts| && IsCharsetParam(Trim(parts[i]))
    && forall j :: i < j < |parts| ==> !IsCharsetParam(Trim(parts[j]))
  }

  /**
   * The charset declared by a split Content-Type, read from the last part
   * backwards: the value of the last trimmed part that names one, or "".
   */
  function DeclaredCharset(parts: seq<string>): string
    decreases |parts|
  {
    if parts == [] then ""
    else
      var last := Trim(parts[|parts| - 1]);
      if IsCharsetParam(last) then CharsetValue(last) else DeclaredCharset(parts[..|parts| - 1])
  }

  /** The declared charset is "" when no part names one, and otherwise the value of the last part that does. */
  lemma {:induction false} DeclaredCharsetIsLast(parts: seq<string>)
    ensures (forall i :: 0 <= i < |parts| ==> !IsCharsetParam(Trim(parts[i]))) ==> DeclaredCharset(parts) == ""
    ensures forall i :: LastCharsetAt(parts, i) ==> DeclaredCharset(parts) == CharsetValue(Trim(parts[i]))
    decreases |parts|
  {
    if parts != [] && !IsCharsetParam(Trim(parts[|parts| - 1])) {
      var init := parts[..|parts| - 1];
      DeclaredCharsetIsLast(init);
      forall i | LastCharsetAt(parts, i) ensures LastCharsetAt(init, i) {
        assert i != |parts| - 1;
        forall j | i < j < |init| ensures !IsCharsetParam(Trim(init[j])) {
          assert init[j] == parts[j];
        }
      }
      if forall i :: 0 <= i < |parts| ==> !IsCharsetParam(Trim(parts[i])) {
        forall i | 0 <= i < |init| ensures !IsCharsetParam(Trim(init[i])) {
          assert init[i] == parts[i];
        }
      }
    }
  }

  /** Appending one part: it decides the charset if it names one, else the earlier parts do. */
  lemma DeclaredCharsetSnoc(parts: seq<string>, part: string)
    ensures var v := Trim(part);
      DeclaredCharset(parts + [part]) == if IsCharsetParam(v) then CharsetValue(v) else DeclaredCharset(parts)
  {
    assert (parts + [part])[..|parts|] == parts;
  }

  /** Parts that trim to "" never name a charset, so appending them changes nothing. */
  lemma {:induction false} DeclaredCharsetIgnoresEmpty(parts: seq<string>, tail: seq<string>)
    requires forall k :: 0 <= k < |tail| ==> tail[k] == []
    ensures DeclaredCharset(parts + tail) == DeclaredCharset(parts)
    decreases |tail|
  {
    if tail == [] {
      assert parts + tail == parts;
    } else {
      var init := tail[..|tail| - 1];
      assert (parts + tail)[..|parts + tail| - 1] == parts + init;
      assert Trim(tail[|tail| - 1]) == [];
      DeclaredCharsetIgnoresEmpty(parts, init);
    }
  }

  /** Java's split drops trailing empty fields; that never changes the declared charset. */
  lemma DeclaredCharsetOfSplit(contentType: string)
    ensures DeclaredCharset(Split(contentType, ';')) == DeclaredCharset(SplitOn(contentType, ';'))
  {
    if ';' in contentType {
      var all := SplitOn(contentType, ';');
      var kept := Split(contentType, ';');
      assert all == kept + all[|kept|..];
      DeclaredCharsetIgnoresEmpty(kept, all[|kept|..]);
    }
  }

  /** The encoding getXmlByUrl decodes with: the declared charset when it is not
      empty, else the transport content-encoding, else UTF-8. */
  function ResolvedEncoding(contentType: string, contentEncoding: Option<string>): string {
    var declared := DeclaredCharset(Split(contentType, ';'));
    if declared != "" then declared else contentEncoding.GetOr(DefaultEncoding)
  }

  /**
   * The charset loop of getXmlByUrl: every trimmed `;`-part whose lower-case
   * form starts with "charset=" overwrites the encoding, so the last one wins;
   * an empty result falls back to the content-encoding, then to "utf-8".
   */
  method SelectEncoding(contentType: string, contentEncoding: Option<string>) returns (encoding: string)
    ensures encoding == ResolvedEncoding(contentType, contentEncoding)
    ensures encoding == "" ==> contentEncoding == Some("")
  {
    var values := Split(contentType, ';');
    encoding := "";
    for i := 0 to |values|
      invariant encoding == DeclaredCharset(values[..i])
    {
      var value := Trim(values[i]);
      if IsCharsetParam(value) {
        encoding := CharsetValue(value);
      }
      assert values[..i + 1] == values[..i] + [values[i]];
      DeclaredCharsetSnoc(values[..i], values[i]);
    }
    assert values[..|values|] == values;
    if encoding == "" {
      encoding := if contentEncoding.Some? then contentEncoding.value else DefaultEncoding;
    }
  }

  /** The text getXmlByUrl returns: "" for a non-OK status, the decoded lines
      concatenated otherwise, None for an IOException while reading. */
  function FetchedText(response: Response): Option<string> {
    if response.status != HttpOk then Some("")
    else
      match response.readLines(ResolvedEncoding(response.contentType, response.contentEncoding))
      case None => None
      case Some(lines) => Some(Concat(lines))
  }

  /** The readLine loop of getXmlByUrl: every line is appended to the builder, in order, with nothing between. */
  method AppendLines(ls: seq<string>) returns (builder: string)
    ensures builder == Concat(ls)
  {
    builder := "";
    for i := 0 to |ls|
      invariant builder == Concat(ls[..i])
    {
      assert ls[..i + 1][..i] == ls[..i];
      builder := builder + ls[i];
    }
    assert ls[..|ls|] == ls;
  }

  /**
   * getXmlByUrl after the connection is made: check the status, select the
   * encoding, and read every line the reader yields into one string.
   */
  method GetXmlByUrl(response: Response) returns (xml: Option<string>)
    ensures xml == FetchedText(response)
    ensures response.status != HttpOk ==> xml == Some("")
  {
    var builder := "";
    if response.status == HttpOk {
      var encoding := SelectEncoding(response.contentType, response.contentEncoding);
      var lines := response.readLines(encoding);
      if lines.None? {
        return None;
      }
      builder := AppendLines(lines.value);
    }
    xml := Some(builder);
  }
}
