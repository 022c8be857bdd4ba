/**
 * The helpers of src/utils.mjs, after the file has been read: numbered
 * listing-page URLs, the mapping of a parsed link file to requests, the
 * `hrefs` field of a parsed link object, and the lines of a text file.
 *
 * Reading the file and `JSON.parse` are not modelled: the readers take the
 * file's text or its parsed value.
 */
module Utils {
  import opened Wrappers
  import opened Strings
  import opened JsonValues

  /** A `createUrls` entry: `{ url, label }`. */
  datatype Entry = Entry(url: string, handlerLabel: string)

  /** The largest length a JavaScript array can have. */
  const MaxArrayLength: int := 0xFFFF_FFFF

  /** `Array.from({ length: count }, ...)`: a negative length gives no entries. */
  function EntryCount(count: int): nat {
    if count < 0 then 0 else count
  }

  /**
   * `createUrls(baseUrl, count, handlerLabel)`: pages 1 to count under
   * `baseUrl`; a length beyond the largest array length is a RangeError.
   */
  function CreateUrls(baseUrl: string, count: int, handlerLabel: string): Result<seq<Entry>> {
    if count > MaxArrayLength then Err("Invalid array length")
    else Ok(seq(EntryCount(count), i requires 0 <= i < EntryCount(count) => Entry(baseUrl + "/" + NatToString(i + 1), handlerLabel)))
  }

  /**
   * A count beyond the largest array length throws. Otherwise there are
   * exactly `count` entries (none for a negative count), all with the
   * label, entry i pointing to page i + 1 below the base: the text after
   * the base and the slash is a decimal numeral whose value is i + 1. So no
   * two entries share a url.
   */
  lemma CreateUrlsSpec(baseUrl: string, count: int, handlerLabel: string)
    ensures CreateUrls(baseUrl, count, handlerLabel).Err? <==> count > MaxArrayLength
    ensures CreateUrls(baseUrl, count, handlerLabel).Ok? ==>
      var r := CreateUrls(baseUrl, count, handlerLabel).value;
      (count >= 0 ==> |r| == count) && (count < 0 ==> r == []) &&
      forall i :: 0 <= i < |r| ==>
        r[i].handlerLabel == handlerLabel && |r[i].url| > |baseUrl| + 1 &&
        r[i].url[..|baseUrl| + 1] == baseUrl + "/" &&
        var n := r[i].url[|baseUrl| + 1..];
        (forall k :: 0 <= k < |n| ==> IsDigit(n[k])) && DigitsValue(n) == i + 1
    ensures CreateUrls(baseUrl, count, handlerLabel).Ok? ==>
      var r := CreateUrls(baseUrl, count, handlerLabel).value;
      forall i, j :: 0 <= i < j < |r| ==> r[i].url != r[j].url
  {
    if count <= MaxArrayLength {
      var r := CreateUrls(baseUrl, count, handlerLabel).value;
      forall i | 0 <= i < |r|
        ensures var n := r[i].url[|baseUrl| + 1..]; n == NatToString(i + 1) && DigitsValue(n) == i + 1
      {
        assert r[i].url[|baseUrl| + 1..] == NatToString(i + 1);
        NatToStringValue(i + 1);
      }
    }
  }

  const ArticleLabel: string := "INVESTING-ARTICLE"

  /** One request of a link file: `{ url: item.href, label }`, with None for an `undefined` href. */
  datatype Request = Request(url: Option<Json>, handlerLabel: string)

  /** `item.href`: its binding in an object, `undefined` for another value, and a TypeError on `null`. */
  function Href(item: Json): Result<Option<Json>> {
    match item
    case JNull => Err("Cannot read properties of null")
    case JObj(fields) => Ok(Get(fields, "href"))
    case _ => Ok(None)
  }

  /** `jsonData.map(...)` in `readUrlsFromFile`: only an array has `map`, and a `null` item throws. */
  function ReadUrls(data: Json): Result<seq<Request>> {
    if !data.JArr? then Err("jsonData.map is not a function")
    else if exists i :: 0 <= i < |data.items| && data.items[i] == JNull then Err("Cannot read properties of null")
    else Ok(seq(|data.items|, i requires 0 <= i < |data.items| => Request(Href(data.items[i]).value, ArticleLabel)))
  }

  /** The link file for a list of urls: one `{ "href": url }` object per url. */
  function LinkFile(urls: seq<string>): Json {
    JArr(seq(|urls|, i requires 0 <= i < |urls| => JObj([("href", JStr(urls[i]))])))
  }

  /**
   * The reader succeeds exactly on an array without `null` items; it then
   * gives one request per item, in order, each carrying the item's href and
   * the INVESTING-ARTICLE label.
   */
  lemma ReadUrlsSpec(data: Json)
    ensures ReadUrls(data).Ok? <==> data.JArr? && forall i :: 0 <= i < |data.items| ==> data.items[i] != JNull
    ensures ReadUrls(data).Ok? ==>
      var r := ReadUrls(data).value;
      |r| == |data.items| &&
      forall i :: 0 <= i < |r| ==> r[i].handlerLabel == ArticleLabel && Href(data.items[i]) == Ok(r[i].url)
  {
  }

  /** Reading the link file written for some urls gives back exactly those urls, labelled. */
  lemma ReadUrlsRoundTrip(urls: seq<string>)
    ensures ReadUrls(LinkFile(urls)).Ok?
    ensures var r := ReadUrls(LinkFile(urls)).value;
      |r| == |urls| && forall i :: 0 <= i < |urls| ==> r[i] == Request(Some(JStr(urls[i])), ArticleLabel)
  {
    var items := LinkFile(urls).items;
    forall i | 0 <= i < |urls|
      ensures items[i] != JNull && Href(items[i]) == Ok(Some(JStr(urls[i])))
    {
      assert items[i] == JObj([("href", JStr(urls[i]))]);
    }
  }

  /** `jsonData.hrefs` in `readJsonUrlsFromFile`: `undefined` unless an object binds it; a TypeError on `null`. */
  function ReadJsonUrls(data: Json): Result<Option<Json>> {
    match data
    case JNull => Err("Cannot read properties of null")
    case JObj(fields) => Ok(Get(fields, "hrefs"))
    case _ => Ok(None)
  }

  /**
   * The reader hands back the object's `hrefs` value unchanged, whatever it
   * is, and the last binding when the key is repeated.
   */
  lemma ReadJsonUrlsSpec(fields: seq<(string, Json)>, hrefs: Json)
    ensures ReadJsonUrls(JObj(fields + [("hrefs", hrefs)])) == Ok(Some(hrefs))
    ensures ReadJsonUrls(JObj(fields)).Ok?
    ensures ReadJsonUrls(JObj(fields)).value.None? <==> !HasKey(fields, "hrefs")
  {
  }

  /** `urls.split('\n').map(url => url.trim())` in `readFile`. */
  function ReadLines(text: string): seq<string> {
    var pieces := Split(text, '\n');
    seq(|pieces|, i requires 0 <= i < |pieces| => Trim(pieces[i]))
  }

  /**
   * One line more than there are line feeds, each the trimmed piece
   * between two line feeds; the untrimmed pieces join back to the text.
   */
  lemma ReadLinesSpec(text: string)
    ensures |ReadLines(text)| == Count(text, '\n') + 1
    ensures forall i :: 0 <= i < |ReadLines(text)| ==>
      IsTrimmed(ReadLines(text)[i]) && ReadLines(text)[i] == Trim(Split(text, '\n')[i]) && '\n' !in ReadLines(text)[i]
    ensures Join(Split(text, '\n'), "\n") == text
  {
    SplitCount(text, '\n');
    SplitPieces(text, '\n');
    SplitJoin(text, '\n');
    var pieces := Split(text, '\n');
    forall i | 0 <= i < |pieces|
      ensures '\n' !in Trim(pieces[i])
    {
      TrimIsSlice(pieces[i]);
    }
  }

  /** A trim keeps a contiguous part of the text. */
  lemma TrimIsSlice(s: string)
    ensures exists a, b :: 0 <= a <= b <= |s| && Trim(s) == s[a..b]
  {
    var t := TrimStart(s);
    var a := |s| - |t|;
    var r := TrimEnd(t);
    assert t == s[a..] && r == t[..|r|];
    assert t[..|r|] == s[a..a + |r|];
    assert Trim(s) == s[a..a + |r|];
  }
}
