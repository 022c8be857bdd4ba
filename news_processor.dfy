/**
 * NewsProcessor in sentiment_analyzer/sentiment_pipeline.py: cleaning the
 * scraped ticker list, turning one scraped article into the processed record
 * (title and content stripped, the title weighted twice in the text given to
 * the analyzer), and validating a processed record.
 *
 * Articles arrive as parsed JSON. The analyzer, the date cleaner and the
 * clock are parameters: `analyze` is `sentiment_analyzer.analyze`,
 * `cleanDate` is `clean_date` applied to the article's `date` entry, and
 * `now` is the `processed_at` timestamp.
 */
module NewsProcessor {
  import opened Wrappers
  import opened Strings
  import opened JsonValues
  import opened SentimentAnalyzer

  const ExclusionPatterns: seq<string> := ["ad-free", "premium", "subscribe", "Get 100%", "experience"]

  /** Some exclusion pattern occurs in the ticker, ignoring case. */
  predicate Excluded(t: string) {
    exists k :: 0 <= k < |ExclusionPatterns| && Contains(Lower(t), Lower(ExclusionPatterns[k]))
  }

  /** What one entry of the ticker list contributes: a non-empty string, stripped, unless it is blank or excluded. */
  function Keep(item: Json): Option<string> {
    if item.JStr? && item.s != "" then
      var t := Trim(item.s);
      if t != "" && !Excluded(t) then Some(t) else None
    else None
  }

  /** What each entry keeps, entry by entry. */
  function Kept(items: seq<Json>): (ks: seq<Option<string>>)
    ensures |ks| == |items| && forall i :: 0 <= i < |items| ==> ks[i] == Keep(items[i])
  {
    seq(|items|, i requires 0 <= i < |items| => Keep(items[i]))
  }

  /** The values present in `os`, in order. */
  function Present(os: seq<Option<string>>): seq<string> {
    if os == [] then []
    else Present(os[..|os| - 1]) + (if os[|os| - 1].Some? then [os[|os| - 1].value] else [])
  }

  /** The kept tickers, in input order. */
  function ValidTickers(items: seq<Json>): seq<string> {
    Present(Kept(items))
  }

  /**
   * The keys of a dict built from `fields`, each once, where it first
   * occurs: what iterating a parsed JSON object yields.
   */
  function Keys(fields: seq<(string, Json)>): seq<string> {
    if fields == [] then []
    else
      var ks := Keys(fields[..|fields| - 1]);
      var key := fields[|fields| - 1].0;
      if key in ks then ks else ks + [key]
  }

  /**
   * What `for ticker in tickers_list` iterates for a truthy value: the items
   * of a list, the one-character strings of a string, the keys of an
   * object; a true boolean or a non-zero number is not iterable.
   */
  function Iterated(j: Json): Result<seq<Json>>
    requires Truthy(j)
  {
    match j
    case JArr(items) => Ok(items)
    case JStr(s) => Ok(seq(|s|, i requires 0 <= i < |s| => JStr([s[i]])))
    case JObj(fields) => var ks := Keys(fields); Ok(seq(|ks|, i requires 0 <= i < |ks| => JStr(ks[i])))
    case _ => Err("object is not iterable")
  }

  /** `clean_tickers`: "" for a falsy value, else the kept tickers joined with ", ". */
  function CleanedTickers(j: Json): Result<string> {
    if !Truthy(j) then Ok("")
    else match Iterated(j)
      case Err(e) => Err(e)
      case Ok(items) => Ok(Join(ValidTickers(items), ", "))
  }

  /** One value per present entry. */
  lemma {:induction false} PresentCount(os: seq<Option<string>>)
    ensures |Present(os)| == |set i | 0 <= i < |os| && os[i].Some?|
  {
    if os != [] {
      var init := os[..|os| - 1];
      PresentCount(init);
      var before := set i | 0 <= i < |init| && init[i].Some?;
      var after := set i | 0 <= i < |os| && os[i].Some?;
      assert forall i :: 0 <= i < |init| ==> init[i] == os[i];
      if os[|os| - 1].Some? {
        assert after == before + {|os| - 1};
      } else {
        assert after == before;
      }
    }
  }

  /** A value is present exactly when some entry holds it. */
  lemma {:induction false} PresentMembers(os: seq<Option<string>>)
    ensures forall t :: t in Present(os) <==> exists i :: 0 <= i < |os| && os[i] == Some(t)
  {
    if os != [] {
      var init := os[..|os| - 1];
      PresentMembers(init);
      assert forall i :: 0 <= i < |init| ==> init[i] == os[i];
      forall t | exists i :: 0 <= i < |os| && os[i] == Some(t)
        ensures t in Present(os)
      {
        var i :| 0 <= i < |os| && os[i] == Some(t);
        if i < |init| {
          assert init[i] == Some(t);
        }
      }
    }
  }

  /**
   * One kept ticker per entry that keeps one, and a ticker is kept exactly
   * when some entry keeps it.
   */
  lemma ValidTickersSpec(items: seq<Json>)
    ensures |ValidTickers(items)| == |set i | 0 <= i < |items| && Keep(items[i]).Some?|
    ensures forall t :: t in ValidTickers(items) <==> exists i :: 0 <= i < |items| && Keep(items[i]) == Some(t)
  {
    var ks := Kept(items);
    PresentCount(ks);
    PresentMembers(ks);
    assert (set i | 0 <= i < |ks| && ks[i].Some?) == (set i | 0 <= i < |items| && Keep(items[i]).Some?);
  }

  /** What an entry keeps is its stripped text, non-empty and free of every exclusion pattern. */
  lemma KeepSpec(item: Json)
    ensures Keep(item).Some? <==> item.JStr? && Trim(item.s) != "" && !Excluded(Trim(item.s))
    ensures Keep(item).Some? ==> Keep(item).value == Trim(item.s) && IsTrimmed(Keep(item).value)
  {
  }

  /** Appending an entry appends what it keeps. */
  lemma ValidTickersAppend(items: seq<Json>, item: Json)
    ensures ValidTickers(items + [item]) == ValidTickers(items) + (if Keep(item).Some? then [Keep(item).value] else [])
  {
    var ks := Kept(items + [item]);
    assert ks[..|items|] == Kept(items);
  }

  /** One more entry of the list appends what it keeps. */
  lemma ValidTickersStep(items: seq<Json>, i: nat)
    requires i < |items|
    ensures ValidTickers(items[..i + 1]) == ValidTickers(items[..i]) + (if Keep(items[i]).Some? then [Keep(items[i]).value] else [])
  {
    assert items[..i + 1] == items[..i] + [items[i]];
    ValidTickersAppend(items[..i], items[i]);
  }

  /** Every kept ticker is non-empty. */
  lemma ValidTickersNonEmpty(items: seq<Json>)
    ensures forall i :: 0 <= i < |ValidTickers(items)| ==> ValidTickers(items)[i] != []
  {
    var vs := ValidTickers(items);
    ValidTickersSpec(items);
    forall i | 0 <= i < |vs|
      ensures vs[i] != []
    {
      assert vs[i] in vs;
      var k :| 0 <= k < |items| && Keep(items[k]) == Some(vs[i]);
    }
  }

  /** Nothing kept, or a falsy list, gives ""; any kept ticker makes the result non-empty. */
  lemma CleanedTickersEmpty(j: Json)
    ensures !Truthy(j) ==> CleanedTickers(j) == Ok("")
    ensures Truthy(j) && Iterated(j).Ok? ==>
      (CleanedTickers(j) == Ok("") <==> ValidTickers(Iterated(j).value) == [])
  {
    if Truthy(j) && Iterated(j).Ok? {
      var items := Iterated(j).value;
      assert CleanedTickers(j) == Ok(Join(ValidTickers(items), ", "));
      ValidTickersNonEmpty(items);
      JoinEmpty(ValidTickers(items), ", ");
    }
  }

  /** The loop of `clean_tickers` (sentiment_pipeline.py:266-274). */
  method CleanTickers(tickersList: Json) returns (r: Result<string>)
    ensures r == CleanedTickers(tickersList)
  {
    if !Truthy(tickersList) {
      return Ok("");
    }
    var iterated := Iterated(tickersList);
    if iterated.Err? {
      return Err(iterated.error);
    }
    var items := iterated.value;
    var validTickers: seq<string> := [];
    for i := 0 to |items|
      invariant validTickers == ValidTickers(items[..i])
    {
      var ticker := items[i];
      ValidTickersStep(items, i);
      if ticker.JStr? && ticker.s != "" {
        var t := Trim(ticker.s);
        if t != "" && !Excluded(t) {
          validTickers := validTickers + [t];
        } else {
          assert Keep(ticker) == None;
        }
      } else {
        assert Keep(ticker) == None;
      }
    }
    assert items[..|items|] == items;
    r := Ok(Join(validTickers, ", "));
  }

  /** `article_data.get(key, '').strip()`: "" when absent, the stripped string, or an error for a value without `strip`. */
  function FieldText(fields: seq<(string, Json)>, key: string): Result<string> {
    match Get(fields, key)
    case None => Ok("")
    case Some(JStr(s)) => Ok(Trim(s))
    case Some(_) => Err("value has no strip")
  }

  /** `article_data.get(key, '')` */
  function GetOr(fields: seq<(string, Json)>, key: string, default: Json): Json {
    match Get(fields, key)
    case None => default
    case Some(v) => v
  }

  /** The processed record; the confidence in tenths, as the analyzer gives it. */
  datatype ProcessedArticle = ProcessedArticle(
    title: string,
    date: Option<string>,
    tickers: string,
    content: string,
    provider: Json,
    url: Json,
    sentimentScore: nat,
    sentimentDescription: string,
    confidenceTenths: nat,
    processedAt: string)

  /** The text the analyzer sees: the title twice, then the content. */
  function AnalysisText(title: string, content: string): string {
    title + " " + title + " " + content
  }

  /**
   * `process_article`: None for an article that is not an object, whose
   * title or content is blank, or on which any step raises.
   */
  function ProcessArticle(
    article: Json, analyze: string -> Sentiment, cleanDate: Option<Json> -> Option<string>, now: string
  ): Option<ProcessedArticle> {
    if !article.JObj? then None
    else
      var fields := article.fields;
      var title := FieldText(fields, "title");
      var content := FieldText(fields, "content");
      if title.Err? || content.Err? then None
      else if title.value == "" || content.value == "" then None
      else
        var sentiment := analyze(AnalysisText(title.value, content.value));
        match CleanedTickers(GetOr(fields, "tickers", JArr([])))
        case Err(_) => None
        case Ok(tickers) =>
          Some(ProcessedArticle(
            title.value, cleanDate(Get(fields, "date")), tickers, content.value,
            GetOr(fields, "newsProvider", JStr("")), GetOr(fields, "url", JStr("")),
            sentiment.score, sentiment.description, sentiment.confidenceTenths, now))
  }

  /** A non-blank title makes the analysis text non-blank, so the analyzer's blank-text guard never fires here. */
  lemma AnalysisTextNotBlank(title: string, content: string)
    requires Trim(title) != []
    ensures !AllSpace(AnalysisText(title, content))
  {
    var i :| 0 <= i < |title| && !IsSpace(title[i]);
    assert AnalysisText(title, content)[i] == title[i];
  }

  /**
   * An article is dropped exactly when it is not an object, when its title
   * or its content is absent, not a string, or only whitespace, or when its
   * ticker entry is truthy but neither a list, a string nor an object.
   */
  lemma ProcessArticleNone(
    article: Json, analyze: string -> Sentiment, cleanDate: Option<Json> -> Option<string>, now: string)
    ensures ProcessArticle(article, analyze, cleanDate, now).None? <==>
      !article.JObj? ||
      var title, content := Get(article.fields, "title"), Get(article.fields, "content");
      var tickers := GetOr(article.fields, "tickers", JArr([]));
      title.None? || !title.value.JStr? || AllSpace(title.value.s) ||
      content.None? || !content.value.JStr? || AllSpace(content.value.s) ||
      (Truthy(tickers) && !(tickers.JArr? || tickers.JStr? || tickers.JObj?))
  {
    if article.JObj? {
      var tickers := GetOr(article.fields, "tickers", JArr([]));
      assert CleanedTickers(tickers).Err? <==> Truthy(tickers) && !(tickers.JArr? || tickers.JStr? || tickers.JObj?);
    }
  }

  /**
   * A processed article carries the stripped, non-empty title and content,
   * and the score, description and confidence the analyzer gave for the
   * title, a space, the title, a space and the content.
   */
  lemma ProcessArticleSome(
    article: Json, analyze: string -> Sentiment, cleanDate: Option<Json> -> Option<string>, now: string)
    requires ProcessArticle(article, analyze, cleanDate, now).Some?
    ensures var a := ProcessArticle(article, analyze, cleanDate, now).value;
      var s := analyze(a.title + " " + a.title + " " + a.content);
      article.JObj? &&
      Get(article.fields, "title").Some? && Get(article.fields, "title").value.JStr? &&
      a.title == Trim(Get(article.fields, "title").value.s) && a.title != "" && IsTrimmed(a.title) &&
      Get(article.fields, "content").Some? && Get(article.fields, "content").value.JStr? &&
      a.content == Trim(Get(article.fields, "content").value.s) && a.content != "" && IsTrimmed(a.content) &&
      a.sentimentScore == s.score && a.sentimentDescription == s.description && a.confidenceTenths == s.confidenceTenths &&
      a.date == cleanDate(Get(article.fields, "date")) &&
      Ok(a.tickers) == CleanedTickers(GetOr(article.fields, "tickers", JArr([]))) &&
      a.processedAt == now
  {
  }

  /** A Python dict: each key bound once. */
  type Dict = map<string, Json>

  /** The record as the dict `process_article` builds. */
  function ToDict(a: ProcessedArticle): Dict {
    map[
      "title" := JStr(a.title),
      "date" := if a.date.Some? then JStr(a.date.value) else JNull,
      "tickers" := JStr(a.tickers),
      "content" := JStr(a.content),
      "provider" := a.provider,
      "url" := a.url,
      "sentiment_score" := JNum(a.sentimentScore as real),
      "sentiment_description" := JStr(a.sentimentDescription),
      "confidence" := JNum(a.confidenceTenths as real / 10.0),
      "processed_at" := JStr(a.processedAt)]
  }

  const RequiredFields: seq<string> := ["title", "date", "content", "sentiment_score", "sentiment_description", "confidence"]

  /** `field not in d or d[field] is None` */
  predicate Missing(d: Dict, field: string) {
    field !in d || d[field] == JNull
  }

  /** `1 <= score <= 3`, which raises for a value that is neither a number nor a boolean. */
  function ScoreInRange(score: Json): Result<bool> {
    match score
    case JNum(n) => Ok(1.0 <= n <= 3.0)
    case JBool(b) => Ok(b)
    case _ => Err("comparison not supported")
  }

  /**
   * What `validate_processed_article` decides: false for no record or an
   * empty one, false when a required field is missing or None, else whether
   * the score lies in 1..3.
   */
  function Validated(d: Option<Dict>): Result<bool> {
    if d.None? || d.value == map[] then Ok(false)
    else if exists k :: 0 <= k < |RequiredFields| && Missing(d.value, RequiredFields[k]) then Ok(false)
    else
      assert !Missing(d.value, RequiredFields[3]);
      ScoreInRange(d.value["sentiment_score"])
  }

  /** `validate_processed_article`, with its loop over the required fields (sentiment_pipeline.py:329-359). */
  method ValidateProcessedArticle(processedArticle: Option<Dict>) returns (r: Result<bool>)
    ensures r == Validated(processedArticle)
  {
    if processedArticle.None? || processedArticle.value == map[] {
      return Ok(false);
    }
    var d := processedArticle.value;
    for i := 0 to |RequiredFields|
      invariant forall k :: 0 <= k < i ==> !Missing(d, RequiredFields[k])
    {
      var field := RequiredFields[i];
      if field !in d || d[field] == JNull {
        return Ok(false);
      }
    }
    assert !Missing(d, RequiredFields[3]);
    r := ScoreInRange(d["sentiment_score"]);
  }

  /**
   * A processed article passes validation exactly when its date was
   * recognised and its score is at most 3: with a well-formed analysis the
   * score is at least 1, and the record always has every other field.
   */
  lemma ValidateProcessed(a: ProcessedArticle)
    requires 1 <= a.sentimentScore
    ensures Validated(Some(ToDict(a))) == Ok(a.date.Some? && a.sentimentScore <= 3)
  {
    var d := ToDict(a);
    assert "title" in d && "sentiment_score" in d;
    if a.date.None? {
      assert Missing(d, RequiredFields[1]);
    }
  }

  /**
   * Every article processed with the analyzer passes validation exactly
   * when its date was recognised and the score is 1, 2 or 3: the scores 4
   * and 5, which the analyzer gives, are rejected.
   */
  lemma ValidateAfterProcess(
    article: Json, prompt: Template, infer: string -> Option<string>,
    cleanDate: Option<Json> -> Option<string>, now: string)
    requires ProcessArticle(article, t => Analyze(prompt, t, infer), cleanDate, now).Some?
    ensures var a := ProcessArticle(article, t => Analyze(prompt, t, infer), cleanDate, now).value;
      1 <= a.sentimentScore <= 5 &&
      Validated(Some(ToDict(a))) == Ok(a.date.Some? && a.sentimentScore <= 3)
  {
    var analyze := t => Analyze(prompt, t, infer);
    var a := ProcessArticle(article, analyze, cleanDate, now).value;
    ProcessArticleSome(article, analyze, cleanDate, now);
    AnalyzeSpec(prompt, a.title + " " + a.title + " " + a.content, infer, infer);
    ValidateProcessed(a);
  }
}
