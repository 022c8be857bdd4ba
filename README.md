# sentiment_crawler — a verified model of its sequential core

This project models the parts of the financial-news crawler and its
sentiment pipeline that are plain sequential logic:

- **The link-collection loops of the crawler's handlers** (`src/routes.js`):
  - MOTLEYFOOL-LINKS and FORBES-LINKS accumulate article links into a
    JavaScript `Set`, count consecutive rounds without a new link, and push
    snapshots.
  - YAHOO-tickers scrolls until the raw list of links stops growing.
  - YFINANCE scrolls until a read returns more than 290 items.
  - INVESTING enqueues one INVESTING-ARTICLE request per container that has
    a link.
  - The handlers' small text transforms: the Motley Fool ticker, the
    cleaned paragraphs, the Forbes article text and the Yahoo ticker.
- **The sentiment pipeline's parsers and validators**
  (`sentiment_analyzer/sentiment_pipeline.py`):
  - the parse of the language model's reply into score, confidence and
    reasoning;
  - the neutral default sentiment;
  - the blank-text guard of `analyze`;
  - ticker cleaning;
  - article processing;
  - validation of a processed article.
- **The URL helpers** (`src/utils.mjs`) and **the configuration checks**
  (`src/config.js`).

The browser is an input. Each handler loop takes a finite sequence of
rounds. A round says what the link query read (or that it threw) and
whether the load-more click worked. The handler returns its pushes or
enqueued requests as an output log, together with its final loop state and
the reason it stopped.

Each loop is written twice:

- an imperative `method` that runs the source's `while` loop with the
  source's own variables;
- a specification: a `Step` function for one pass and a recursive `Run`
  over the rounds.

The method's postcondition ties it to the specification. Lemmas about
`Run` then state the handler's invariants and stop conditions. The `Set`
is the class `LinkSet.HrefSet`. It keeps its members in insertion order
and a membership index, as `Array.from(set)` sees them.

The environment is a `map<string, string>`. A file's text or its parsed
JSON value is an input. The language model is a function from prompt to
reply, or to `None` when the call raises. `clean_date` and the clock are
parameters.

Whitespace is the ASCII set (space, tab, line feed, vertical tab, form
feed, carriage return). This set is used for JavaScript's `trim`, Python's
`strip` and the regular-expression class `\s`. `str.lower()` is modelled on
ASCII letters only. Python confidences 0.9/0.7/0.5 are kept as tenths
(9/7/5).

The design description of this crawler speaks of one generic collector.
That collector has a round ceiling, a wall-clock limit and typed
termination reasons. The code has none of these: each handler runs its own
loop with its own stop rule. The model follows the code. Each handler's
stop reasons are only the ones its code can produce. `PageExhausted` is
the model's own reason: the finite input ran out while the real loop would
have continued.

## Model

| member | source | states |
|---|---|---|
| `LinkSet.UnionPrefix` | src/routes.js:298 | adding a read to the Set keeps the old members in place and in order, and only appends after them |
| `LinkSet.UnionElems` | src/routes.js:298 | after `forEach(add)` the Set's members are exactly the old members plus the read's hrefs |
| `LinkSet.UnionDistinct` | src/routes.js:298 | the Set never holds a duplicate href |
| `LinkSet.UnionConcat` | src/routes.js:298 | adding two reads one after the other is the same as adding their concatenation |
| `LinkSet.CardOfDistinct` | src/routes.js:301 | `set.size` is the length of the duplicate-free insertion order |
| `LinkSet.UnionOfKnown` | src/routes.js:298 | re-adding hrefs that are already present changes nothing |
| `LinkSet.UnionIdempotent` | src/routes.js:298 | adding the same read twice is the same as adding it once |
| `LinkSet.UnionGrows` | src/routes.js:301 | the size grows iff the read holds an href that was not collected yet |
| `LinkSet.HrefSet.Size` | src/routes.js:301 | `size` equals the number of members, in insertion order |
| `LinkSet.HrefSet.ToArray` | src/routes.js:326 | `Array.from(set)` is duplicate-free and has `size` elements |
| `LinkSet.HrefSet.Add` | src/routes.js:298 | `add` appends an href that is not present and ignores one that is |
| `LinkSet.HrefSet.AddAll` | src/routes.js:298 | `forEach(add)` leaves the Set equal to `Union` of the old order and the read |
| `MotleyFoolLinks.Step` | src/routes.js:292-326 | one pass keeps `previousLength` equal to the Set's size |
| `MotleyFoolLinks.StepSpec` | src/routes.js:292-326 | a throwing read stops the loop with nothing pushed; otherwise `consecutiveNoChange` resets to 0 iff the read held a new href and increments by 1 otherwise; a growing round with no load-more button stops without pushing; every other round pushes the whole Set |
| `MotleyFoolLinks.RunCollected` | src/routes.js:283-304 | `previousLength` stays the Set's size, and the Set ends up as the old Set with every href read by the rounds that ran added in order |
| `MotleyFoolLinks.CollectedExactly` | src/routes.js:283-304 | the final Set holds exactly the hrefs read by the rounds that ran, each once |
| `MotleyFoolLinks.RunPushes` | src/routes.js:290-326 | each pushed snapshot is a prefix of every later one and of the final Set, so the Set never shrinks; there is one push per round, except on a round that stopped the loop because the read threw or the button was missing |
| `MotleyFoolLinks.StallsEndLoop` | src/routes.js:286-290 | from a counter of c, 3 - c successful rounds without a new href end the loop as `Stalled`, each pushing the unchanged Set |
| `MotleyFoolLinks.CollectStalled` | src/routes.js:319-322 | a loop that ended `Stalled` ran at least 3 rounds; each of its last 3 reads succeeded and held only hrefs read by earlier rounds |
| `MotleyFoolLinks.MotleyFoolLinks` | src/routes.js:283-330 | the handler's loop, on `HrefSet`, computes exactly the specification `Collect`, ends with a duplicate-free Set, and runs no more rounds than the page offers |
| `ForbesLinks.Step` | src/routes.js:446-481 | one pass keeps `previousLength` equal to the Set's size |
| `ForbesLinks.StepSpec` | src/routes.js:459-478 | on a clicked, successful round the counter resets iff the Set grew and increments otherwise, and a batch is pushed iff the Set grew |
| `ForbesLinks.StepShape` | src/routes.js:446-481 | a click or read that throws stops the loop with nothing changed or pushed; a pushed batch is `{hrefs: Array.from(set), total: size}` of a Set that grew |
| `ForbesLinks.RunCollected` | src/routes.js:436-466 | `previousLength` stays the Set's size, and the Set is the old Set with every href read by the rounds that ran added in order |
| `ForbesLinks.CollectedExactly` | src/routes.js:436-466 | the final Set holds exactly the hrefs read by the rounds that ran, each once |
| `ForbesLinks.CollectPushes` | src/routes.js:465-474 | every pushed batch's `total` equals its number of hrefs, and it holds no duplicate; each batch strictly extends the one before |
| `ForbesLinks.StallsEndLoop` | src/routes.js:439-444 | from a counter of c, 5 - c clicked rounds without a new href end the loop as `Stalled` and push nothing |
| `ForbesLinks.CollectStalled` | src/routes.js:439-481 | a loop that ended `Stalled` ran at least 5 rounds; in each of the last 5 the click worked and the read held only hrefs read by earlier rounds |
| `ForbesLinks.ForbesLinks` | src/routes.js:436-490 | the handler's loop, on `HrefSet`, computes exactly the specification `Collect`, ends with a duplicate-free Set, and runs no more rounds than the page offers |
| `YahooTickers.RunScrolls` | src/routes.js:622-630 | one scroll per pass; every read before the last one performed succeeded; the loop stops as `ReadFailed` exactly when that last read threw; `retryCount` never exceeds 3 |
| `YahooTickers.RunLists` | src/routes.js:633-646 | `lastCount` ends as the length of the longest raw list read (not a deduplicated count), and the pushed list is the one from the last successful read |
| `YahooTickers.SettlesAfter` | src/routes.js:633-646 | from a retry count of c, 4 - c reads in a row with no longer list end the loop, pushing the last of those lists |
| `YahooTickers.ScrapeSettled` | src/routes.js:633-646 | a loop that settled scrolled at least 4 times; each of its last 4 reads succeeded and was no longer than the longest list read before it |
| `YahooTickers.ScrapeReadFailed` | src/routes.js:625-648 | a read that throws stops the loop at once: every earlier read succeeded, and the handler still pushes the ticker with the list from the previous successful read |
| `YahooTickers.YahooTickers` | src/routes.js:613-649 | the handler's loop computes exactly the specification `Scrape` and pushes the ticker derived from the URL |
| `YFinance.ScrollSpec` | src/routes.js:127-136 | the loop ends only after a read of more than 290 items, pushes exactly that read, and every earlier read was successful and short; a read that throws ends the handler with nothing pushed |
| `YFinance.YFinance` | src/routes.js:125-136 | the handler's loop computes exactly the specification `Scroll` |
| `InvestingLinks.Extract` | src/routes.js:169-177 | the extracted url is the link's href, and the provider is the trimmed provider text, or null when absent |
| `InvestingLinks.AcceptedSpec` | src/routes.js:180-190 | the accepted positions are strictly increasing, each holds a container whose link is a non-empty string, and every such container's position is among them |
| `InvestingLinks.EnqueuedSpec` | src/routes.js:180-190 | the k-th request comes from the k-th accepted container: it carries that container's url, the INVESTING-ARTICLE label and its trimmed provider, and there is no other request |
| `InvestingLinks.EnqueueArticles` | src/routes.js:168-193 | the container loop enqueues exactly `Enqueued(containers)`, in order |
| `PageText.MotleyTickerSpec` | src/routes.js:379 | the ticker is the trimmed text after the last ':' when there is one, otherwise the whole trimmed text |
| `PageText.CleanParagraphsSpec` | src/routes.js:386 | trim-then-filter keeps exactly the trimmed non-blank paragraphs, in order |
| `PageText.CleanParagraphsKept` | src/routes.js:386 | every kept paragraph is non-empty and has no outer whitespace |
| `PageText.ForbesTextSpec` | src/routes.js:509-512 | the article text is empty iff every paragraph is blank, and it has no outer whitespace |
| `PageText.YahooTickerSpec` | src/routes.js:619 | for a quote URL the ticker is the path segment after the prefix, up to the next '/' or the end; it never contains '/' |
| `SentimentAnalyzer.ScoreMatch` | sentiment_analyzer/sentiment_pipeline.py:97 | no match iff no `SCORE:` is followed by optional whitespace and a digit; otherwise the single digit of the leftmost match |
| `SentimentAnalyzer.ConfidenceLevel` | sentiment_analyzer/sentiment_pipeline.py:98-107 | the level is High, Medium or Low; Low when there is no `CONFIDENCE:` match; otherwise the word of the leftmost match, after optional whitespace |
| `SentimentAnalyzer.ConfidenceExample` | sentiment_analyzer/sentiment_pipeline.py:98 | a reply "CONFIDENCE: Medium" reads as Medium |
| `SentimentAnalyzer.ReasoningSpec` | sentiment_analyzer/sentiment_pipeline.py:99-108 | the reasoning is the stripped rest of the reply after the first `REASONING:`, later lines included; it is "" when the label is absent |
| `SentimentAnalyzer.ParseResponseSpec` | sentiment_analyzer/sentiment_pipeline.py:97-125 | the default is returned iff there is no score match or the digit is 0 or 6-9; otherwise the score is that digit with its description, the confidence maps High/Medium/Low to 9/7/5 tenths, and the raw reply is kept |
| `SentimentAnalyzer.ScoreExamples` | sentiment_analyzer/sentiment_pipeline.py:97-106 | only one digit is captured: a reply "SCORE: 10" reads as 1 |
| `SentimentAnalyzer.ParseHighScores` | sentiment_analyzer/sentiment_pipeline.py:111-113 | the parser accepts the scores 4 and 5 |
| `SentimentAnalyzer.AnalyzeSpec` | sentiment_analyzer/sentiment_pipeline.py:146-165 | every result is well formed; blank text gives the default (score 3, confidence 5 tenths, no raw reply) whatever the model would answer; a failed call gives the default; otherwise the result is the parse of the model's reply |
| `NewsProcessor.KeepSpec` | sentiment_analyzer/sentiment_pipeline.py:266-273 | an entry is kept iff it is a string whose stripped form is non-empty and contains no exclusion pattern (ignoring case); what is kept is the stripped form |
| `NewsProcessor.ValidTickersSpec` | sentiment_analyzer/sentiment_pipeline.py:266-273 | one kept ticker per entry that keeps one, and a ticker is kept iff some entry keeps it |
| `NewsProcessor.CleanedTickersEmpty` | sentiment_analyzer/sentiment_pipeline.py:261-274 | a falsy list gives ""; otherwise the result is "" iff nothing was kept |
| `NewsProcessor.CleanTickers` | sentiment_analyzer/sentiment_pipeline.py:250-274 | the loop builds exactly the kept tickers, in input order, and joins them with ", " |
| `NewsProcessor.AnalysisTextNotBlank` | sentiment_analyzer/sentiment_pipeline.py:295-304 | a non-blank title makes the analysis text non-blank, so the analyzer's blank guard never fires here |
| `NewsProcessor.ProcessArticleNone` | sentiment_analyzer/sentiment_pipeline.py:289-327 | an article is dropped iff it is not an object, its title or content is missing, not a string or blank after stripping, or its `tickers` entry (an empty list when absent) is truthy but not a list, string or object |
| `NewsProcessor.ProcessArticleSome` | sentiment_analyzer/sentiment_pipeline.py:291-317 | a processed article has the stripped, non-empty title and content; its score, description and confidence come from the analysis of title + " " + title + " " + content |
| `NewsProcessor.ValidateProcessedArticle` | sentiment_analyzer/sentiment_pipeline.py:329-359 | the loop over the required fields decides exactly `Validated`: false for no record or an empty one, false for a missing or None field, else whether the score is in 1..3 |
| `NewsProcessor.ValidateProcessed` | sentiment_analyzer/sentiment_pipeline.py:340-359 | a processed record passes iff its date was recognised and its score is at most 3 |
| `NewsProcessor.ValidateAfterProcess` | sentiment_analyzer/sentiment_pipeline.py:355-357 | for articles scored by the analyzer (score 1..5), validation rejects the scores 4 and 5, which the parser accepts |
| `Utils.CreateUrlsSpec` | src/utils.mjs:5-7 | fails with `RangeError` iff `count` exceeds 2^32 - 1; otherwise exactly `count` entries (none for a count below 1); entry i is `base + "/" + (i+1)` with the given label; all urls are pairwise distinct |
| `Utils.ReadUrlsSpec` | src/utils.mjs:23-25 | mapping succeeds iff the data is an array with no null item; the result has one request per item, in order, each with the item's href and the INVESTING-ARTICLE label |
| `Utils.ReadUrlsRoundTrip` | src/utils.mjs:23-25 | reading the link file written for a list of urls gives back exactly those urls, labelled |
| `Utils.ReadJsonUrlsSpec` | src/utils.mjs:40 | returns the object's `hrefs` value unchanged (the last binding wins), or undefined when the key is absent |
| `Utils.ReadLinesSpec` | src/utils.mjs:53 | one more line than there are line feeds; each line is a trimmed piece without a line feed; the untrimmed pieces join back to the text |
| `Config.UnsetSpec` | src/config.js:24 | a variable is reported iff it is required and unset or empty, and none is reported twice |
| `Config.ValidateEnvSpec` | src/config.js:16-27 | throws iff any of the five required variables is unset or empty; the message lists exactly those variables, in declared order, joined with ", " |
| `Config.BuildProxyUrlSpec` | src/config.js:55-56 | the proxy URL always starts with "http://" and so is never empty; after the last '@' comes `host:port` |
| `Config.ParseInt` | src/config.js:65 | `parseInt` skips leading whitespace and an optional sign, reads the longest run of decimal digits, and ignores the rest; no digits gives NaN |
| `Config.ParseIntPrefixExamples` | src/config.js:65 | " 12abc" parses as 12 and "abc" as NaN |
| `Config.ParseIntSignExamples` | src/config.js:65 | "+5" parses as 5 and "007" as 7 |
| `Config.ParseIntNumeral` | src/config.js:65 | `parseInt` of a decimal numeral, with or without a minus sign, gives its value back |
| `Config.PagesCountSpec` | src/config.js:65 | the pages count is never 0: NaN (unset or no leading digits) or 0 gives 3, and any other parsed value, negative ones included, is kept |
| `Config.ValidateConfig` | src/config.js:73-81 | throws iff the base URL is falsy, the proxy URL is empty, or `pagesCount < 1`; the message lists the failures in that order |
| `Config.ConfigFromEnv` | src/config.js:56-77 | for the configuration read from the environment the proxy check never fails; once the environment check has passed, `validateConfig` fails only for a negative pages count |

## Left out

- Browser interaction is not modelled: Puppeteer/Crawlee calls, selectors,
  consent dialogs, `enqueueLinks`/`pushData` internals and the router
  registration API. Page reads are inputs; pushes and enqueues are an
  output log.
- Timing and randomness are not modelled: delays, `waitForTimeout`,
  `Math.random` jitter and timestamps (`processed_at` is a parameter).
- `humanLikeScroll` and `getDynamicScrollItems` are not modelled. The first
  is driven by time and randomness; the second is never called.
- The NASDAQ `while(true)` loop is not modelled: its exit depends on
  Puppeteer `Locator` truthiness.
- LISTAFIRME-FIRM, the empty REUTERS/STOCKTWITS/CNBC handlers and the
  default handler are not modelled.
- src/main.js is not part of this model: crawler configuration, the error
  log file and process exit.
- The model-loading parts of the analyzer and sentiment_analyzer/inference.py
  are not modelled. The model call is the parameter `infer`.
- `clean_date` (pandas date parsing) and the pipeline's `main()` are not
  modelled. The cleaned date is the parameter `cleanDate`.
- services/news_providers.js is not modelled: it holds only constant URL
  tables.
- Loading the environment through dotenv, `configurePuppeteer` and
  `CONFIG.outputPath` are not modelled.
- Reading files and `JSON.parse` are not modelled: the readers take the
  already-read text or parsed value.
- Each handler loop reads a finite sequence of rounds. When the input runs
  out while the real loop would continue, the model stops with
  `PageExhausted`. On a page that keeps growing forever, the real handler
  never ends; the model cannot express that.
- A `pushData` or `enqueueLinks` call that itself throws is not modelled.
- Whitespace is the six ASCII characters listed above. Python's `strip()`
  and `\s` also treat the separators U+001C to U+001F and non-ASCII spaces
  as whitespace; JavaScript's `trim` also strips non-ASCII spaces and the
  byte-order mark. Neither is captured, nor is non-ASCII case folding in
  `lower()`.
- Digits are the ASCII digits. Python's `\d` and `int()` also accept other
  Unicode decimal digits; that is not captured.
- The `parseInt` model reads leading ASCII whitespace, an optional sign and
  decimal digits. It does not model JavaScript's other whitespace characters.
- SentimentAnalyzer.Format: the prompt template is stored already split
  at its single `{text}` field. How `str.format` parses the template's
  literal text is not modelled, so nothing is stated about that literal.
- YAHOO-tickers calls `humanLikeScroll` outside its `try` (src/routes.js:638,
  641). A throw there ends the handler with nothing pushed; the model's
  scroll never throws.
- INVESTING's `page.evaluate` (src/routes.js:168-176) can throw after
  earlier containers were enqueued. The surrounding `catch` then ends the
  container loop, keeping those requests. The model reads every container
  as one input and does not express that early end.
