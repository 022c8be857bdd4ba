/**
 * The YAHOO-tickers handler of src/routes.js: read the article links of a
 * ticker's page after every scroll, compare the length of the raw list (not a
 * de-duplicated set) with the longest seen so far, allow three further scrolls
 * without growth, stop on the fourth, and push the ticker with the list of the
 * last read. A read that throws stops the loop at once and the push still
 * happens, with the list of the read before.
 *
 * The page is an input: one entry per scroll, the list the link query read
 * (None when it threw).
 */
module YahooTickers {
  import opened Wrappers
  import opened PageText

  /** `retryCount < 3` allows three non-growing rounds; the fourth ends the loop. */
  const MaxRetries: nat := 3

  type Read = Option<seq<string>>

  datatype State = State(lastCount: nat, retryCount: nat, nrScrolls: nat, articleUrls: seq<string>)

  /**
   * Why the loop ended. `PageExhausted` is the model's own: the input ran out
   * of scrolls while the handler would have gone on, so nothing is pushed yet.
   */
  datatype Stop = Settled | ReadFailed | PageExhausted

  datatype Outcome = Outcome(final: State, stop: Stop)

  /** `Dataset.pushData({ ticker, articleUrls })` */
  datatype TickerPush = TickerPush(ticker: string, articleUrls: seq<string>)

  const Init: State := State(0, 0, 0, [])

  /** The loop (src/routes.js:622-646) from state `st` over the remaining rounds. */
  function Run(st: State, rs: seq<Read>): Outcome
    decreases |rs|
  {
    if rs == [] then Outcome(st, PageExhausted)
    else
      var scrolled := st.(nrScrolls := st.nrScrolls + 1);
      match rs[0]
      case None => Outcome(scrolled, ReadFailed)
      case Some(urls) =>
        if |urls| > st.lastCount then
          Run(scrolled.(articleUrls := urls, retryCount := 0, lastCount := |urls|), rs[1..])
        else if st.retryCount < MaxRetries then
          Run(scrolled.(articleUrls := urls, retryCount := st.retryCount + 1), rs[1..])
        else Outcome(scrolled.(articleUrls := urls), Settled)
  }

  function Scrape(rounds: seq<Read>): Outcome {
    Run(Init, rounds)
  }

  /** What the handler pushes for `ticker` once the loop is over. */
  function Pushed(ticker: string, out: Outcome): Option<TickerPush> {
    if out.stop == PageExhausted then None else Some(TickerPush(ticker, out.final.articleUrls))
  }

  function Max(a: nat, b: nat): nat { if a < b then b else a }

  /** The longest list among the first `k` rounds (0 when none succeeded). */
  function MaxLen(rs: seq<Read>, k: nat): nat {
    if rs == [] || k == 0 then 0
    else Max(if rs[0].Some? then |rs[0].value| else 0, MaxLen(rs[1..], k - 1))
  }

  /** The list of the last successful read among the first `k`, or `prev` when none succeeded. */
  function LastRead(prev: seq<string>, rs: seq<Read>, k: nat): seq<string>
    decreases |rs|
  {
    if rs == [] || k == 0 then prev
    else LastRead(if rs[0].Some? then rs[0].value else prev, rs[1..], k - 1)
  }

  /** The number of scrolls the loop makes from `st` on. */
  function Scrolls(st: State, rs: seq<Read>): int {
    Run(st, rs).final.nrScrolls - st.nrScrolls
  }

  /**
   * One scroll per pass: the loop makes between one and all of the remaining
   * scrolls (all of them when the page runs out), every read before the last
   * one succeeded, the last read threw exactly when the loop stopped as
   * `ReadFailed`, and the retry counter never passes MaxRetries.
   */
  lemma {:induction false} RunScrolls(st: State, rs: seq<Read>)
    requires st.retryCount <= MaxRetries
    ensures var out, k := Run(st, rs), Scrolls(st, rs);
      0 <= k <= |rs| && out.final.retryCount <= MaxRetries &&
      (forall j :: 0 <= j < k - 1 ==> rs[j].Some?) &&
      (out.stop == PageExhausted ==> k == |rs| && (k == 0 || rs[k - 1].Some?)) &&
      (out.stop != PageExhausted ==> 1 <= k && (rs[k - 1].None? <==> out.stop == ReadFailed))
    decreases |rs|
  {
    if rs != [] && rs[0].Some? {
      var out := Run(st, rs);
      var urls := rs[0].value;
      var scrolled := st.(nrScrolls := st.nrScrolls + 1);
      if |urls| > st.lastCount {
        var next := scrolled.(articleUrls := urls, retryCount := 0, lastCount := |urls|);
        RunScrolls(next, rs[1..]);
        assert out == Run(next, rs[1..]);
        var k := Scrolls(st, rs);
        assert k == Scrolls(next, rs[1..]) + 1;
        assert k >= 2 ==> rs[k - 1] == rs[1..][k - 2];
        forall j | 1 <= j < k - 1
          ensures rs[j].Some?
        {
          assert rs[j] == rs[1..][j - 1];
        }
      } else if st.retryCount < MaxRetries {
        var next := scrolled.(articleUrls := urls, retryCount := st.retryCount + 1);
        RunScrolls(next, rs[1..]);
        assert out == Run(next, rs[1..]);
        var k := Scrolls(st, rs);
        assert k == Scrolls(next, rs[1..]) + 1;
        assert k >= 2 ==> rs[k - 1] == rs[1..][k - 2];
        forall j | 1 <= j < k - 1
          ensures rs[j].Some?
        {
          assert rs[j] == rs[1..][j - 1];
        }
      }
    }
  }

  /**
   * `lastCount` ends as the length of the longest list read, and the pushed
   * list is that of the last successful read, which may be shorter.
   */
  lemma {:induction false} RunLists(st: State, rs: seq<Read>)
    ensures var out, k := Run(st, rs), Scrolls(st, rs);
      k >= 0 &&
      out.final.lastCount == Max(st.lastCount, MaxLen(rs, k)) &&
      out.final.articleUrls == LastRead(st.articleUrls, rs, k)
    decreases |rs|
  {
    if rs != [] && rs[0].Some? {
      var urls := rs[0].value;
      var scrolled := st.(nrScrolls := st.nrScrolls + 1);
      if |urls| > st.lastCount {
        RunLists(scrolled.(articleUrls := urls, retryCount := 0, lastCount := |urls|), rs[1..]);
      } else if st.retryCount < MaxRetries {
        RunLists(scrolled.(articleUrls := urls, retryCount := st.retryCount + 1), rs[1..]);
      }
    }
  }

  /**
   * From a retry count of c, 4 - c rounds in a row that each return a list no
   * longer than `lastCount` end the loop as `Settled`, pushing the last of
   * those lists.
   */
  lemma {:induction false} SettlesAfter(st: State, rs: seq<Read>)
    requires st.retryCount <= MaxRetries
    requires |rs| >= MaxRetries + 1 - st.retryCount
    requires forall j :: 0 <= j <= MaxRetries - st.retryCount ==>
      rs[j].Some? && |rs[j].value| <= st.lastCount
    ensures var out := Run(st, rs);
      out.stop == Settled && Scrolls(st, rs) == MaxRetries + 1 - st.retryCount &&
      out.final.lastCount == st.lastCount &&
      out.final.articleUrls == rs[MaxRetries - st.retryCount].value
    decreases MaxRetries - st.retryCount
  {
    if st.retryCount < MaxRetries {
      var next := st.(nrScrolls := st.nrScrolls + 1, articleUrls := rs[0].value, retryCount := st.retryCount + 1);
      SettlesAfter(next, rs[1..]);
      assert Run(st, rs) == Run(next, rs[1..]);
    }
  }

  /**
   * What a `Settled` ending says about the rounds from state `st` on: each of
   * the last four rounds read a list no longer than the longest one before it.
   */
  predicate SettledFrom(st: State, rs: seq<Read>, k: int) {
    0 <= k <= |rs| && k + st.retryCount >= MaxRetries + 1 &&
    forall j :: k - (MaxRetries + 1) <= j < k && 0 <= j ==>
      rs[j].Some? && |rs[j].value| <= Max(st.lastCount, MaxLen(rs, j))
  }

  lemma {:induction false} SettledTail(st: State, rs: seq<Read>)
    requires Run(st, rs).stop == Settled
    ensures SettledFrom(st, rs, Scrolls(st, rs))
    decreases |rs|
  {
    var out := Run(st, rs);
    var urls := rs[0].value;
    var scrolled := st.(nrScrolls := st.nrScrolls + 1);
    var k := Scrolls(st, rs);
    if |urls| > st.lastCount || st.retryCount < MaxRetries {
      var next := if |urls| > st.lastCount then scrolled.(articleUrls := urls, retryCount := 0, lastCount := |urls|)
        else scrolled.(articleUrls := urls, retryCount := st.retryCount + 1);
      assert out == Run(next, rs[1..]);
      SettledTail(next, rs[1..]);
      assert k == Scrolls(next, rs[1..]) + 1;
      assert next.lastCount == Max(st.lastCount, |urls|);
      forall j | k - (MaxRetries + 1) <= j < k && 0 <= j
        ensures rs[j].Some? && |rs[j].value| <= Max(st.lastCount, MaxLen(rs, j))
      {
        if j > 0 {
          assert rs[j] == rs[1..][j - 1];
          assert MaxLen(rs, j) == Max(|urls|, MaxLen(rs[1..], j - 1));
        }
      }
    }
  }

  /**
   * A loop that ended `Settled` made at least four scrolls, and in each of
   * the last four the read succeeded and its list was no longer than the
   * longest list read before it.
   */
  lemma ScrapeSettled(rounds: seq<Read>)
    requires Scrape(rounds).stop == Settled
    ensures var k := Scrape(rounds).final.nrScrolls;
      MaxRetries + 1 <= k <= |rounds| &&
      forall j :: k - (MaxRetries + 1) <= j < k ==> rounds[j].Some? && |rounds[j].value| <= MaxLen(rounds, j)
  {
    SettledTail(Init, rounds);
  }

  /** A failed read still pushes, with the list of the last read that worked (or none). */
  lemma ScrapeReadFailed(ticker: string, rounds: seq<Read>)
    requires Scrape(rounds).stop == ReadFailed
    ensures var k := Scrape(rounds).final.nrScrolls;
      1 <= k <= |rounds| && rounds[k - 1].None? && (forall j :: 0 <= j < k - 1 ==> rounds[j].Some?) &&
      Pushed(ticker, Scrape(rounds)) == Some(TickerPush(ticker, LastRead([], rounds, k - 1)))
  {
    var out := Scrape(rounds);
    var k := out.final.nrScrolls;
    RunScrolls(Init, rounds);
    assert 1 <= k <= |rounds| && rounds[k - 1].None?;
    RunLists(Init, rounds);
    assert out.final.articleUrls == LastRead([], rounds, k);
    LastReadSkips([], rounds, k);
  }

  /** A read that threw at the end of the first `k` leaves the last successful list as it was. */
  lemma {:induction false} LastReadSkips(prev: seq<string>, rs: seq<Read>, k: nat)
    requires 1 <= k <= |rs| && rs[k - 1].None?
    ensures LastRead(prev, rs, k) == LastRead(prev, rs, k - 1)
    decreases k
  {
    if k > 1 {
      LastReadSkips(if rs[0].Some? then rs[0].value else prev, rs[1..], k - 1);
    }
  }

  /** The handler, src/routes.js:613-649 (the consent click left aside). */
  method YahooTickers(url: string, rounds: seq<Read>) returns (push: Option<TickerPush>, out: Outcome)
    ensures out == Scrape(rounds) && push == Pushed(YahooTicker(url), out)
  {
    var lastCount: nat := 0;
    var retryCount: nat := 0;
    var nrScrolls: nat := 0;
    var flag := true;
    var articleUrls: seq<string> := [];
    var ticker := YahooTicker(url);
    var i := 0;
    while flag
      invariant 0 <= i <= |rounds| && nrScrolls == i
      invariant flag ==> Run(State(lastCount, retryCount, nrScrolls, articleUrls), rounds[i..]) == Scrape(rounds)
      invariant !flag ==> Scrape(rounds) == Outcome(State(lastCount, retryCount, nrScrolls, articleUrls), Settled)
      decreases |rounds| - i
    {
      if i == |rounds| {
        return None, Outcome(State(lastCount, retryCount, nrScrolls, articleUrls), PageExhausted);
      }
      assert rounds[i..][0] == rounds[i] && rounds[i..][1..] == rounds[i + 1..];
      nrScrolls := nrScrolls + 1;
      var read := rounds[i];
      i := i + 1;
      if read.None? {
        // the handler logs the error and leaves the loop
        assert Scrape(rounds) == Outcome(State(lastCount, retryCount, nrScrolls, articleUrls), ReadFailed);
        break;
      }
      articleUrls := read.value;
      if |articleUrls| > lastCount {
        retryCount := 0;
        lastCount := |articleUrls|;
      } else if retryCount < MaxRetries {
        retryCount := retryCount + 1;
      } else {
        flag := false;
      }
    }
    out := Outcome(State(lastCount, retryCount, nrScrolls, articleUrls), if flag then ReadFailed else Settled);
    push := Some(TickerPush(ticker, articleUrls));
  }
}
