/**
 * The YFINANCE handler of src/routes.js: scroll to the bottom, read the
 * item links, and repeat until a read returns more than Threshold items;
 * then push exactly that last read. A read that throws ends the handler
 * with nothing pushed.
 *
 * The page is an input: one entry per scroll, the list the link query read
 * (None when it threw).
 */
module YFinance {
  import opened Wrappers

  const Threshold: nat := 290

  type Read = Option<seq<string>>

  /**
   * How the handler ends, with the number of scrolls made. `PageExhausted`
   * is the model's own: the input ran out while the handler would go on.
   */
  datatype Outcome = Pushed(items: seq<string>, scrolls: nat) | Failed(scrolls: nat) | PageExhausted(scrolls: nat)

  /** The loop (src/routes.js:127-135) over the remaining reads, `n` scrolls made so far. */
  function Scroll(rs: seq<Read>, n: nat): Outcome
    decreases |rs|
  {
    if rs == [] then PageExhausted(n)
    else match rs[0]
      case None => Failed(n + 1)
      case Some(items) => if |items| > Threshold then Pushed(items, n + 1) else Scroll(rs[1..], n + 1)
  }

  /** Every read among the first `k` worked and returned at most Threshold items. */
  predicate Short(rs: seq<Read>, k: nat)
    requires k <= |rs|
  {
    forall j :: 0 <= j < k ==> rs[j].Some? && |rs[j].value| <= Threshold
  }

  /**
   * The handler pushes the first read longer than Threshold, after every
   * earlier read worked and was short; it fails at the first read that
   * throws, all earlier ones short; and it runs out of page only when
   * every read was short.
   */
  lemma {:induction false} ScrollSpec(rs: seq<Read>, n: nat)
    ensures var out := Scroll(rs, n); var k := out.scrolls - n;
      n <= out.scrolls && k <= |rs| &&
      (out.Pushed? ==> 1 <= k && rs[k - 1] == Some(out.items) && |out.items| > Threshold && Short(rs, k - 1)) &&
      (out.Failed? ==> 1 <= k && rs[k - 1].None? && Short(rs, k - 1)) &&
      (out.PageExhausted? ==> k == |rs| && Short(rs, k))
    decreases |rs|
  {
    if rs != [] && rs[0].Some? && |rs[0].value| <= Threshold {
      ScrollSpec(rs[1..], n + 1);
      var k := Scroll(rs, n).scrolls - n;
      assert forall j :: 1 <= j < k ==> rs[j] == rs[1..][j - 1];
    }
  }

  /** The handler, src/routes.js:125-136 (the consent click left aside). */
  method YFinance(rounds: seq<Read>) returns (out: Outcome)
    ensures out == Scroll(rounds, 0)
  {
    var isLoadingAvailable := true;
    var items: seq<string> := [];
    var i := 0;
    while isLoadingAvailable
      invariant 0 <= i <= |rounds|
      invariant isLoadingAvailable ==> Scroll(rounds[i..], i) == Scroll(rounds, 0)
      invariant !isLoadingAvailable ==> 1 <= i && Scroll(rounds, 0) == Pushed(items, i)
      decreases |rounds| - i
    {
      if i == |rounds| {
        return PageExhausted(i);
      }
      assert rounds[i..][0] == rounds[i] && rounds[i..][1..] == rounds[i + 1..];
      var read := rounds[i];
      i := i + 1;
      if read.None? {
        // the exception leaves the handler: nothing is pushed
        return Failed(i);
      }
      items := read.value;
      if |items| > Threshold {
        isLoadingAvailable := false;
      }
    }
    out := Pushed(items, i);
  }
}
