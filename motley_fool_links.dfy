/**
 * The MOTLEYFOOL-LINKS handler of src/routes.js: read the article links on
 * the listing page, add them to a Set, click "load more" after every round
 * that found a new link, push the whole Set after every round, and stop after
 * MaxRetries consecutive rounds without a new link.
 *
 * The page is an input: one `Round` per pass of the loop, giving what the link
 * query read (None when the query threw) and whether the load-more button
 * appeared and was clicked. `pushData` calls are collected in `pushes`.
 */
module MotleyFoolLinks {
  import opened Wrappers
  import opened LinkSet

  const MaxRetries: nat := 3

  datatype Round = Round(hrefs: Option<seq<string>>, loadMore: bool)

  /** The handler's loop variables: `collectedHrefs` (insertion order), `previousLength`, `consecutiveNoChange`. */
  datatype State = State(collected: seq<string>, previousLength: nat, consecutiveNoChange: nat)

  /**
   * Why the loop ended. `PageExhausted` is the model's own: the input ran out
   * of rounds while the handler would have gone on.
   */
  datatype Stop = Stalled | NoLoadMore | ReadFailed | PageExhausted

  datatype Outcome = Outcome(pushes: seq<seq<string>>, final: State, stop: Stop, rounds: nat)

  datatype StepResult = StepResult(next: State, push: Option<seq<string>>, stop: Option<Stop>)

  const Init: State := State([], 0, 0)

  /** What holds at the top of every pass: `previousLength` is the Set's size. */
  predicate Valid(st: State) {
    st.previousLength == |st.collected|
  }

  /** The read holds a link not collected yet. */
  predicate Grows(st: State, hs: seq<string>) {
    !(Elems(hs) <= Elems(st.collected))
  }

  /** One pass of the loop body (src/routes.js:292-326). */
  function Step(st: State, round: Round): (r: StepResult)
    requires Valid(st)
    ensures Valid(r.next)
  {
    match round.hrefs
    case None => StepResult(st, None, Some(ReadFailed))
    case Some(hs) =>
      var c := Union(st.collected, hs);
      if |c| > st.previousLength then
        var next := State(c, |c|, 0);
        if round.loadMore then StepResult(next, Some(c), None) else StepResult(next, None, Some(NoLoadMore))
      else
        StepResult(State(c, st.previousLength, st.consecutiveNoChange + 1), Some(c), None)
  }

  /** The shape of one pass: what it adds, and that it pushes the Set exactly when the loop goes on. */
  lemma StepShape(st: State, round: Round)
    requires Valid(st)
    ensures var r := Step(st, round);
      (round.hrefs.None? ==> r == StepResult(st, None, Some(ReadFailed))) &&
      (round.hrefs.Some? ==> r.next.collected == Union(st.collected, round.hrefs.value)) &&
      (r.stop.None? ==> r.push == Some(r.next.collected)) &&
      (r.stop.Some? && round.hrefs.Some? ==> r.stop == Some(NoLoadMore) && r.push.None?) &&
      IsPrefix(st.collected, r.next.collected)
  {
    if round.hrefs.Some? {
      UnionPrefix(st.collected, round.hrefs.value);
    }
  }

  /**
   * What one pass does: a read that throws ends the loop with nothing
   * changed and nothing pushed; otherwise the read is added to the Set, the
   * no-change counter is reset exactly when the read held a new href and
   * incremented otherwise, and the Set is pushed unless the round found
   * something new but had no load-more button to click, which ends the loop.
   */
  lemma StepSpec(st: State, round: Round)
    requires Valid(st)
    ensures var r := Step(st, round);
      (round.hrefs.None? ==> r == StepResult(st, None, Some(ReadFailed))) &&
      (round.hrefs.Some? ==>
        var hs := round.hrefs.value;
        r.next.collected == Union(st.collected, hs) &&
        Elems(r.next.collected) == Elems(st.collected) + Elems(hs) &&
        r.next.consecutiveNoChange == (if Grows(st, hs) then 0 else st.consecutiveNoChange + 1) &&
        (r.stop.Some? <==> Grows(st, hs) && !round.loadMore) &&
        (r.stop.Some? ==> r.stop == Some(NoLoadMore) && r.push.None?) &&
        (r.stop.None? ==> r.push == Some(r.next.collected)))
  {
    if round.hrefs.Some? {
      UnionGrows(st.collected, round.hrefs.value);
      UnionElems(st.collected, round.hrefs.value);
    }
  }

  /** The loop from state `st` over the remaining rounds, `pushes` and `n` rounds done so far. */
  function Run(st: State, rs: seq<Round>, pushes: seq<seq<string>>, n: nat): Outcome
    requires Valid(st)
    decreases |rs|
  {
    if st.consecutiveNoChange >= MaxRetries then Outcome(pushes, st, Stalled, n)
    else if rs == [] then Outcome(pushes, st, PageExhausted, n)
    else
      var s := Step(st, rs[0]);
      var pushes' := if s.push.Some? then pushes + [s.push.value] else pushes;
      if s.stop.Some? then Outcome(pushes', s.next, s.stop.value, n + 1)
      else Run(s.next, rs[1..], pushes', n + 1)
  }

  function Collect(rounds: seq<Round>): Outcome {
    Run(Init, rounds, [], 0)
  }

  /** The hrefs the first `k` rounds of `rs` read, in order (nothing for a read that threw). */
  function AllRead(rs: seq<Round>, k: nat): seq<string> {
    if rs == [] || k == 0 then []
    else (if rs[0].hrefs.Some? then rs[0].hrefs.value else []) + AllRead(rs[1..], k - 1)
  }

  /** What the loop keeps about the Set, from state `st` on. */
  predicate CollectedFrom(st: State, rs: seq<Round>, out: Outcome, n: nat) {
    Valid(out.final) && n <= out.rounds <= n + |rs| &&
    out.final.collected == Union(st.collected, AllRead(rs, out.rounds - n))
  }

  /** If the pass on `rs[0]` goes on, what holds after it carries back to before it. */
  lemma CollectedCons(st: State, rs: seq<Round>, pushes: seq<seq<string>>, n: nat)
    requires Valid(st) && st.consecutiveNoChange < MaxRetries && rs != []
    requires Step(st, rs[0]).stop.None?
    requires var s := Step(st, rs[0]);
      CollectedFrom(s.next, rs[1..], Run(s.next, rs[1..], pushes + [s.push.value], n + 1), n + 1)
    ensures CollectedFrom(st, rs, Run(st, rs, pushes, n), n)
  {
    var s := Step(st, rs[0]);
    StepShape(st, rs[0]);
    var e0 := if rs[0].hrefs.Some? then rs[0].hrefs.value else [];
    var out := Run(st, rs, pushes, n);
    var rest := Run(s.next, rs[1..], pushes + [s.push.value], n + 1);
    assert out.final == rest.final && out.rounds == rest.rounds;
    var k := out.rounds - n;
    var later := AllRead(rs[1..], k - 1);
    assert AllRead(rs, k) == e0 + later;
    assert s.next.collected == Union(st.collected, e0);
    calc {
      out.final.collected;
      Union(s.next.collected, later);
      Union(Union(st.collected, e0), later);
      { UnionConcat(st.collected, e0, later); }
      Union(st.collected, AllRead(rs, k));
    }
  }

  /** A pass that ends the loop. */
  lemma CollectedLast(st: State, rs: seq<Round>, pushes: seq<seq<string>>, n: nat)
    requires Valid(st)
    requires st.consecutiveNoChange >= MaxRetries || rs == [] || Step(st, rs[0]).stop.Some?
    ensures CollectedFrom(st, rs, Run(st, rs, pushes, n), n)
  {
    if st.consecutiveNoChange < MaxRetries && rs != [] {
      var s := Step(st, rs[0]);
      StepShape(st, rs[0]);
      var e0 := if rs[0].hrefs.Some? then rs[0].hrefs.value else [];
      assert e0 + [] == e0;
      assert AllRead(rs, 1) == e0;
    }
  }

  /**
   * `previousLength` stays the Set's size, and the Set ends up as the earlier
   * Set with every href read in the rounds that ran added in order.
   */
  lemma {:induction false} RunCollected(st: State, rs: seq<Round>, pushes: seq<seq<string>>, n: nat)
    requires Valid(st)
    ensures CollectedFrom(st, rs, Run(st, rs, pushes, n), n)
    decreases |rs|
  {
    if st.consecutiveNoChange < MaxRetries && rs != [] && Step(st, rs[0]).stop.None? {
      var s := Step(st, rs[0]);
      RunCollected(s.next, rs[1..], pushes + [s.push.value], n + 1);
      CollectedCons(st, rs, pushes, n);
    } else {
      CollectedLast(st, rs, pushes, n);
    }
  }

  /** The final Set holds exactly the hrefs that the rounds which ran read. */
  lemma CollectedExactly(rounds: seq<Round>)
    ensures var out := Collect(rounds);
      Elems(out.final.collected) == Elems(AllRead(rounds, out.rounds)) &&
      NoDuplicates(out.final.collected)
  {
    RunCollected(Init, rounds, [], 0);
    UnionElems([], AllRead(rounds, Collect(rounds).rounds));
    UnionDistinct([], AllRead(rounds, Collect(rounds).rounds));
  }

  /**
   * What the loop keeps about the pushes, from state `st` on: earlier pushes
   * stay, every new push is a prefix of the later ones and of the final Set
   * and extends the Set of `st`, and there is one push per round except on a
   * round that stopped the loop because the read threw or the load-more
   * button was missing.
   */
  predicate PushesFrom(st: State, pushes: seq<seq<string>>, out: Outcome, n: nat) {
    |pushes| <= |out.pushes| && out.pushes[..|pushes|] == pushes &&
    IsPrefix(st.collected, out.final.collected) &&
    (forall a, b :: |pushes| <= a <= b < |out.pushes| ==> IsPrefix(out.pushes[a], out.pushes[b])) &&
    (forall a :: |pushes| <= a < |out.pushes| ==> IsPrefix(out.pushes[a], out.final.collected)) &&
    (forall a :: |pushes| <= a < |out.pushes| ==> IsPrefix(st.collected, out.pushes[a])) &&
    |out.pushes| - |pushes| == out.rounds - n - (if out.stop == NoLoadMore || out.stop == ReadFailed then 1 else 0)
  }

  lemma PushesCons(st: State, rs: seq<Round>, pushes: seq<seq<string>>, n: nat)
    requires Valid(st) && st.consecutiveNoChange < MaxRetries && rs != []
    requires Step(st, rs[0]).stop.None?
    requires var s := Step(st, rs[0]);
      PushesFrom(s.next, pushes + [s.push.value], Run(s.next, rs[1..], pushes + [s.push.value], n + 1), n + 1)
    ensures PushesFrom(st, pushes, Run(st, rs, pushes, n), n)
  {
    var s := Step(st, rs[0]);
    StepShape(st, rs[0]);
    var p0 := s.next.collected;
    var pushes' := pushes + [p0];
    var out := Run(st, rs, pushes, n);
    assert out == Run(s.next, rs[1..], pushes', n + 1);
    assert IsPrefix(st.collected, p0);
    assert out.pushes[..|pushes'|] == pushes';
    assert out.pushes[..|pushes|] == pushes'[..|pushes|] == pushes;
    assert out.pushes[|pushes|] == p0;
    PrefixTrans(st.collected, p0, out.final.collected);
    forall a, b | |pushes| <= a <= b < |out.pushes|
      ensures IsPrefix(out.pushes[a], out.pushes[b])
    {
      if a == |pushes| && b > a {
        assert IsPrefix(p0, out.pushes[b]);
      }
    }
    forall a | |pushes| <= a < |out.pushes|
      ensures IsPrefix(st.collected, out.pushes[a])
    {
      if a > |pushes| {
        PrefixTrans(st.collected, p0, out.pushes[a]);
      }
    }
  }

  lemma PushesLast(st: State, rs: seq<Round>, pushes: seq<seq<string>>, n: nat)
    requires Valid(st)
    requires st.consecutiveNoChange >= MaxRetries || rs == [] || Step(st, rs[0]).stop.Some?
    ensures PushesFrom(st, pushes, Run(st, rs, pushes, n), n)
  {
    if st.consecutiveNoChange < MaxRetries && rs != [] {
      StepShape(st, rs[0]);
      var s := Step(st, rs[0]);
      assert IsPrefix(st.collected, s.next.collected);
    }
  }

  lemma {:induction false} RunPushes(st: State, rs: seq<Round>, pushes: seq<seq<string>>, n: nat)
    requires Valid(st)
    ensures PushesFrom(st, pushes, Run(st, rs, pushes, n), n)
    decreases |rs|
  {
    if st.consecutiveNoChange < MaxRetries && rs != [] && Step(st, rs[0]).stop.None? {
      var s := Step(st, rs[0]);
      RunPushes(s.next, rs[1..], pushes + [s.push.value], n + 1);
      PushesCons(st, rs, pushes, n);
    } else {
      PushesLast(st, rs, pushes, n);
    }
  }

  function Repeat(x: seq<string>, k: nat): (r: seq<seq<string>>)
    ensures |r| == k && forall i :: 0 <= i < k ==> r[i] == x
  {
    if k == 0 then [] else Repeat(x, k - 1) + [x]
  }

  /**
   * Once `consecutiveNoChange` stands at c < MaxRetries, MaxRetries - c
   * further successful reads that bring nothing new end the loop as
   * `Stalled`, each of those rounds pushing the unchanged Set.
   */
  lemma {:induction false} StallsEndLoop(st: State, rs: seq<Round>, pushes: seq<seq<string>>, n: nat)
    requires Valid(st) && st.consecutiveNoChange <= MaxRetries
    requires |rs| >= MaxRetries - st.consecutiveNoChange
    requires forall j :: 0 <= j < MaxRetries - st.consecutiveNoChange ==>
      rs[j].hrefs.Some? && Elems(rs[j].hrefs.value) <= Elems(st.collected)
    ensures var k := MaxRetries - st.consecutiveNoChange;
      Run(st, rs, pushes, n) ==
        Outcome(pushes + Repeat(st.collected, k), State(st.collected, st.previousLength, MaxRetries), Stalled, n + k)
    decreases MaxRetries - st.consecutiveNoChange
  {
    if st.consecutiveNoChange < MaxRetries {
      var hs := rs[0].hrefs.value;
      UnionOfKnown(st.collected, hs);
      var s := Step(st, rs[0]);
      assert s.next == State(st.collected, st.previousLength, st.consecutiveNoChange + 1);
      StallsEndLoop(s.next, rs[1..], pushes + [st.collected], n + 1);
      var k := MaxRetries - st.consecutiveNoChange;
      assert pushes + [st.collected] + Repeat(st.collected, k - 1) == pushes + Repeat(st.collected, k);
    }
  }

  /**
   * A loop that ended `Stalled` ran at least MaxRetries rounds, and each of
   * the last MaxRetries of them read successfully and brought no href that
   * an earlier round had not already read.
   */
  lemma CollectStalled(rounds: seq<Round>)
    requires Collect(rounds).stop == Stalled
    ensures var out := Collect(rounds);
      MaxRetries <= out.rounds <= |rounds| &&
      forall j :: out.rounds - MaxRetries <= j < out.rounds ==>
        rounds[j].hrefs.Some? && Elems(rounds[j].hrefs.value) <= Elems(AllRead(rounds, j))
  {
    StalledTail(Init, rounds, [], 0);
  }

  /**
   * What a `Stalled` ending says about the rounds from state `st` on: each of
   * the last MaxRetries rounds read only hrefs that the Set already held
   * before that round.
   */
  predicate StalledFrom(st: State, rs: seq<Round>, out: Outcome, n: nat) {
    var r := out.rounds - n;
    n <= out.rounds <= n + |rs| && r + st.consecutiveNoChange >= MaxRetries &&
    forall j :: r - MaxRetries <= j < r && 0 <= j ==>
      rs[j].hrefs.Some? && Elems(rs[j].hrefs.value) <= Elems(st.collected) + Elems(AllRead(rs, j))
  }

  lemma StalledCons(st: State, rs: seq<Round>, pushes: seq<seq<string>>, n: nat)
    requires Valid(st) && st.consecutiveNoChange < MaxRetries && rs != []
    requires Step(st, rs[0]).stop.None?
    requires var s := Step(st, rs[0]); var pushes' := if s.push.Some? then pushes + [s.push.value] else pushes;
      StalledFrom(s.next, rs[1..], Run(s.next, rs[1..], pushes', n + 1), n + 1)
    ensures StalledFrom(st, rs, Run(st, rs, pushes, n), n)
  {
    var s := Step(st, rs[0]);
    StepShape(st, rs[0]);
    StepSpec(st, rs[0]);
    var pushes' := if s.push.Some? then pushes + [s.push.value] else pushes;
    var out := Run(st, rs, pushes, n);
    var rest := Run(s.next, rs[1..], pushes', n + 1);
    assert out.rounds == rest.rounds;
    var r := out.rounds - n;
    var hs := rs[0].hrefs.value;
    if r <= MaxRetries {
      assert !Grows(st, hs);
    }
    forall j | r - MaxRetries <= j < r && 1 <= j
      ensures rs[j].hrefs.Some? && Elems(rs[j].hrefs.value) <= Elems(st.collected) + Elems(AllRead(rs, j))
    {
      assert rs[j] == rs[1..][j - 1];
      assert AllRead(rs, j) == hs + AllRead(rs[1..], j - 1);
      ElemsConcat(hs, AllRead(rs[1..], j - 1));
    }
  }

  lemma {:induction false} StalledTail(st: State, rs: seq<Round>, pushes: seq<seq<string>>, n: nat)
    requires Valid(st) && Run(st, rs, pushes, n).stop == Stalled
    ensures StalledFrom(st, rs, Run(st, rs, pushes, n), n)
    decreases |rs|
  {
    if st.consecutiveNoChange < MaxRetries {
      var s := Step(st, rs[0]);
      var pushes' := if s.push.Some? then pushes + [s.push.value] else pushes;
      StalledTail(s.next, rs[1..], pushes', n + 1);
      StalledCons(st, rs, pushes, n);
    }
  }

  /** The handler's loop, src/routes.js:283-330. */
  method MotleyFoolLinks(rounds: seq<Round>) returns (out: Outcome)
    ensures out == Collect(rounds)
    ensures NoDuplicates(out.final.collected) && out.rounds <= |rounds|
  {
    var collectedHrefs := new HrefSet();
    var previousLength: nat := 0;
    var consecutiveNoChange: nat := 0;
    var pushes: seq<seq<string>> := [];
    var i := 0;
    while consecutiveNoChange < MaxRetries
      invariant 0 <= i <= |rounds|
      invariant collectedHrefs.Valid() && previousLength == |collectedHrefs.order|
      invariant Run(State(collectedHrefs.order, previousLength, consecutiveNoChange), rounds[i..], pushes, i) == Collect(rounds)
      decreases |rounds| - i
    {
      var st := State(collectedHrefs.order, previousLength, consecutiveNoChange);
      if i == |rounds| {
        return Outcome(pushes, st, PageExhausted, i);
      }
      var round := rounds[i];
      assert rounds[i..][0] == round && rounds[i..][1..] == rounds[i + 1..];
      if round.hrefs.None? {
        // the exception leaves the loop through the handler's catch
        return Outcome(pushes, st, ReadFailed, i + 1);
      }
      var currentHrefs := round.hrefs.value;
      collectedHrefs.AddAll(currentHrefs);
      if collectedHrefs.Size() > previousLength {
        previousLength := collectedHrefs.Size();
        consecutiveNoChange := 0;
        if !round.loadMore {
          return Outcome(pushes, State(collectedHrefs.order, previousLength, consecutiveNoChange), NoLoadMore, i + 1);
        }
      } else {
        consecutiveNoChange := consecutiveNoChange + 1;
      }
      pushes := pushes + [collectedHrefs.ToArray()];
      i := i + 1;
    }
    out := Outcome(pushes, State(collectedHrefs.order, previousLength, consecutiveNoChange), Stalled, i);
  }
}
