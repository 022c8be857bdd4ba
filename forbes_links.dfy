/**
 * The FORBES-LINKS handler of src/routes.js: click "load more", read the
 * article links, add them to a Set, and push the Set with its size whenever
 * it grew; stop after MaxRetries consecutive rounds without a new link, or as
 * soon as the click or the read throws.
 *
 * The page is an input: one `Round` per pass of the loop, giving whether the
 * load-more button appeared and was clicked and what the link query read
 * (None when the query threw). `pushData` calls are collected in `pushes`.
 */
module ForbesLinks {
  import opened Wrappers
  import opened LinkSet

  const MaxRetries: nat := 5

  datatype Round = Round(clicked: bool, hrefs: Option<seq<string>>)

  /** The handler's loop variables: `collectedHrefs` (insertion order), `previousLength`, `consecutiveNoChange`. */
  datatype State = State(collected: seq<string>, previousLength: nat, consecutiveNoChange: nat)

  /** `{ hrefs: Array.from(collectedHrefs), total: collectedHrefs.size }` */
  datatype Batch = Batch(hrefs: seq<string>, total: nat)

  /**
   * Why the loop ended. `PageExhausted` is the model's own: the input ran out
   * of rounds while the handler would have gone on.
   */
  datatype Stop = Stalled | ClickFailed | ReadFailed | PageExhausted

  datatype Outcome = Outcome(pushes: seq<Batch>, final: State, stop: Stop, rounds: nat)

  datatype StepResult = StepResult(next: State, push: Option<Batch>, stop: Option<Stop>)

  const Init: State := State([], 0, 0)

  /** What holds at the top of every pass: `previousLength` is the Set's size. */
  predicate Valid(st: State) {
    st.previousLength == |st.collected|
  }

  /** The read holds a link not collected yet. */
  predicate Grows(st: State, hs: seq<string>) {
    !(Elems(hs) <= Elems(st.collected))
  }

  /** One pass of the loop body (src/routes.js:446-481). */
  function Step(st: State, round: Round): (r: StepResult)
    requires Valid(st)
    ensures Valid(r.next)
  {
    if !round.clicked then StepResult(st, None, Some(ClickFailed))
    else match round.hrefs
      case None => StepResult(st, None, Some(ReadFailed))
      case Some(hs) =>
        var c := Union(st.collected, hs);
        if |c| > st.previousLength then StepResult(State(c, |c|, 0), Some(Batch(c, |c|)), None)
        else StepResult(State(c, st.previousLength, st.consecutiveNoChange + 1), None, None)
  }

  /** The shape of one pass: what it adds, and that it pushes the Set exactly when it grew. */
  lemma StepShape(st: State, round: Round)
    requires Valid(st)
    ensures var r := Step(st, round);
      (!round.clicked ==> r == StepResult(st, None, Some(ClickFailed))) &&
      (round.clicked && round.hrefs.None? ==> r == StepResult(st, None, Some(ReadFailed))) &&
      (round.clicked && round.hrefs.Some? ==>
        r.stop.None? && r.next.collected == Union(st.collected, round.hrefs.value)) &&
      (r.push.Some? ==>
        r.push.value == Batch(r.next.collected, |r.next.collected|) && |st.collected| < |r.next.collected|) &&
      IsPrefix(st.collected, r.next.collected)
  {
    if round.hrefs.Some? {
      UnionPrefix(st.collected, round.hrefs.value);
    }
  }

  /**
   * What one pass does: a click or a read that throws ends the loop with
   * nothing changed and nothing pushed; otherwise the read is added to the
   * Set, and if it held a new href the counter is reset and the Set pushed,
   * else the counter is incremented and nothing pushed.
   */
  lemma StepSpec(st: State, round: Round)
    requires Valid(st)
    ensures var r := Step(st, round);
      (round.clicked && round.hrefs.Some? ==>
        var hs := round.hrefs.value;
        Elems(r.next.collected) == Elems(st.collected) + Elems(hs) &&
        r.next.consecutiveNoChange == (if Grows(st, hs) then 0 else st.consecutiveNoChange + 1) &&
        (r.push.Some? <==> Grows(st, hs)))
  {
    if round.clicked && round.hrefs.Some? {
      UnionGrows(st.collected, round.hrefs.value);
      UnionElems(st.collected, round.hrefs.value);
    }
  }

  /** The loop from state `st` over the remaining rounds, `pushes` and `n` rounds done so far. */
  function Run(st: State, rs: seq<Round>, pushes: seq<Batch>, n: nat): Outcome
    requires Valid(st)
    decreases |rs|
  {
    if st.consecutiveNoChange >= MaxRetries then Outcome(pushes, st, Stalled, n)
    else if rs == [] then Outcome(pushes, st, PageExhausted, n)
    else
      var s := Step(st, rs[0]);
      var pushes' := if s.push.Some? then pushes + [s.push.value] else pushes;
      if s.stop.Some? then Outcome(pushes', s.next, s.stop.value, n + 1)
      else Run(s.next, rs[1..], pushes', n + 1)
  }

  function Collect(rounds: seq<Round>): Outcome {
    Run(Init, rounds, [], 0)
  }

  /** The hrefs the first `k` rounds of `rs` read, in order (nothing for a round that threw). */
  function AllRead(rs: seq<Round>, k: nat): seq<string> {
    if rs == [] || k == 0 then []
    else (if rs[0].clicked && rs[0].hrefs.Some? then rs[0].hrefs.value else []) + AllRead(rs[1..], k - 1)
  }

  /** What the loop keeps about the Set, from state `st` on. */
  predicate CollectedFrom(st: State, rs: seq<Round>, out: Outcome, n: nat) {
    Valid(out.final) && n <= out.rounds <= n + |rs| &&
    out.final.collected == Union(st.collected, AllRead(rs, out.rounds - n))
  }

  lemma CollectedCons(st: State, rs: seq<Round>, pushes: seq<Batch>, n: nat)
    requires Valid(st) && st.consecutiveNoChange < MaxRetries && rs != []
    requires Step(st, rs[0]).stop.None?
    requires var s := Step(st, rs[0]); var pushes' := if s.push.Some? then pushes + [s.push.value] else pushes;
      CollectedFrom(s.next, rs[1..], Run(s.next, rs[1..], pushes', n + 1), n + 1)
    ensures CollectedFrom(st, rs, Run(st, rs, pushes, n), n)
  {
    var s := Step(st, rs[0]);
    StepShape(st, rs[0]);
    var pushes' := if s.push.Some? then pushes + [s.push.value] else pushes;
    var e0 := rs[0].hrefs.value;
    var out := Run(st, rs, pushes, n);
    var rest := Run(s.next, rs[1..], pushes', n + 1);
    assert out.final == rest.final && out.rounds == rest.rounds;
    var k := out.rounds - n;
    var later := AllRead(rs[1..], k - 1);
    assert AllRead(rs, k) == e0 + later;
    calc {
      out.final.collected;
      Union(s.next.collected, later);
      Union(Union(st.collected, e0), later);
      { UnionConcat(st.collected, e0, later); }
      Union(st.collected, AllRead(rs, k));
    }
  }

  lemma CollectedLast(st: State, rs: seq<Round>, pushes: seq<Batch>, n: nat)
    requires Valid(st)
    requires st.consecutiveNoChange >= MaxRetries || rs == [] || Step(st, rs[0]).stop.Some?
    ensures CollectedFrom(st, rs, Run(st, rs, pushes, n), n)
  {
    if st.consecutiveNoChange < MaxRetries && rs != [] {
      StepShape(st, rs[0]);
      assert AllRead(rs, 1) == [];
    }
  }

  /**
   * `previousLength` stays the Set's size, and the Set ends up as the earlier
   * Set with every href read in the rounds that ran added in order.
   */
  lemma {:induction false} RunCollected(st: State, rs: seq<Round>, pushes: seq<Batch>, n: nat)
    requires Valid(st)
    ensures CollectedFrom(st, rs, Run(st, rs, pushes, n), n)
    decreases |rs|
  {
    if st.consecutiveNoChange < MaxRetries && rs != [] && Step(st, rs[0]).stop.None? {
      var s := Step(st, rs[0]);
      var pushes' := if s.push.Some? then pushes + [s.push.value] else pushes;
      RunCollected(s.next, rs[1..], pushes', n + 1);
      CollectedCons(st, rs, pushes, n);
    } else {
      CollectedLast(st, rs, pushes, n);
    }
  }

  /** The final Set holds exactly the hrefs that the rounds which ran read, each once. */
  lemma CollectedExactly(rounds: seq<Round>)
    ensures var out := Collect(rounds);
      Elems(out.final.collected) == Elems(AllRead(rounds, out.rounds)) &&
      NoDuplicates(out.final.collected)
  {
    RunCollected(Init, rounds, [], 0);
    UnionElems([], AllRead(rounds, Collect(rounds).rounds));
    UnionDistinct([], AllRead(rounds, Collect(rounds).rounds));
  }

  /** A batch as pushed: its total is its number of hrefs. */
  predicate Counted(b: Batch) { b.total == |b.hrefs| }

  /**
   * What the loop keeps about the pushes, from state `st` on: earlier pushes
   * stay, and every new push counts its hrefs, is strictly longer than the
   * Set of `st`, is a strict prefix of every later push and a prefix of the
   * final Set, which itself extends the Set of `st`.
   */
  predicate PushesFrom(st: State, pushes: seq<Batch>, out: Outcome) {
    |pushes| <= |out.pushes| && out.pushes[..|pushes|] == pushes &&
    IsPrefix(st.collected, out.final.collected) &&
    (forall a :: |pushes| <= a < |out.pushes| ==>
      Counted(out.pushes[a]) && |st.collected| < |out.pushes[a].hrefs| &&
      IsPrefix(st.collected, out.pushes[a].hrefs) && IsPrefix(out.pushes[a].hrefs, out.final.collected)) &&
    (forall a, b :: |pushes| <= a < b < |out.pushes| ==>
      IsPrefix(out.pushes[a].hrefs, out.pushes[b].hrefs) && |out.pushes[a].hrefs| < |out.pushes[b].hrefs|)
  }

  lemma PushesCons(st: State, rs: seq<Round>, pushes: seq<Batch>, n: nat)
    requires Valid(st) && st.consecutiveNoChange < MaxRetries && rs != []
    requires Step(st, rs[0]).stop.None?
    requires var s := Step(st, rs[0]); var pushes' := if s.push.Some? then pushes + [s.push.value] else pushes;
      PushesFrom(s.next, pushes', Run(s.next, rs[1..], pushes', n + 1))
    ensures PushesFrom(st, pushes, Run(st, rs, pushes, n))
  {
    var s := Step(st, rs[0]);
    StepShape(st, rs[0]);
    var c := s.next.collected;
    var pushes' := if s.push.Some? then pushes + [s.push.value] else pushes;
    var out := Run(st, rs, pushes, n);
    assert out == Run(s.next, rs[1..], pushes', n + 1);
    assert IsPrefix(st.collected, c);
    assert out.pushes[..|pushes'|] == pushes';
    assert out.pushes[..|pushes|] == pushes'[..|pushes|] == pushes;
    PrefixTrans(st.collected, c, out.final.collected);
    forall a | |pushes| <= a < |out.pushes|
      ensures Counted(out.pushes[a]) && |st.collected| < |out.pushes[a].hrefs| &&
        IsPrefix(st.collected, out.pushes[a].hrefs) && IsPrefix(out.pushes[a].hrefs, out.final.collected)
    {
      if a >= |pushes'| {
        PrefixTrans(st.collected, c, out.pushes[a].hrefs);
      } else {
        assert out.pushes[a] == s.push.value;
      }
    }
    forall a, b | |pushes| <= a < b < |out.pushes|
      ensures IsPrefix(out.pushes[a].hrefs, out.pushes[b].hrefs) && |out.pushes[a].hrefs| < |out.pushes[b].hrefs|
    {
      if a < |pushes'| {
        assert out.pushes[a] == s.push.value;
      }
    }
  }

  lemma PushesLast(st: State, rs: seq<Round>, pushes: seq<Batch>, n: nat)
    requires Valid(st)
    requires st.consecutiveNoChange >= MaxRetries || rs == [] || Step(st, rs[0]).stop.Some?
    ensures PushesFrom(st, pushes, Run(st, rs, pushes, n))
  {
    if st.consecutiveNoChange < MaxRetries && rs != [] {
      StepShape(st, rs[0]);
    }
  }

  lemma {:induction false} RunPushes(st: State, rs: seq<Round>, pushes: seq<Batch>, n: nat)
    requires Valid(st)
    ensures PushesFrom(st, pushes, Run(st, rs, pushes, n))
    decreases |rs|
  {
    if st.consecutiveNoChange < MaxRetries && rs != [] && Step(st, rs[0]).stop.None? {
      var s := Step(st, rs[0]);
      var pushes' := if s.push.Some? then pushes + [s.push.value] else pushes;
      RunPushes(s.next, rs[1..], pushes', n + 1);
      PushesCons(st, rs, pushes, n);
    } else {
      PushesLast(st, rs, pushes, n);
    }
  }

  /**
   * The batches the handler pushes: each one's total is its number of hrefs,
   * each holds no duplicate, and each strictly extends the one before.
   */
  lemma CollectPushes(rounds: seq<Round>)
    ensures var out := Collect(rounds);
      (forall a :: 0 <= a < |out.pushes| ==> Counted(out.pushes[a]) && NoDuplicates(out.pushes[a].hrefs)) &&
      (forall a, b :: 0 <= a < b < |out.pushes| ==>
        IsPrefix(out.pushes[a].hrefs, out.pushes[b].hrefs) && |out.pushes[a].hrefs| < |out.pushes[b].hrefs|)
  {
    RunPushes(Init, rounds, [], 0);
    CollectedExactly(rounds);
    var out := Collect(rounds);
    forall a | 0 <= a < |out.pushes|
      ensures NoDuplicates(out.pushes[a].hrefs)
    {
      var h := out.pushes[a].hrefs;
      assert h == out.final.collected[..|h|];
    }
  }

  /**
   * Once `consecutiveNoChange` stands at c < MaxRetries, MaxRetries - c
   * further clicked rounds whose reads bring nothing new end the loop as
   * `Stalled` without pushing anything.
   */
  lemma {:induction false} StallsEndLoop(st: State, rs: seq<Round>, pushes: seq<Batch>, n: nat)
    requires Valid(st) && st.consecutiveNoChange <= MaxRetries
    requires |rs| >= MaxRetries - st.consecutiveNoChange
    requires forall j :: 0 <= j < MaxRetries - st.consecutiveNoChange ==>
      rs[j].clicked && rs[j].hrefs.Some? && Elems(rs[j].hrefs.value) <= Elems(st.collected)
    ensures Run(st, rs, pushes, n) ==
      Outcome(pushes, State(st.collected, st.previousLength, MaxRetries), Stalled, n + MaxRetries - st.consecutiveNoChange)
    decreases MaxRetries - st.consecutiveNoChange
  {
    if st.consecutiveNoChange < MaxRetries {
      UnionOfKnown(st.collected, rs[0].hrefs.value);
      var s := Step(st, rs[0]);
      assert s.next == State(st.collected, st.previousLength, st.consecutiveNoChange + 1);
      StallsEndLoop(s.next, rs[1..], pushes, n + 1);
    }
  }

  /**
   * What a `Stalled` ending says about the rounds from state `st` on: each of
   * the last MaxRetries rounds read only hrefs that the Set already held
   * before that round.
   */
  predicate StalledFrom(st: State, rs: seq<Round>, out: Outcome, n: nat) {
    var r := out.rounds - n;
    n <= out.rounds <= n + |rs| && r + st.consecutiveNoChange >= MaxRetries &&
    forall j :: r - MaxRetries <= j < r && 0 <= j ==>
      rs[j].clicked && rs[j].hrefs.Some? && Elems(rs[j].hrefs.value) <= Elems(st.collected) + Elems(AllRead(rs, j))
  }

  lemma StalledCons(st: State, rs: seq<Round>, pushes: seq<Batch>, n: nat)
    requires Valid(st) && st.consecutiveNoChange < MaxRetries && rs != []
    requires Step(st, rs[0]).stop.None?
    requires var s := Step(st, rs[0]); var pushes' := if s.push.Some? then pushes + [s.push.value] else pushes;
      StalledFrom(s.next, rs[1..], Run(s.next, rs[1..], pushes', n + 1), n + 1)
    ensures StalledFrom(st, rs, Run(st, rs, pushes, n), n)
  {
    var s := Step(st, rs[0]);
    StepShape(st, rs[0]);
    StepSpec(st, rs[0]);
    var pushes' := if s.push.Some? then pushes + [s.push.value] else pushes;
    var out := Run(st, rs, pushes, n);
    var rest := Run(s.next, rs[1..], pushes', n + 1);
    assert out.rounds == rest.rounds;
    var r := out.rounds - n;
    var hs := rs[0].hrefs.value;
    if r <= MaxRetries {
      assert !Grows(st, hs);
    }
    forall j | r - MaxRetries <= j < r && 1 <= j
      ensures rs[j].clicked && rs[j].hrefs.Some? && Elems(rs[j].hrefs.value) <= Elems(st.collected) + Elems(AllRead(rs, j))
    {
      assert rs[j] == rs[1..][j - 1];
      assert AllRead(rs, j) == hs + AllRead(rs[1..], j - 1);
      ElemsConcat(hs, AllRead(rs[1..], j - 1));
    }
  }

  lemma {:induction false} StalledTail(st: State, rs: seq<Round>, pushes: seq<Batch>, n: nat)
    requires Valid(st) && Run(st, rs, pushes, n).stop == Stalled
    ensures StalledFrom(st, rs, Run(st, rs, pushes, n), n)
    decreases |rs|
  {
    if st.consecutiveNoChange < MaxRetries {
      var s := Step(st, rs[0]);
      var pushes' := if s.push.Some? then pushes + [s.push.value] else pushes;
      StalledTail(s.next, rs[1..], pushes', n + 1);
      StalledCons(st, rs, pushes, n);
    }
  }

  /**
   * A loop that ended `Stalled` ran at least MaxRetries rounds, and in each
   * of the last MaxRetries of them the click worked and the read brought no
   * href that an earlier round had not already read.
   */
  lemma CollectStalled(rounds: seq<Round>)
    requires Collect(rounds).stop == Stalled
    ensures var out := Collect(rounds);
      MaxRetries <= out.rounds <= |rounds| &&
      forall j :: out.rounds - MaxRetries <= j < out.rounds ==>
        rounds[j].clicked && rounds[j].hrefs.Some? && Elems(rounds[j].hrefs.value) <= Elems(AllRead(rounds, j))
  {
    StalledTail(Init, rounds, [], 0);
  }

  /** The handler's loop, src/routes.js:436-482. */
  method ForbesLinks(rounds: seq<Round>) returns (out: Outcome)
    ensures out == Collect(rounds)
    ensures NoDuplicates(out.final.collected) && out.rounds <= |rounds|
  {
    var collectedHrefs := new HrefSet();
    var previousLength: nat := 0;
    var consecutiveNoChange: nat := 0;
    var pushes: seq<Batch> := [];
    var i := 0;
    while consecutiveNoChange < MaxRetries
      invariant 0 <= i <= |rounds|
      invariant collectedHrefs.Valid() && previousLength == |collectedHrefs.order|
      invariant Run(State(collectedHrefs.order, previousLength, consecutiveNoChange), rounds[i..], pushes, i) == Collect(rounds)
      decreases |rounds| - i
    {
      var st := State(collectedHrefs.order, previousLength, consecutiveNoChange);
      if i == |rounds| {
        return Outcome(pushes, st, PageExhausted, i);
      }
      var round := rounds[i];
      assert rounds[i..][0] == round && rounds[i..][1..] == rounds[i + 1..];
      // a click or a read that throws is caught inside the loop and breaks out of it
      if !round.clicked {
        return Outcome(pushes, st, ClickFailed, i + 1);
      }
      if round.hrefs.None? {
        return Outcome(pushes, st, ReadFailed, i + 1);
      }
      var currentHrefs := round.hrefs.value;
      collectedHrefs.AddAll(currentHrefs);
      if collectedHrefs.Size() > previousLength {
        previousLength := collectedHrefs.Size();
        consecutiveNoChange := 0;
        pushes := pushes + [Batch(collectedHrefs.ToArray(), collectedHrefs.Size())];
      } else {
        consecutiveNoChange := consecutiveNoChange + 1;
      }
      i := i + 1;
    }
    out := Outcome(pushes, State(collectedHrefs.order, previousLength, consecutiveNoChange), Stalled, i);
  }
}
