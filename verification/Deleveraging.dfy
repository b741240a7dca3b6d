// Auto-deleveraging: profitable positions are cut, best score first, until enough is collected.
module Deleveraging {
  import opened Types
  import opened Positions
  import opened PositionRuns
  import opened Liquidation
  import opened Rounding
  import opened Exchange
  import opened StateStore
  import opened AccountRuns
  import Sorting

  datatype Candidate = Candidate(trader: Address, size: u64, score: int)

  // The `as i128` cast of an unsigned value: the same number modulo 2^128, in the signed range.
  function AsI128(x: u128): (r: int)
    ensures (r == x || r == x - U128) && 0 - U128 / 2 <= r < U128 / 2
  {
    if x < U128 / 2 then x else x - U128
  }

  // Profit times leverage in basis points, both squeezed through signed casts.
  function ProfitScore(p: Position, mark: u64): (r: Result<int>) {
    var equity :- Equity(p, mark);
    var leverage :-
      if equity > 0 then
        var scaled :- Checked(p.size * mark * BASIS_POINTS);
        Ok(FloorDiv(scaled, equity))
      else Ok(U128 - 1);
    var pnl :- Checked(Pnl(p, mark).0);
    var leverage' :- Checked(leverage);
    var score := AsI128(pnl) * AsI128(leverage');
    if 0 - U128 / 2 <= score < U128 / 2 then Ok(score) else Err(Overflow)
  }

  ghost predicate NonLosing(p: Position, mark: u64) {
    p.size > 0 && SignedPnl(p, mark) >= 0
  }

  ghost predicate CandidateOf(ps: PositionMap, market: u32, mark: u64, c: Candidate) {
    var k := PositionKey(c.trader, market);
    k in ps && ps[k].size == c.size && NonLosing(ps[k], mark) && ProfitScore(ps[k], mark) == Ok(c.score)
  }

  ghost predicate DistinctCandidates(cs: seq<Candidate>) {
    forall i, j :: 0 <= i < j < |cs| ==> cs[i].trader != cs[j].trader
  }

  // Exactly the non-losing positions of the market, each once.
  ghost predicate AllCandidates(ps: PositionMap, market: u32, mark: u64, cs: seq<Candidate>) {
    && DistinctCandidates(cs)
    && (forall c :: c in cs ==> CandidateOf(ps, market, mark, c))
    && (forall k :: k in ps && k.market == market && NonLosing(ps[k], mark) ==>
          exists c :: c in cs && c.trader == k.owner)
  }

  ghost predicate Descending(cs: seq<Candidate>) {
    forall i, j :: 0 <= i < j < |cs| ==> cs[i].score >= cs[j].score
  }

  // ---------------------------------------------------------------------------
  // What a score means
  // ---------------------------------------------------------------------------

  // The position's leverage in basis points, rounded down: its value over its equity. Without equity there is
  // no profit either, so that its score is 0 whatever the leverage.
  ghost predicate Leveraged(p: Position, mark: u64, leverage: nat) {
    if p.margin + SignedPnl(p, mark) == 0 then leverage == 0
    else IsFloor(leverage, p.size * mark * BASIS_POINTS, p.margin + SignedPnl(p, mark))
  }

  // Profit and leverage keep their values through the signed casts, or one of them is 0.
  predicate CastsHold(profit: int, leverage: nat) {
    profit == 0 || leverage == 0 || (profit < U128 / 2 && leverage < U128 / 2)
  }

  // A score is defined exactly when equity and scaled value stay in u128 and the product of the casts in i128.
  predicate ScoreFits(p: Position, mark: u64) {
    var equity := p.margin + SignedPnl(p, mark);
    && 0 <= SignedPnl(p, mark) <= equity < U128
    && (equity > 0 ==>
          p.size * mark * BASIS_POINTS < U128 &&
          ProductOfCasts(SignedPnl(p, mark), FloorDiv(p.size * mark * BASIS_POINTS, equity)))
  }

  // The product of the two casts stays in i128.
  predicate ProductOfCasts(profit: nat, leverage: nat) {
    profit < U128 && leverage < U128 && 0 - U128 / 2 <= AsI128(profit) * AsI128(leverage) < U128 / 2
  }

  lemma ScoreForm(p: Position, mark: u64)
    requires NonLosing(p, mark)
    ensures ProfitScore(p, mark).Ok? <==> ScoreFits(p, mark)
    ensures ProfitScore(p, mark).Err? ==> ProfitScore(p, mark).error == Overflow
    ensures ScoreFits(p, mark) && p.margin + SignedPnl(p, mark) == 0 ==> ProfitScore(p, mark) == Ok(0)
    ensures ScoreFits(p, mark) && p.margin + SignedPnl(p, mark) > 0 ==>
              var leverage := FloorDiv(p.size * mark * BASIS_POINTS, p.margin + SignedPnl(p, mark));
              leverage < U128 && ProfitScore(p, mark) == Ok(AsI128(SignedPnl(p, mark)) * AsI128(leverage))
  {
    hide FloorDiv, SignedPnl, AsI128;
    var equity := p.margin + SignedPnl(p, mark);
    ProductFits(p.size, mark);
    if equity > 0 {
      QuotientBelow(p.size * mark * BASIS_POINTS, equity);
    }
    assert AsI128(0) == 0;
  }

  lemma QuotientBelow(x: nat, y: nat)
    requires y > 0
    ensures FloorDiv(x, y) <= x
  {
    FloorBelow(x, y);
    MulMono(1, y, x / y);
  }

  // A defined score is the profit times the leverage exactly when the casts hold.
  lemma ScoreExactly(p: Position, mark: u64, leverage: nat)
    requires NonLosing(p, mark) && ProfitScore(p, mark).Ok? && Leveraged(p, mark, leverage)
    ensures ProfitScore(p, mark).value == SignedPnl(p, mark) * leverage <==> CastsHold(SignedPnl(p, mark), leverage)
  {
    hide ProfitScore, SignedPnl, AsI128;
    ScoreForm(p, mark);
    var profit, equity := SignedPnl(p, mark), p.margin + SignedPnl(p, mark);
    if equity > 0 {
      var scaled := p.size * mark * BASIS_POINTS;
      FloorUnique(scaled, equity, leverage);
      CastProduct(profit, leverage);
    }
  }

  lemma CastProduct(profit: u128, leverage: u128)
    requires 0 - U128 / 2 <= AsI128(profit) * AsI128(leverage) < U128 / 2
    ensures AsI128(profit) * AsI128(leverage) == profit * leverage <==> CastsHold(profit, leverage)
  {
    if profit > 0 && leverage > 0 {
      if profit >= U128 / 2 && leverage >= U128 / 2 {
        assert AsI128(profit) == profit - U128 && AsI128(leverage) == leverage - U128;
        assert (profit - U128) * (leverage - U128) == profit * leverage - U128 * (profit + leverage - U128);
        MulMono(U128 / 2, profit, leverage);
        MulMono(U128 / 2, leverage, U128 / 2);
      } else if profit >= U128 / 2 {
        assert (profit - U128) * leverage < 0;
      } else if leverage >= U128 / 2 {
        assert profit * (leverage - U128) < 0;
      }
    }
  }

  // Where the casts hold, no candidate comes before one of higher profit times leverage.
  ghost predicate RankedByWorth(ps: PositionMap, market: u32, mark: u64, cs: seq<Candidate>) {
    forall i, j, m: nat, n: nat :: 0 <= i < j < |cs| && WorthOf(ps, market, mark, cs[i], m) &&
                                   WorthOf(ps, market, mark, cs[j], n) ==>
      SignedPnl(ps[PositionKey(cs[i].trader, market)], mark) * m >=
      SignedPnl(ps[PositionKey(cs[j].trader, market)], mark) * n
  }

  ghost predicate WorthOf(ps: PositionMap, market: u32, mark: u64, c: Candidate, leverage: nat) {
    var k := PositionKey(c.trader, market);
    k in ps && Leveraged(ps[k], mark, leverage) && CastsHold(SignedPnl(ps[k], mark), leverage)
  }

  lemma DescendingIsRanked(ps: PositionMap, market: u32, mark: u64, cs: seq<Candidate>)
    requires AllCandidates(ps, market, mark, cs) && Descending(cs)
    ensures RankedByWorth(ps, market, mark, cs)
  {
    hide ProfitScore, SignedPnl, Leveraged, CastsHold, NonLosing;
    forall i, j, m: nat, n: nat | 0 <= i < j < |cs| && WorthOf(ps, market, mark, cs[i], m) &&
                                  WorthOf(ps, market, mark, cs[j], n)
      ensures SignedPnl(ps[PositionKey(cs[i].trader, market)], mark) * m >=
              SignedPnl(ps[PositionKey(cs[j].trader, market)], mark) * n
    {
      assert cs[i] in cs && cs[j] in cs;
      ScoreExactly(ps[PositionKey(cs[i].trader, market)], mark, m);
      ScoreExactly(ps[PositionKey(cs[j].trader, market)], mark, n);
    }
  }

  // Where they do not, it can: a profit of 2^127 and more counts as a loss, behind a position that broke even.
  lemma WrappedScoreExample(p: Position, q: Position, mark: u64)
    requires mark == 922337203685478 && q == Position(1, mark, true, 1, 0)
    requires p == Position(0xFFFF_FFFF_FFFF_FFFF, 0x8000_0000_0000_0001 + mark, false, 0, 0)
    ensures NonLosing(p, mark) && NonLosing(q, mark) && SignedPnl(p, mark) > 0 == SignedPnl(q, mark)
    ensures ProfitScore(p, mark).Ok? && ProfitScore(p, mark).value < 0 && ProfitScore(q, mark) == Ok(0)
  {
    var size, gain: nat := p.size, 0x8000_0000_0000_0001;
    var profit := size * gain;
    assert SignedPnl(p, mark) == profit == U128 / 2 + U64 / 2 - 1;
    assert size * mark * BASIS_POINTS == 0xFFFF_FFFF_FFFF_FFFF * 9223372036854780000;
    FloorUnique(size * mark * BASIS_POINTS, profit, 1);
    assert AsI128(1) == 1 && AsI128(profit) == profit - U128;
    hide ProfitScore;
    ScoreForm(p, mark);
    BreakEvenScore(q, mark);
  }

  lemma BreakEvenScore(q: Position, mark: u64)
    requires mark == 922337203685478 && q == Position(1, mark, true, 1, 0)
    ensures NonLosing(q, mark) && SignedPnl(q, mark) == 0 && ProfitScore(q, mark) == Ok(0)
  {
    assert FloorDiv(mark * BASIS_POINTS, 1) == mark * BASIS_POINTS;
    hide ProfitScore;
    ScoreForm(q, mark);
  }

  // Every non-losing position of the market has a score.
  ghost predicate AllScored(ps: PositionMap, market: u32, mark: u64) {
    forall k :: k in ps && k.market == market && NonLosing(ps[k], mark) ==> ScoreFits(ps[k], mark)
  }

  // ---------------------------------------------------------------------------
  // Sorting by score
  // ---------------------------------------------------------------------------

  predicate HigherScore(a: Candidate, b: Candidate) {
    a.score > b.score
  }

  // Stable, highest score first.
  function SortByScore(cs: seq<Candidate>): (r: seq<Candidate>) {
    Sorting.Sort(HigherScore, cs)
  }

  // Sorting keeps who the candidates are.
  lemma SortKeepsCandidates(ps: PositionMap, market: u32, mark: u64, cs: seq<Candidate>)
    requires AllCandidates(ps, market, mark, cs)
    ensures AllCandidates(ps, market, mark, SortByScore(cs)) && Descending(SortByScore(cs))
  {
    hide CandidateOf, Sorting.Sort;
    var r := SortByScore(cs);
    Sorting.SortOrdered(HigherScore, cs);
    Sorting.SameMembers(r, cs);
    Sorting.DistinctKept(cs, r);
    forall i, j | 0 <= i < j < |r| ensures r[i].trader != r[j].trader {
      SameTrader(cs, r[i], r[j]);
    }
  }

  // Two different candidates have different traders.
  lemma SameTrader(cs: seq<Candidate>, c: Candidate, d: Candidate)
    requires DistinctCandidates(cs) && c in cs && d in cs && c != d
    ensures c.trader != d.trader
  {
    var i :| 0 <= i < |cs| && cs[i] == c;
    var j :| 0 <= j < |cs| && cs[j] == d;
  }

  // ---------------------------------------------------------------------------
  // Executing
  // ---------------------------------------------------------------------------

  function SizesOf(cs: seq<Candidate>): (r: seq<u64>)
    ensures |r| == |cs| && forall i :: 0 <= i < |cs| ==> r[i] == cs[i].size
  {
    seq(|cs|, i requires 0 <= i < |cs| => cs[i].size)
  }

  ghost predicate AmongFirst(cs: seq<Candidate>, n: nat, market: u32, k: PositionKey)
    requires n <= |cs|
  {
    exists i :: 0 <= i < n && k == PositionKey(cs[i].trader, market)
  }

  // Each has lost what the plan says, and released its share of the margin.
  ghost predicate ForcedBy(ps: PositionMap, ps': PositionMap, market: u32, cs: seq<Candidate>, plan: seq<u64>) {
    |plan| <= |cs| && forall i :: 0 <= i < |plan| ==>
      var k := PositionKey(cs[i].trader, market);
      k in ps && ForcedDown(ps[k], PositionOf(ps', k), plan[i])
  }

  // The candidates' cuts by a plan stay in u128.
  ghost predicate CutsFit(ps: PositionMap, market: u32, cs: seq<Candidate>, plan: seq<u64>) {
    |plan| <= |cs| && forall i :: 0 <= i < |plan| ==>
      var k := PositionKey(cs[i].trader, market);
      k in ps && CutFits(ps[k], plan[i])
  }

  lemma CutIsForced(ps: PositionMap, ps': PositionMap, market: u32, cs: seq<Candidate>, plan: seq<u64>)
    requires |plan| <= |cs| && CutBy(ps, ps', market, cs, plan, |plan|)
    ensures ForcedBy(ps, ps', market, cs, plan) && CutsFit(ps, market, cs, plan)
  {
    hide AfterCut, ForcedDown, CutFits;
    forall i | 0 <= i < |plan|
      ensures var k := PositionKey(cs[i].trader, market);
              k in ps && ForcedDown(ps[k], PositionOf(ps', k), plan[i]) && CutFits(ps[k], plan[i])
    {
      ForcedDownExactly(ps[PositionKey(cs[i].trader, market)], plan[i]);
    }
  }

  // The first n candidates have given what the plan says; every other position is as it was.
  ghost predicate CutBy(ps: PositionMap, ps': PositionMap, market: u32, cs: seq<Candidate>, plan: seq<u64>, n: nat)
    requires n <= |plan| && n <= |cs|
  {
    && (forall i :: 0 <= i < n ==>
          var k := PositionKey(cs[i].trader, market);
          k in ps && AfterCut(ps[k], plan[i]) == Ok(PositionOf(ps', k)))
    && (forall k :: !AmongFirst(cs, n, market, k) ==> PositionOf(ps', k) == PositionOf(ps, k))
  }

  method FindCandidates(state: StateManager, market: u32, mark: u64) returns (r: Result<seq<Candidate>>)
    requires state.IndexAgrees()
    ensures r.Ok? ==> AllCandidates(state.positions, market, mark, r.value)
    ensures r.Ok? <==> AllScored(state.positions, market, mark)
    ensures r.Err? ==> r.error == Overflow
  {
    hide ProfitScore, ScoreFits;
    var cs: seq<Candidate> := [];
    var holders := state.Holders(market);
    var todo := holders;
    while todo != {}
      invariant todo <= holders && DistinctCandidates(cs)
      invariant forall c :: c in cs ==> c.trader !in todo && CandidateOf(state.positions, market, mark, c)
      invariant forall a: Address ::
                  a in holders && a !in todo && NonLosing(state.positions[PositionKey(a, market)], mark) ==>
                    ScoreFits(state.positions[PositionKey(a, market)], mark) && exists c :: c in cs && c.trader == a
      decreases todo
    {
      var a :| a in todo;
      todo := todo - {a};
      var p := state.positions[PositionKey(a, market)];
      if p.size > 0 && Pnl(p, mark).1 {
        ScoreForm(p, mark);
        var score :- ProfitScore(p, mark);
        ghost var before := cs;
        cs := cs + [Candidate(a, p.size, score)];
        assert Candidate(a, p.size, score) in cs;
        assert forall c :: c in before ==> c in cs;
      }
    }
    r := Ok(cs);
  }

  // One candidate gives `size`.
  method ExecuteAdl(state: StateManager, k: PositionKey, size: u64) returns (r: Result<()>)
    requires state.IndexAgrees() && k in state.positions
    modifies state`positions, state`positionIndex
    ensures state.IndexAgrees()
    ensures match AfterCut(old(state.positions)[k], size)
            case Ok(q) => r.Ok? && state.positions == PutPosition(old(state.positions), k, q)
            case Err(e) => r == Err(e) && state.positions == old(state.positions)
    ensures r.Ok? <==> CutFits(old(state.positions)[k], size)
    ensures r.Ok? ==> ForcedDown(old(state.positions)[k], PositionOf(state.positions, k), size)
  {
    ForcedDownExactly(state.positions[k], size);
    hide ForcedDown;
    var position := state.positions[k];
    if size >= position.size {
      state.DeletePosition(k);
    } else {
      var scaled :- Checked(position.margin * size);
      var reduction := FloorDiv(scaled, position.size);
      state.SetPosition(k,
                        position.(size := position.size - size, margin := SaturatingSub(position.margin, reduction)));
    }
    r := Ok(());
  }

  // How much of a candidate is needed.
  method TakenFrom(size: u64, collected: u128, required: u128, mark: u64) returns (r: Result<u64>)
    requires collected < required
    ensures r == AdlTaken(size, collected, required, mark)
  {
    ProductFits(size, mark);
    var value := size * mark;
    if WrapU128(collected + value) > required {
      var scaled :- Checked((required - collected) * size);
      return Ok(TruncateU64(FloorDiv(scaled, value)));
    }
    r := Ok(size);
  }

  // One more candidate has given its part.
  lemma CutOneMore(ps: PositionMap, now: PositionMap, after: PositionMap, market: u32, cs: seq<Candidate>,
                   plan: seq<u64>, n: nat)
    requires n < |plan| && n < |cs| && DistinctCandidates(cs) && CutBy(ps, now, market, cs, plan, n)
    requires var k := PositionKey(cs[n].trader, market);
             && k in ps && k in now && now[k] == ps[k] && AfterCut(ps[k], plan[n]).Ok?
             && after == PutPosition(now, k, AfterCut(ps[k], plan[n]).value)
    ensures CutBy(ps, after, market, cs, plan, n + 1)
  {
    hide AfterCut;
  }

  // At a positive price at most the required amount is collected exactly when no sum reached leaves u128; then
  // less than one price is missing or every candidate is taken whole, and nobody gives before all who rank
  // ahead have given everything. At a price of 0 everyone is taken whole.
  ghost predicate WithinBudget(cs: seq<Candidate>, plan: seq<u64>, required: u128, mark: u64) {
    var overruns := Overruns(SizesOf(cs), 0, required, mark);
    && |plan| <= |cs| && (forall i :: 0 <= i < |plan| ==> plan[i] <= cs[i].size)
    && (mark > 0 ==> (Collected(plan, mark) <= required <==> !overruns))
    && (mark > 0 && !overruns ==>
          && (required - Collected(plan, mark) < mark || plan == SizesOf(cs))
          && forall i, j :: 0 <= i < j < |plan| && plan[j] > 0 ==> plan[i] == cs[i].size)
    && (mark == 0 ==> plan == if required > 0 then SizesOf(cs) else [])
  }

  lemma PlanHolds(cs: seq<Candidate>, plan: seq<u64>, required: u128, mark: u64)
    requires AdlPlan(SizesOf(cs), 0, required, mark) == Ok(plan)
    ensures WithinBudget(cs, plan, required, mark)
  {
    hide AdlPlan, Overruns, Collected;
    var sizes := SizesOf(cs);
    if mark > 0 {
      AdlPlanExactly(sizes, 0, required, mark);
      if !Overruns(sizes, 0, required, mark) {
        AdlPlanInOrder(sizes, 0, required, mark);
      }
    } else {
      AdlPlanAtZero(sizes, 0, required);
    }
  }

  // Deleverage until `required` is collected. On success the market's non-losing positions, in
  // non-increasing score, have been cut by the plan, and nothing else has moved.
  method AutoDeleverage(state: StateManager, enabled: bool, market: u32, required: u128, mark: u64)
    returns (r: Result<seq<(Address, u64)>>, ghost cs: seq<Candidate>, ghost plan: seq<u64>)
    requires state.IndexAgrees()
    modifies state`positions, state`positionIndex
    ensures state.IndexAgrees() && OnlyShrunk(old(state.positions), state.positions)
    ensures ForcedTo(old(state.View()), state.View())
    ensures !enabled ==> r == Ok([]) && state.positions == old(state.positions)
    ensures enabled && r.Ok? ==>
              && AllCandidates(old(state.positions), market, mark, cs) && Descending(cs)
              && AdlPlan(SizesOf(cs), 0, required, mark) == Ok(plan)
              && |r.value| == |plan| <= |cs|
              && (forall i :: 0 <= i < |plan| ==> r.value[i] == (cs[i].trader, plan[i]))
              && CutBy(old(state.positions), state.positions, market, cs, plan, |plan|)
    ensures enabled && r.Ok? ==>
              && RankedByWorth(old(state.positions), market, mark, cs)
              && ForcedBy(old(state.positions), state.positions, market, cs, plan)
    ensures enabled ==>
              (r.Ok? <==>
                 && AllScored(old(state.positions), market, mark)
                 && var planned := AdlPlan(SizesOf(cs), 0, required, mark);
                    planned.Ok? && CutsFit(old(state.positions), market, cs, planned.value))
    ensures enabled && AllScored(old(state.positions), market, mark) ==>
              AllCandidates(old(state.positions), market, mark, cs) && Descending(cs)
    ensures r.Err? ==> r.error == Overflow
    ensures enabled && r.Ok? ==> WithinBudget(cs, plan, required, mark)
  {
    hide AllCandidates, Descending, DistinctCandidates, CutBy, ProfitScore, AfterCut, SortByScore, AdlPlan, AdlTaken,
        Continues, Collected, OnlyShrunk, ForcedTo, Overruns, RankedByWorth, ForcedBy, ForcedDown, CutFits, CutsFit,
        AllScored, CandidateOf, WithinBudget;
    cs, plan := [], [];
    SameShrunk(state.positions);
    ForcedNowhere(state.View());
    if !enabled {
      r := Ok([]);
      return;
    }
    var found := FindCandidates(state, market, mark);
    if found.Err? {
      r := Err(found.error);
      return;
    }
    SortKeepsCandidates(state.positions, market, mark, found.value);
    var candidates := SortByScore(found.value);
    cs := candidates;
    DescendingIsRanked(state.positions, market, mark, cs);
    ghost var ps, sizes := state.positions, SizesOf(candidates);
    NothingCut(ps, market, cs, plan);
    var taken: seq<(Address, u64)> := [];
    var collected: u128 := 0;
    assert sizes[0..] == sizes;
    PlanStarts(AdlPlan(sizes, 0, required, mark));
    var i := 0;
    while i < |candidates|
      invariant 0 <= i <= |candidates| && state.IndexAgrees()
      invariant |taken| == |plan| == i && forall j :: 0 <= j < i ==> taken[j] == (cs[j].trader, plan[j])
      invariant CutBy(ps, state.positions, market, cs, plan, i) && OnlyShrunk(ps, state.positions)
      invariant ForcedTo(old(state.View()), state.View())
      invariant Continues(AdlPlan(sizes, 0, required, mark), plan, AdlPlan(sizes[i..], collected, required, mark))
    {
      if collected >= required {
        break;
      }
      var c := candidates[i];
      var k := PositionKey(c.trader, market);
      MemberFacts(ps, market, mark, cs, i);
      StillThere(ps, state.positions, market, cs, plan, i);
      var given := TakenFrom(c.size, collected, required, mark);
      if given.Err? {
        PlanFails(AdlPlan(sizes, 0, required, mark), plan, sizes[i..], collected, required, mark);
        return Err(given.error), cs, plan;
      }
      var size := given.value;
      ghost var now, plan0 := state.positions, plan;
      CutPlanExtends(ps, now, market, cs, plan0, i, size);
      var executed := ExecuteAdl(state, k, size);
      if executed.Err? {
        CutDoesNotFit(AdlPlan(sizes, 0, required, mark), ps, market, cs, plan, sizes[i..], collected, required, mark,
                      size);
        r := Err(executed.error);
        return;
      }
      plan := plan + [size];
      CutOneMore(ps, now, state.positions, market, cs, plan, i);
      CutByShrinks(ps, state.positions, market, cs, plan, i + 1);
      RebalanceForced(old(state.View()), state.View());
      assert sizes[i..][0] == c.size && sizes[i..][1..] == sizes[i + 1..];
      ProductFits(size, mark);
      var collected' := WrapU128(collected + size * mark);
      PlanAdvance(AdlPlan(sizes, 0, required, mark), plan0, sizes[i..], collected, required, mark, size, collected');
      collected := collected';
      taken := taken + [(c.trader, size)];
      i := i + 1;
    }
    PlanEnds(AdlPlan(sizes, 0, required, mark), plan, sizes[i..], collected, required, mark);
    CutIsForced(ps, state.positions, market, cs, plan);
    r := Ok(taken);
    PlanHolds(cs, plan, required, mark);
  }

  // The two positions of that overrun are candidates: neither loses, and both score 0.
  lemma OverrunCandidates(m: u64, p: Position, ps: PositionMap, market: u32)
    requires m == 0xFFFF_FFFF_FFFF_FFFF && p == Position(m, m, true, 0, 0)
    requires ps == map[PositionKey(1, market) := p, PositionKey(2, market) := p]
    ensures AllCandidates(ps, market, m, [Candidate(1, m, 0), Candidate(2, m, 0)])
  {
    assert Equity(p, m) == Ok(0);
    assert ProfitScore(p, m) == Ok(0);
    var cs := [Candidate(1, m, 0), Candidate(2, m, 0)];
    assert cs[0] in cs && cs[1] in cs;
  }

  // The whole plan is what is done so far followed by the plan for the rest.
  ghost predicate Continues(whole: Result<seq<u64>>, done: seq<u64>, rest: Result<seq<u64>>) {
    match rest
    case Ok(more) => whole == Ok(done + more)
    case Err(e) => whole == Err(e)
  }

  lemma PlanStarts(whole: Result<seq<u64>>)
    ensures Continues(whole, [], whole)
  {
    if whole.Ok? {
      assert [] + whole.value == whole.value;
    }
  }

  lemma PlanEnds(whole: Result<seq<u64>>, done: seq<u64>, sizes: seq<u64>, collected: u128, required: u128, mark: u64)
    requires Continues(whole, done, AdlPlan(sizes, collected, required, mark)) && (sizes == [] || collected >= required)
    ensures whole == Ok(done)
  {
    assert done + [] == done;
  }

  // A candidate whose part is not computable stops the whole plan.
  lemma PlanFails(whole: Result<seq<u64>>, done: seq<u64>, sizes: seq<u64>, collected: u128, required: u128, mark: u64)
    requires sizes != [] && collected < required && Continues(whole, done, AdlPlan(sizes, collected, required, mark))
    requires AdlTaken(sizes[0], collected, required, mark).Err?
    ensures whole.Err?
  {
    hide AdlTaken;
  }

  // The whole plan has a part that does not fit.
  lemma CutDoesNotFit(whole: Result<seq<u64>>, ps: PositionMap, market: u32, cs: seq<Candidate>, done: seq<u64>,
                      sizes: seq<u64>, collected: u128, required: u128, mark: u64, size: u64)
    requires sizes != [] && collected < required && Continues(whole, done, AdlPlan(sizes, collected, required, mark))
    requires AdlTaken(sizes[0], collected, required, mark) == Ok(size)
    requires |done| < |cs|
    requires var k := PositionKey(cs[|done|].trader, market); k in ps && !CutFits(ps[k], size)
    ensures whole.Ok? ==> !CutsFit(ps, market, cs, whole.value)
  {
    hide AdlTaken, CutFits;
    if whole.Ok? {
      assert whole.value[|done|] == size;
    }
  }

  lemma NothingCut(ps: PositionMap, market: u32, cs: seq<Candidate>, plan: seq<u64>)
    ensures CutBy(ps, ps, market, cs, plan, 0)
  {
  }

  lemma MemberFacts(ps: PositionMap, market: u32, mark: u64, cs: seq<Candidate>, n: nat)
    requires n < |cs| && AllCandidates(ps, market, mark, cs)
    ensures var k := PositionKey(cs[n].trader, market); k in ps && ps[k].size == cs[n].size > 0
    ensures DistinctCandidates(cs)
  {
    hide ProfitScore;
    assert cs[n] in cs;
    assert CandidateOf(ps, market, mark, cs[n]);
  }

  lemma CutByShrinks(ps: PositionMap, ps': PositionMap, market: u32, cs: seq<Candidate>, plan: seq<u64>, n: nat)
    requires n <= |plan| && n <= |cs| && CutBy(ps, ps', market, cs, plan, n)
    ensures OnlyShrunk(ps, ps')
  {
    hide AfterCut;
    forall k: PositionKey ensures Shrunk(PositionOf(ps, k), PositionOf(ps', k)) {
      if i :| 0 <= i < n && k == PositionKey(cs[i].trader, market) {
        assert AfterCut(ps[k], plan[i]) == Ok(PositionOf(ps', k));
      } else {
        assert !AmongFirst(cs, n, market, k);
      }
    }
  }

  lemma StillThere(ps: PositionMap, now: PositionMap, market: u32, cs: seq<Candidate>, plan: seq<u64>, n: nat)
    requires n < |cs| && n <= |plan| && DistinctCandidates(cs) && CutBy(ps, now, market, cs, plan, n)
    requires PositionKey(cs[n].trader, market) in ps
    ensures var k := PositionKey(cs[n].trader, market); k in now && now[k] == ps[k]
  {
    hide AfterCut;
    var k := PositionKey(cs[n].trader, market);
    assert !AmongFirst(cs, n, market, k);
    assert PositionOf(now, k) == PositionOf(ps, k);
  }

  lemma PlanAdvance(whole: Result<seq<u64>>, done: seq<u64>, sizes: seq<u64>, collected: u128, required: u128,
                    mark: u64, size: u64, collected': u128)
    requires sizes != [] && collected < required && Continues(whole, done, AdlPlan(sizes, collected, required, mark))
    requires AdlTaken(sizes[0], collected, required, mark) == Ok(size)
    requires size * mark >= 0 && collected' == WrapU128(collected + size * mark)
    ensures Continues(whole, done + [size], AdlPlan(sizes[1..], collected', required, mark))
  {
    hide AdlTaken;
    var rest := AdlPlan(sizes[1..], collected', required, mark);
    if rest.Ok? {
      assert done + ([size] + rest.value) == done + [size] + rest.value;
    }
  }

  lemma CutPlanExtends(ps: PositionMap, now: PositionMap, market: u32, cs: seq<Candidate>, plan: seq<u64>, n: nat,
                       size: u64)
    requires n <= |cs| && n == |plan| && CutBy(ps, now, market, cs, plan, n)
    ensures CutBy(ps, now, market, cs, plan + [size], n)
  {
    hide AfterCut;
  }
}
