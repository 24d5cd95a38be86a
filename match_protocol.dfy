/**
 * The rules of the match protocol page: when a match counts as complete,
 * the tactical-reserve settings with their defaults, when a side may use
 * a tactical reserve, the one-change-per-heat guard and the order in
 * which heats open.
 */
module MatchProtocol {
  import opened Domain
  import opened MetaRules
  import opened BackendMatch
  import opened UseHeats

  /** At least fifteen heats, each completed with at least four stored lines. */
  predicate IsMatchComplete(heats: seq<Heat>)
  {
    |heats| >= 15 && forall k :: 0 <= k < |heats| ==> heats[k].status == HeatCompleted && |heats[k].results| >= 4
  }

  /**
   * The page's completeness test is the readiness the backend confirmation
   * evidently intends, and every match it accepts the backend confirms.
   * The converse fails: fifteen heats completed by empty submissions are
   * confirmed by the backend but not complete here.
   */
  lemma CompleteMatchesConfirm(heats: seq<Heat>, homeScore: int, awayScore: int, official: Option<OfficialDoc>)
    ensures IsMatchComplete(heats) <==> ReadyToConfirm(heats)
    ensures IsMatchComplete(heats) ==> ConfirmDecision(Scoreboard(heats, homeScore, awayScore), official).Ok?
    ensures var empty := seq(15, k requires 0 <= k < 15 => EmptyCompletedHeat(k));
            !IsMatchComplete(empty) && ConfirmDecision(Scoreboard(empty, 0, 0), None).Ok?
  {
    if IsMatchComplete(heats) {
      CompletedCountAll(heats);
    }
    ConfirmIgnoresResultCounts();
    var empty := seq(15, k requires 0 <= k < 15 => EmptyCompletedHeat(k));
    assert |empty[0].results| < 4;
  }

  /** The tactical settings a match may carry; any of them may be missing. */
  datatype TacticalMeta = TacticalMeta(enabled: Option<bool>, startHeat: Option<int>, endHeat: Option<int>, minDeficit: Option<int>)

  /** The tactical settings the page works with. */
  datatype TacticalView = TacticalView(enabled: bool, start: int, end: int, minDef: int)

  function OrElse<T>(o: Option<T>, d: T): T
  {
    if o.Some? then o.value else d
  }

  /**
   * The page's tactical settings: given fields are kept, and missing
   * fields (or missing settings) take the backend's default rules:
   * switched on, heats 5..13, a deficit of six.
   */
  function TacticalRulesOf(meta: Option<TacticalMeta>): (t: TacticalView)
    ensures meta.None? ==>
              t == TacticalView(DefaultRules.tactical.enabled, DefaultRules.tactical.startHeat,
                                DefaultRules.tactical.endHeat, DefaultRules.tactical.minDeficit)
    ensures meta.Some? && meta.value.startHeat.Some? ==> t.start == meta.value.startHeat.value
    ensures meta.Some? && meta.value.startHeat.None? ==> t.start == DefaultRules.tactical.startHeat
    ensures meta.Some? && meta.value.endHeat.Some? ==> t.end == meta.value.endHeat.value
    ensures meta.Some? && meta.value.endHeat.None? ==> t.end == DefaultRules.tactical.endHeat
    ensures meta.Some? && meta.value.minDeficit.Some? ==> t.minDef == meta.value.minDeficit.value
    ensures meta.Some? && meta.value.minDeficit.None? ==> t.minDef == DefaultRules.tactical.minDeficit
    ensures meta.Some? && meta.value.enabled.Some? ==> t.enabled == meta.value.enabled.value
    ensures meta.Some? && meta.value.enabled.None? ==> t.enabled == DefaultRules.tactical.enabled
  {
    match meta
    case None => TacticalView(true, 5, 13, 6)
    case Some(m) => TacticalView(OrElse(m.enabled, true), OrElse(m.startHeat, 5), OrElse(m.endHeat, 13), OrElse(m.minDeficit, 6))
  }

  /**
   * Whether `side` may use a tactical reserve in the selected heat: a
   * loaded match and a selected heat, tactical reserves switched on, the
   * heat inside the window, and the side strictly behind by at least the
   * minimum deficit on the totals recomputed over all heats.
   */
  predicate CanUseTactical(loaded: bool, selected: Option<int>, rules: TacticalView, heats: seq<Heat>, side: Side)
  {
    if !loaded || selected.None? then false
    else if !rules.enabled then false
    else if selected.value < rules.start || selected.value > rules.end then false
    else
      var home := FrontTotal(heats, Home);
      var away := FrontTotal(heats, Away);
      var diff := if home >= away then home - away else away - home;
      var losing := if side == Home then home < away else away < home;
      losing && diff >= rules.minDef
  }

  /**
   * The tactical decision in terms of the two totals: the side must trail
   * strictly and by at least the minimum, so a tied side never qualifies
   * and a side exactly the minimum behind does.
   */
  lemma CanUseTacticalMeaning(loaded: bool, selected: Option<int>, rules: TacticalView, heats: seq<Heat>, side: Side)
    ensures var own := FrontTotal(heats, side);
            var other := FrontTotal(heats, Opponent(side));
            CanUseTactical(loaded, selected, rules, heats, side) <==>
              loaded && selected.Some? && rules.enabled && rules.start <= selected.value <= rules.end &&
              own < other && other - own >= rules.minDef
    ensures FrontTotal(heats, Home) == FrontTotal(heats, Away) ==> !CanUseTactical(loaded, selected, rules, heats, side)
  {
  }

  /**
   * The deficit counts every heat, the selected one and the later ones
   * included: splitting the heats anywhere, the decision reads the sum of
   * both parts' totals.
   */
  lemma DeficitCountsLaterHeats(loaded: bool, n: int, rules: TacticalView, before: seq<Heat>, later: seq<Heat>, side: Side)
    requires loaded && rules.enabled && rules.start <= n <= rules.end
    ensures var own := FrontTotal(before, side) + FrontTotal(later, side);
            var other := FrontTotal(before, Opponent(side)) + FrontTotal(later, Opponent(side));
            CanUseTactical(loaded, Some(n), rules, before + later, side) <==> own < other && other - own >= rules.minDef
  {
    FrontTotalAppend(before, later, side);
    FrontTotalAppend(before, later, Opponent(side));
    CanUseTacticalMeaning(loaded, Some(n), rules, before + later, side);
  }

  /** The rider id at a gate, or "" when the gate is empty. */
  function RiderIdAt(riders: map<Gate, GateEntry>, g: Gate): RiderId
  {
    if g in riders then riders[g].riderId else ""
  }

  /** Gate g of the live heat holds a different rider in the draft. */
  predicate GateChanged(live: map<Gate, GateEntry>, draft: map<Gate, GateEntry>, g: Gate)
  {
    g in live && RiderIdAt(live, g) != RiderIdAt(draft, g)
  }

  /** How many of gates 1..n changed. */
  function ChangedUpTo(live: map<Gate, GateEntry>, draft: map<Gate, GateEntry>, n: int): (c: nat)
    requires 0 <= n <= 4
    ensures c <= n
    decreases n
  {
    if n == 0 then 0 else ChangedUpTo(live, draft, n - 1) + (if GateChanged(live, draft, n as Gate) then 1 else 0)
  }

  /** The guard counts the changed gates of the live heat and accepts at most one. */
  method HeatSwapGuard(live: map<Gate, GateEntry>, draft: map<Gate, GateEntry>) returns (ok: bool)
    ensures ok <==> ChangedUpTo(live, draft, 4) <= 1
  {
    var changed := 0;
    var g := 1;
    while g <= 4
      invariant 1 <= g <= 5
      invariant changed == ChangedUpTo(live, draft, g - 1)
    {
      var gate := g as Gate;
      if gate in live {
        var beforeId := live[gate].riderId;
        var afterId := if gate in draft then draft[gate].riderId else "";
        if beforeId != afterId {
          changed := changed + 1;
        }
      }
      g := g + 1;
    }
    return changed <= 1;
  }

  /** The count is at most one exactly when no two different gates both changed. */
  lemma {:induction false} ChangedAtMostOne(live: map<Gate, GateEntry>, draft: map<Gate, GateEntry>, n: int)
    requires 0 <= n <= 4
    ensures ChangedUpTo(live, draft, n) <= 1 <==>
              forall g: Gate, h: Gate :: g <= n && h <= n && GateChanged(live, draft, g) && GateChanged(live, draft, h) ==> g == h
    ensures ChangedUpTo(live, draft, n) == 0 <==> forall g: Gate :: g <= n ==> !GateChanged(live, draft, g)
    decreases n
  {
    if n > 0 {
      ChangedAtMostOne(live, draft, n - 1);
      if ChangedUpTo(live, draft, n - 1) >= 1 && GateChanged(live, draft, n as Gate) {
        var g: Gate :| g <= n - 1 && GateChanged(live, draft, g);
        assert g != n as Gate;
      }
    }
  }

  /** The heat before heat n, found by number, is saved complete; heat 1 always opens. */
  predicate CanOpenThis(heats: seq<Heat>, n: int)
  {
    n == 1 ||
    (FirstHeatIndex(heats, n - 1).Some? && SavedComplete(heats[FirstHeatIndex(heats, n - 1).value]))
  }

  /**
   * Heats open one after another: a heat after the first opens only when
   * a heat numbered one less exists, holds stored lines, and holds a
   * completed line at 1..4 or an excluded line for every gate rider.
   */
  lemma OpenOnlyAfterPrevious(heats: seq<Heat>, n: int)
    requires n != 1 && CanOpenThis(heats, n)
    ensures exists k :: 0 <= k < |heats| && heats[k].number == n - 1 && |heats[k].results| > 0 &&
              forall g: Gate :: g in heats[k].riders ==>
                (exists j :: 0 <= j < |heats[k].results| &&
                  heats[k].results[j].riderId == heats[k].riders[g].riderId &&
                  (heats[k].results[j].status == Excluded ||
                   (heats[k].results[j].status == Completed && 1 <= heats[k].results[j].position <= 4)))
  {
    var k := FirstHeatIndex(heats, n - 1).value;
    var h := heats[k];
    forall g: Gate | g in h.riders
      ensures exists j :: 0 <= j < |h.results| && h.results[j].riderId == h.riders[g].riderId &&
                (h.results[j].status == Excluded || (h.results[j].status == Completed && 1 <= h.results[j].position <= 4))
    {
      assert SavedGateOk(h, g);
      FirstResultForMeaning(h.results, h.riders[g].riderId);
    }
  }
}
