/**
 * The nomination dialog for heats 14 and 15: rider scores, scheduled
 * counts, ceilings, the top three main riders with ties, the picks and
 * the limit check on them, and the submitted body.
 */
module Nomination {
  import opened Domain
  import opened StableSort
  import opened MetaRules
  import opened HeatDialog
  import opened AppBackup

  /** Every stored line of every heat, heat by heat. */
  function AllLines(heats: seq<Heat>): (r: seq<HeatResult>)
    decreases |heats|
  {
    if heats == [] then [] else AllLines(heats[..|heats| - 1]) + heats[|heats| - 1].results
  }

  /** The points and bonus point of the lines carrying `id`. */
  function LinesScore(lines: seq<HeatResult>, id: RiderId): int
    decreases |lines|
  {
    if lines == [] then 0
    else
      var last := lines[|lines| - 1];
      LinesScore(lines[..|lines| - 1], id) + (if last.riderId == id then last.points + last.bonus else 0)
  }

  /** A rider's match score: points plus bonus points over every line of every heat. */
  function Score(heats: seq<Heat>, id: RiderId): int
  {
    LinesScore(AllLines(heats), id)
  }

  /** A score read from the score map, 0 for a rider with no line. */
  function ScoreIn(m: map<RiderId, int>, id: RiderId): int
  {
    if id in m then m[id] else 0
  }

  /** Scores add up over consecutive runs of lines. */
  lemma {:induction false} LinesScoreAppend(a: seq<HeatResult>, b: seq<HeatResult>, id: RiderId)
    ensures LinesScore(a + b, id) == LinesScore(a, id) + LinesScore(b, id)
    decreases |b|
  {
    if b != [] {
      var n := |b| - 1;
      assert (a + b)[..|a + b| - 1] == a + b[..n];
      LinesScoreAppend(a, b[..n], id);
    } else {
      assert a + b == a;
    }
  }

  /** A rider with no line scores nothing. */
  lemma {:induction false} NoLinesNoScore(lines: seq<HeatResult>, id: RiderId)
    requires forall k :: 0 <= k < |lines| ==> lines[k].riderId != id
    ensures LinesScore(lines, id) == 0
    decreases |lines|
  {
    if lines != [] {
      NoLinesNoScore(lines[..|lines| - 1], id);
    }
  }

  /** scoresByRider: every line adds its points and bonus point to its rider's entry. */
  method ScoresByRider(heats: seq<Heat>) returns (m: map<RiderId, int>)
    ensures forall id :: ScoreIn(m, id) == Score(heats, id)
  {
    m := map[];
    var k := 0;
    while k < |heats|
      invariant 0 <= k <= |heats|
      invariant forall id :: ScoreIn(m, id) == LinesScore(AllLines(heats[..k]), id)
    {
      assert heats[..k + 1][..k] == heats[..k];
      var done := AllLines(heats[..k]);
      var results := heats[k].results;
      var j := 0;
      assert done + results[..0] == done;
      while j < |results|
        invariant 0 <= j <= |results|
        invariant forall id :: ScoreIn(m, id) == LinesScore(done + results[..j], id)
      {
        var r := results[j];
        assert (done + results[..j + 1])[..|done + results[..j + 1]| - 1] == done + results[..j];
        m := m[r.riderId := ScoreIn(m, r.riderId) + r.points + r.bonus];
        j := j + 1;
      }
      assert results[..|results|] == results;
      k := k + 1;
    }
    assert heats[..|heats|] == heats;
  }

  /** The gates up to n holding the (non-empty) rider id. */
  function GateEntries(riders: map<Gate, GateEntry>, id: RiderId, n: int): (c: nat)
    requires 0 <= n <= 4
    ensures c <= n
    decreases n
  {
    if n == 0 then 0
    else GateEntries(riders, id, n - 1) + (if id != "" && n as Gate in riders && riders[n as Gate].riderId == id then 1 else 0)
  }

  /** The gate entries of the rider over every heat. */
  function ScheduledCount(heats: seq<Heat>, id: RiderId): nat
    decreases |heats|
  {
    if heats == [] then 0 else ScheduledCount(heats[..|heats| - 1], id) + GateEntries(heats[|heats| - 1].riders, id, 4)
  }

  function CountIn(c: map<RiderId, nat>, id: RiderId): nat
  {
    if id in c then c[id] else 0
  }

  /** heatCountsNow: one per gate entry with a rider id, over every heat. */
  method HeatCountsNow(heats: seq<Heat>) returns (c: map<RiderId, nat>)
    ensures forall id :: CountIn(c, id) == ScheduledCount(heats, id)
    ensures "" !in c
  {
    c := map[];
    var k := 0;
    while k < |heats|
      invariant 0 <= k <= |heats|
      invariant "" !in c
      invariant forall id :: CountIn(c, id) == ScheduledCount(heats[..k], id)
    {
      assert heats[..k + 1][..k] == heats[..k];
      var riders := heats[k].riders;
      var g := 1;
      while g <= 4
        invariant 1 <= g <= 5
        invariant "" !in c
        invariant forall id :: CountIn(c, id) == ScheduledCount(heats[..k], id) + GateEntries(riders, id, g - 1)
      {
        var gate := g as Gate;
        if gate in riders && riders[gate].riderId != "" {
          var rid := riders[gate].riderId;
          c := c[rid := CountIn(c, rid) + 1];
        }
        g := g + 1;
      }
      k := k + 1;
    }
    assert heats[..|heats|] == heats;
  }

  /** A heat holds the rider at most at one gate. */
  predicate OnceIn(h: Heat, id: RiderId)
  {
    forall g: Gate, x: Gate :: g in h.riders && x in h.riders && h.riders[g].riderId == id && h.riders[x].riderId == id ==> g == x
  }

  lemma {:induction false} GateEntriesBounds(riders: map<Gate, GateEntry>, id: RiderId, n: int)
    requires 0 <= n <= 4 && id != ""
    ensures (exists g: Gate :: g <= n && g in riders && riders[g].riderId == id) <==> GateEntries(riders, id, n) >= 1
    ensures (forall g: Gate, x: Gate ::
               (g <= n && x <= n && g in riders && x in riders && riders[g].riderId == id && riders[x].riderId == id) ==> g == x) ==>
            GateEntries(riders, id, n) <= 1
    decreases n
  {
    if n > 0 {
      GateEntriesBounds(riders, id, n - 1);
      if GateEntries(riders, id, n - 1) >= 1 {
        var g: Gate :| g <= n - 1 && g in riders && riders[g].riderId == id;
        assert g != n as Gate;
      }
    }
  }

  /**
   * The scheduled count is at least the number of heats the rider is in
   * (the earlier front end's count), and the two agree when no heat holds
   * the rider twice.
   */
  lemma {:induction false} ScheduledCountVsRides(heats: seq<Heat>, id: RiderId)
    requires id != ""
    ensures RidesCount(heats, id) <= ScheduledCount(heats, id)
    ensures (forall k :: 0 <= k < |heats| ==> OnceIn(heats[k], id)) ==> RidesCount(heats, id) == ScheduledCount(heats, id)
    decreases |heats|
  {
    if heats != [] {
      var n := |heats| - 1;
      ScheduledCountVsRides(heats[..n], id);
      GateEntriesBounds(heats[n].riders, id, 4);
    }
  }

  /** A heat holding the rider on two gates counts twice here and once in the earlier front end. */
  lemma DoubleEntryCountsTwice()
    ensures var e := GateEntry("r", "R", Home, Red);
            var h := Heat(1, map[1 := e, 3 := e], [], Upcoming, false);
            ScheduledCount([h], "r") == 2 && RidesCount([h], "r") == 1
  {
    var e := GateEntry("r", "R", Home, Red);
    var h := Heat(1, map[1 := e, 3 := e], [], Upcoming, false);
    assert [h][..0] == [];
    assert HeatHasRider(h, "r") by {
      assert (1 as Gate) in h.riders;
    }
  }

  /** The dialog's ceiling: five heats for a reserve, six for a main rider. */
  function LimitFor(r: RosterRider): int
  {
    if r.isReserve then 5 else 6
  }

  /**
   * The dialog's ceilings are above the backend's default ride limits
   * for both roles, and a main rider wearing 6 or 7 gets one heat more
   * here than in the earlier front end.
   */
  lemma LimitForAgainstOtherCeilings(r: RosterRider)
    ensures LimitFor(r) > (if r.isReserve then DefaultRules.rideLimits.reserveMax else DefaultRules.rideLimits.mainMax)
    ensures !r.isReserve ==> LimitFor(r) == RideLimitFor(Some(BackupRider(r.id, r.name, false, Some(6)))) + 1
    ensures r.isReserve ==> LimitFor(r) == RideLimitFor(Some(BackupRider(r.id, r.name, true, None)))
  {
  }

  /** The main riders of a roster, in roster order. */
  function Mains(roster: seq<RosterRider>): (m: seq<RosterRider>)
    ensures forall k :: 0 <= k < |m| ==> !m[k].isReserve && m[k] in roster
    ensures forall k :: 0 <= k < |roster| && !roster[k].isReserve ==> roster[k] in m
    decreases |roster|
  {
    if roster == [] then []
    else
      var last := roster[|roster| - 1];
      var init := roster[..|roster| - 1];
      assert forall k :: 0 <= k < |init| ==> init[k] == roster[k];
      Mains(init) + (if last.isReserve then [] else [last])
  }

  /** Sort keys putting higher scores first. */
  function ScoreKeys(riders: seq<RosterRider>, heats: seq<Heat>): (keys: seq<int>)
    ensures |keys| == |riders|
    ensures forall k :: 0 <= k < |riders| ==> keys[k] == -Score(heats, riders[k].id)
  {
    seq(|riders|, k requires 0 <= k < |riders| => -Score(heats, riders[k].id))
  }

  /** Where each place of the score order takes its rider from. */
  function ScoreOrder(riders: seq<RosterRider>, heats: seq<Heat>): (order: seq<nat>)
    ensures |order| == |riders| && InRange(ScoreKeys(riders, heats), order)
    ensures Distinct(order) && forall x: nat :: x in order <==> x < |riders|
  {
    SortIdx(ScoreKeys(riders, heats))
  }

  /** The riders by falling score, equal scores in roster order. */
  function ByScore(riders: seq<RosterRider>, heats: seq<Heat>): (s: seq<RosterRider>)
    ensures |s| == |riders|
    ensures forall p :: 0 <= p < |s| ==> s[p] == riders[ScoreOrder(riders, heats)[p]]
  {
    Pick(riders, ScoreOrder(riders, heats))
  }

  /** Every rider has a place in the score order. */
  lemma ByScorePlace(riders: seq<RosterRider>, heats: seq<Heat>, i: int) returns (p: int)
    requires 0 <= i < |riders|
    ensures 0 <= p < |riders| && ScoreOrder(riders, heats)[p] == i
    ensures ByScore(riders, heats)[p] == riders[i]
  {
    var order := ScoreOrder(riders, heats);
    assert i in order;
    p :| 0 <= p < |order| && order[p] == i;
  }

  /** Different places hold different riders of the list. */
  lemma ByScoreDistinct(riders: seq<RosterRider>, heats: seq<Heat>, p: int, q: int)
    requires 0 <= p < |riders| && 0 <= q < |riders| && p != q
    ensures ScoreOrder(riders, heats)[p] != ScoreOrder(riders, heats)[q]
  {
    var order := ScoreOrder(riders, heats);
    assert Distinct(order);
    if q < p {
      assert order[q] != order[p];
    }
  }

  /** Scores never rise along the score order. */
  lemma ByScoreFalls(riders: seq<RosterRider>, heats: seq<Heat>, p: int, q: int)
    requires 0 <= p < q < |riders|
    ensures Score(heats, ByScore(riders, heats)[p].id) >= Score(heats, ByScore(riders, heats)[q].id)
  {
    var keys := ScoreKeys(riders, heats);
    var order := ScoreOrder(riders, heats);
    assert Sorted(keys, order);
    assert keys[order[p]] <= keys[order[q]];
  }

  /** Riders with equal scores keep their roster order. */
  lemma ByScoreStable(riders: seq<RosterRider>, heats: seq<Heat>, p: int, q: int)
    requires 0 <= p < q < |riders|
    requires Score(heats, ByScore(riders, heats)[p].id) == Score(heats, ByScore(riders, heats)[q].id)
    ensures ScoreOrder(riders, heats)[p] < ScoreOrder(riders, heats)[q]
  {
    var keys := ScoreKeys(riders, heats);
    var order := ScoreOrder(riders, heats);
    assert Stable(keys, order);
    assert keys[order[p]] == keys[order[q]];
  }

  /**
   * top3OfTeam: the ids of the main riders when there are at most three,
   * and otherwise of every main rider scoring at least the third-highest
   * score.
   */
  function Top3OfTeam(roster: seq<RosterRider>, heats: seq<Heat>): set<RiderId>
  {
    var sorted := ByScore(Mains(roster), heats);
    if |sorted| <= 3 then set k | 0 <= k < |sorted| :: sorted[k].id
    else
      var third := Score(heats, sorted[2].id);
      set k | 0 <= k < |sorted| && Score(heats, sorted[k].id) >= third :: sorted[k].id
  }

  /** The third-highest score of the main riders. */
  function ThirdScore(roster: seq<RosterRider>, heats: seq<Heat>): int
    requires |Mains(roster)| > 3
  {
    Score(heats, ByScore(Mains(roster), heats)[2].id)
  }

  /** Only main riders are in the top three. */
  lemma Top3MainsOnly(roster: seq<RosterRider>, heats: seq<Heat>, id: RiderId)
    requires id in Top3OfTeam(roster, heats)
    ensures exists k :: 0 <= k < |roster| && !roster[k].isReserve && roster[k].id == id
  {
    var sorted := ByScore(Mains(roster), heats);
    var p :| 0 <= p < |sorted| && sorted[p].id == id;
    assert sorted[p] in Mains(roster);
    var k :| 0 <= k < |roster| && roster[k] == sorted[p];
  }

  /** With three or fewer main riders every one of them is in the top three. */
  lemma Top3AllWhenFew(roster: seq<RosterRider>, heats: seq<Heat>, k: int)
    requires |Mains(roster)| <= 3
    requires 0 <= k < |roster| && !roster[k].isReserve
    ensures roster[k].id in Top3OfTeam(roster, heats)
  {
    var ms := Mains(roster);
    assert roster[k] in ms;
    var i :| 0 <= i < |ms| && ms[i] == roster[k];
    var p := ByScorePlace(ms, heats, i);
  }

  /**
   * With more than three main riders, a main rider is in the top three
   * exactly when it scores at least the third score; ties at third place
   * are therefore all in.
   */
  lemma Top3ByThreshold(roster: seq<RosterRider>, heats: seq<Heat>, k: int)
    requires |Mains(roster)| > 3
    requires 0 <= k < |roster| && !roster[k].isReserve
    ensures roster[k].id in Top3OfTeam(roster, heats) <==> Score(heats, roster[k].id) >= ThirdScore(roster, heats)
  {
    var ms := Mains(roster);
    var sorted := ByScore(ms, heats);
    assert roster[k] in ms;
    var i :| 0 <= i < |ms| && ms[i] == roster[k];
    var p := ByScorePlace(ms, heats, i);
    if roster[k].id in Top3OfTeam(roster, heats) {
      var q :| 0 <= q < |sorted| && Score(heats, sorted[q].id) >= ThirdScore(roster, heats) && sorted[q].id == roster[k].id;
    }
  }

  /** The third score is reached by three different main riders (the first three places). */
  lemma Top3ThreeReachThird(roster: seq<RosterRider>, heats: seq<Heat>)
    requires |Mains(roster)| > 3
    ensures var ms := Mains(roster);
            var order := ScoreOrder(ms, heats);
            order[0] != order[1] && order[1] != order[2] && order[0] != order[2] &&
            Score(heats, ms[order[0]].id) >= ThirdScore(roster, heats) &&
            Score(heats, ms[order[1]].id) >= ThirdScore(roster, heats) &&
            Score(heats, ms[order[2]].id) == ThirdScore(roster, heats)
  {
    var ms := Mains(roster);
    ByScoreDistinct(ms, heats, 0, 1);
    ByScoreDistinct(ms, heats, 1, 2);
    ByScoreDistinct(ms, heats, 0, 2);
    ByScoreFalls(ms, heats, 0, 2);
    ByScoreFalls(ms, heats, 1, 2);
  }

  /** No three different main riders score more than the third score. */
  lemma Top3AtMostTwoAbove(roster: seq<RosterRider>, heats: seq<Heat>, a: int, b: int, c: int)
    requires |Mains(roster)| > 3
    requires 0 <= a < |Mains(roster)| && 0 <= b < |Mains(roster)| && 0 <= c < |Mains(roster)|
    requires a != b && b != c && a != c
    ensures var ms := Mains(roster);
            var t := ThirdScore(roster, heats);
            !(Score(heats, ms[a].id) > t && Score(heats, ms[b].id) > t && Score(heats, ms[c].id) > t)
  {
    var ms := Mains(roster);
    var pa := ByScorePlace(ms, heats, a);
    var pb := ByScorePlace(ms, heats, b);
    var pc := ByScorePlace(ms, heats, c);
    if pa >= 2 {
      if pa > 2 { ByScoreFalls(ms, heats, 2, pa); }
    } else if pb >= 2 {
      if pb > 2 { ByScoreFalls(ms, heats, 2, pb); }
    } else if pc >= 2 {
      if pc > 2 { ByScoreFalls(ms, heats, 2, pc); }
    }
  }

  /** A main rider scoring at least every other main rider is always in the top three. */
  lemma Top3HasTopScorer(roster: seq<RosterRider>, heats: seq<Heat>, k: int)
    requires 0 <= k < |roster| && !roster[k].isReserve
    requires forall j :: 0 <= j < |roster| && !roster[j].isReserve ==> Score(heats, roster[k].id) >= Score(heats, roster[j].id)
    ensures roster[k].id in Top3OfTeam(roster, heats)
  {
    var ms := Mains(roster);
    if |ms| <= 3 {
      Top3AllWhenFew(roster, heats, k);
    } else {
      var third := ByScore(ms, heats)[2];
      assert third in ms;
      var j :| 0 <= j < |roster| && roster[j] == third;
      Top3ByThreshold(roster, heats, k);
    }
  }

  /** A set holding three different values has at least three elements. */
  lemma ThreeDistinctIn<T>(a: T, b: T, c: T, all: set<T>)
    requires a != b && b != c && a != c
    requires a in all && b in all && c in all
    ensures |all| >= 3
  {
    var three := {a, b, c};
    assert |three| == 3;
    assert all == three + (all - three);
  }

  /**
   * With more than three main riders whose ids differ, the top three
   * holds at least three ids.
   */
  lemma Top3AtLeastThree(roster: seq<RosterRider>, heats: seq<Heat>)
    requires |Mains(roster)| > 3
    requires forall a, b :: 0 <= a < b < |Mains(roster)| ==> Mains(roster)[a].id != Mains(roster)[b].id
    ensures |Top3OfTeam(roster, heats)| >= 3
  {
    var ms := Mains(roster);
    var sorted := ByScore(ms, heats);
    var order := ScoreOrder(ms, heats);
    ByScoreDistinct(ms, heats, 0, 1);
    ByScoreDistinct(ms, heats, 1, 2);
    ByScoreDistinct(ms, heats, 0, 2);
    ByScoreFalls(ms, heats, 0, 2);
    ByScoreFalls(ms, heats, 1, 2);
    var t := Score(heats, sorted[2].id);
    assert sorted[0].id != sorted[1].id by {
      assert sorted[0] == ms[order[0]] && sorted[1] == ms[order[1]];
      if order[0] > order[1] { }
    }
    assert sorted[1].id != sorted[2].id by {
      assert sorted[1] == ms[order[1]] && sorted[2] == ms[order[2]];
      if order[1] > order[2] { }
    }
    assert sorted[0].id != sorted[2].id by {
      assert sorted[0] == ms[order[0]] && sorted[2] == ms[order[2]];
      if order[0] > order[2] { }
    }
    assert sorted[0].id in Top3OfTeam(roster, heats) by { assert Score(heats, sorted[0].id) >= t; }
    assert sorted[1].id in Top3OfTeam(roster, heats) by { assert Score(heats, sorted[1].id) >= t; }
    assert sorted[2].id in Top3OfTeam(roster, heats);
    ThreeDistinctIn(sorted[0].id, sorted[1].id, sorted[2].id, Top3OfTeam(roster, heats));
  }

  /** One side's two picks for a heat; a slot is empty until a rider is chosen. */
  datatype PickPair = PickPair(first: Option<RiderId>, second: Option<RiderId>)

  /** The picks of both sides for heat 14 or heat 15. */
  datatype HeatPicks = HeatPicks(home: PickPair, away: PickPair)

  /** The picks of the dialog: heat 14 and heat 15. */
  datatype Picks = Picks(p14: HeatPicks, p15: HeatPicks)

  /** The dialog opens with every slot empty. */
  const NoPicks: Picks := Picks(HeatPicks(PickPair(None, None), PickPair(None, None)),
                                HeatPicks(PickPair(None, None), PickPair(None, None)))

  function HeatOf(p: Picks, heat: int): HeatPicks
  {
    if heat == 14 then p.p14 else p.p15
  }

  function SideOf(h: HeatPicks, team: Side): PickPair
  {
    if team == Home then h.home else h.away
  }

  function SlotOf(pair: PickPair, slot: int): Option<RiderId>
  {
    if slot == 0 then pair.first else pair.second
  }

  /** The picks of the slot next to `slot`. */
  function OtherSlot(slot: int): int
  {
    if slot == 0 then 1 else 0
  }

  /** The select's value: the empty choice stores nothing. */
  function Stored(v: RiderId): Option<RiderId>
  {
    if v == "" then None else Some(v)
  }

  /**
   * Choosing `v` in one select: that slot of that side of that heat takes
   * the value, and every other slot is kept.
   */
  function Choose(p: Picks, heat: int, team: Side, slot: int, v: RiderId): (r: Picks)
    ensures SlotOf(SideOf(HeatOf(r, heat), team), slot) == Stored(v)
    ensures SlotOf(SideOf(HeatOf(r, heat), team), OtherSlot(slot)) == SlotOf(SideOf(HeatOf(p, heat), team), OtherSlot(slot))
    ensures SideOf(HeatOf(r, heat), Opponent(team)) == SideOf(HeatOf(p, heat), Opponent(team))
    ensures heat == 14 ==> r.p15 == p.p15
    ensures heat != 14 ==> r.p14 == p.p14
  {
    var pair := SideOf(HeatOf(p, heat), team);
    var newPair := if slot == 0 then pair.(first := Stored(v)) else pair.(second := Stored(v));
    var h := HeatOf(p, heat);
    var newHeat := if team == Home then h.(home := newPair) else h.(away := newPair);
    if heat == 14 then p.(p14 := newHeat) else p.(p15 := newHeat)
  }

  /** The eight slots in the order they are counted: heat 14 home, away, then heat 15. */
  function Slots(p: Picks): (s: seq<Option<RiderId>>)
    ensures |s| == 8
  {
    [p.p14.home.first, p.p14.home.second, p.p14.away.first, p.p14.away.second,
     p.p15.home.first, p.p15.home.second, p.p15.away.first, p.p15.away.second]
  }

  /** Where a slot sits among the eight. */
  function SlotIndex(heat: int, team: Side, slot: int): (j: int)
    ensures 0 <= j < 8
  {
    (if heat == 14 then 0 else 4) + (if team == Home then 0 else 2) + (if slot == 0 then 0 else 1)
  }

  /** A slot holding a rider. */
  predicate Filled(o: Option<RiderId>)
  {
    o.Some? && o.value != ""
  }

  /** How many of the slots hold `id`. */
  function SlotCount(slots: seq<Option<RiderId>>, id: RiderId): (c: nat)
    ensures c <= |slots|
    decreases |slots|
  {
    if slots == [] then 0
    else SlotCount(slots[..|slots| - 1], id) + (if Filled(slots[|slots| - 1]) && slots[|slots| - 1].value == id then 1 else 0)
  }

  /** increments: the number of slots holding each rider. */
  method Increments(p: Picks) returns (inc: map<RiderId, nat>)
    ensures forall id :: CountIn(inc, id) == SlotCount(Slots(p), id)
    ensures "" !in inc
  {
    var slots := Slots(p);
    inc := map[];
    var k := 0;
    while k < |slots|
      invariant 0 <= k <= |slots|
      invariant "" !in inc
      invariant forall id :: CountIn(inc, id) == SlotCount(slots[..k], id)
    {
      assert slots[..k + 1][..k] == slots[..k];
      if Filled(slots[k]) {
        var rid := slots[k].value;
        inc := inc[rid := CountIn(inc, rid) + 1];
      }
      k := k + 1;
    }
    assert slots[..|slots|] == slots;
  }

  /** Choosing in a select changes exactly the one slot. */
  lemma ChooseSlots(p: Picks, heat: int, team: Side, slot: int, v: RiderId)
    ensures Slots(Choose(p, heat, team, slot, v)) == Slots(p)[SlotIndex(heat, team, slot) := Stored(v)]
  {
  }

  /** Replacing one slot moves the count by what left and what arrived. */
  lemma {:induction false} SlotCountUpdate(slots: seq<Option<RiderId>>, j: int, x: Option<RiderId>, id: RiderId)
    requires 0 <= j < |slots|
    ensures SlotCount(slots[j := x], id) + (if Filled(slots[j]) && slots[j].value == id then 1 else 0) ==
            SlotCount(slots, id) + (if Filled(x) && x.value == id then 1 else 0)
    decreases |slots|
  {
    var n := |slots|;
    var updated := slots[j := x];
    assert updated[..n - 1] == (if j == n - 1 then slots[..n - 1] else slots[..n - 1][j := x]);
    if j < n - 1 {
      SlotCountUpdate(slots[..n - 1], j, x, id);
    }
  }

  /**
   * Choosing rider v adds one pick of v unless the slot already held v,
   * and takes one pick from the rider the slot held before.
   */
  lemma ChooseCounts(p: Picks, heat: int, team: Side, slot: int, v: RiderId, id: RiderId)
    ensures var before := SlotOf(SideOf(HeatOf(p, heat), team), slot);
            SlotCount(Slots(Choose(p, heat, team, slot, v)), id) + (if Filled(before) && before.value == id then 1 else 0) ==
            SlotCount(Slots(p), id) + (if v != "" && v == id then 1 else 0)
  {
    ChooseSlots(p, heat, team, slot, v);
    var j := SlotIndex(heat, team, slot);
    assert Slots(p)[j] == SlotOf(SideOf(HeatOf(p, heat), team), slot);
    SlotCountUpdate(Slots(p), j, Stored(v), id);
  }

  /** Every pick counts, so a rider picked for both heats counts twice. */
  lemma BothHeatsCountTwice(p: Picks, id: RiderId)
    requires id != ""
    requires p.p14.home.first == Some(id) && p.p15.home.first == Some(id)
    ensures SlotCount(Slots(p), id) >= 2
  {
    var s := Slots(p);
    assert SlotCount(s[..1], id) == 1 by {
      assert s[..1][..0] == [];
    }
    SlotCountMono(s, 1, 4, id);
    assert SlotCount(s[..5], id) == SlotCount(s[..4], id) + 1 by {
      assert s[..5][..4] == s[..4];
    }
    SlotCountMono(s, 5, 8, id);
    assert s[..8] == s;
  }

  /** Counts only grow along longer prefixes. */
  lemma {:induction false} SlotCountMono(s: seq<Option<RiderId>>, i: int, j: int, id: RiderId)
    requires 0 <= i <= j <= |s|
    ensures SlotCount(s[..i], id) <= SlotCount(s[..j], id)
    decreases j - i
  {
    if i < j {
      SlotCountMono(s, i, j - 1, id);
      assert s[..j][..j - 1] == s[..j - 1];
    }
  }

  /** The roster rider with the id, looked up in the home roster first. */
  function FindEither(home: seq<RosterRider>, away: seq<RosterRider>, id: RiderId): (r: Option<RosterRider>)
    ensures r.Some? ==> r.value.id == id && (r.value in home || r.value in away)
    ensures r.None? <==> (forall k :: 0 <= k < |home| ==> home[k].id != id) && (forall k :: 0 <= k < |away| ==> away[k].id != id)
    ensures FindFirst(home, RosterId, id).Some? ==> r == FindFirst(home, RosterId, id)
    ensures FindFirst(home, RosterId, id).None? ==> r == FindFirst(away, RosterId, id)
  {
    var h := FindFirst(home, RosterId, id);
    if h.Some? then h else FindFirst(away, RosterId, id)
  }

  /** The scheduled gate entries plus the picks of the rider. */
  function Planned(heats: seq<Heat>, p: Picks, id: RiderId): nat
  {
    ScheduledCount(heats, id) + SlotCount(Slots(p), id)
  }

  /**
   * wouldExceed: a known rider whose scheduled count plus picks is above
   * its ceiling; an empty or unknown id is never flagged.
   */
  predicate WouldExceed(id: RiderId, home: seq<RosterRider>, away: seq<RosterRider>, heats: seq<Heat>, p: Picks)
  {
    if id == "" then false
    else
      match FindEither(home, away, id)
      case None => false
      case Some(r) => Planned(heats, p, id) > LimitFor(r)
  }

  /**
   * Who is flagged: never the empty or an unknown id, nobody at five or
   * fewer, and every known rider above six.
   */
  lemma WouldExceedMeaning(id: RiderId, home: seq<RosterRider>, away: seq<RosterRider>, heats: seq<Heat>, p: Picks)
    ensures id == "" ==> !WouldExceed(id, home, away, heats, p)
    ensures (forall k :: 0 <= k < |home| ==> home[k].id != id) && (forall k :: 0 <= k < |away| ==> away[k].id != id) ==>
              !WouldExceed(id, home, away, heats, p)
    ensures Planned(heats, p, id) <= 5 ==> !WouldExceed(id, home, away, heats, p)
    ensures id != "" && FindEither(home, away, id).Some? && Planned(heats, p, id) > 6 ==> WouldExceed(id, home, away, heats, p)
    ensures WouldExceed(id, home, away, heats, p) ==>
              exists r :: (r in home || r in away) && r.id == id && Planned(heats, p, id) > LimitFor(r)
  {
    if WouldExceed(id, home, away, heats, p) {
      var r := FindEither(home, away, id).value;
      assert (r in home || r in away) && r.id == id && Planned(heats, p, id) > LimitFor(r);
    }
  }

  /** The roster a side chooses from. */
  function RosterOf(home: seq<RosterRider>, away: seq<RosterRider>, team: Side): seq<RosterRider>
  {
    if team == Home then home else away
  }

  /** The rider already sits in the side's other slot of the heat. */
  predicate AlreadyChosen(id: RiderId, p: Picks, heat: int, team: Side, slot: int)
  {
    var other := SlotOf(SideOf(HeatOf(p, heat), team), OtherSlot(slot));
    Filled(other) && other.value == id
  }

  /** Heat 15 admits only the side's top three. */
  predicate DisallowedH15(id: RiderId, home: seq<RosterRider>, away: seq<RosterRider>, heats: seq<Heat>, heat: int, team: Side)
  {
    heat == 15 && id !in Top3OfTeam(RosterOf(home, away, team), heats)
  }

  /**
   * The option for `id` in one select is disabled when the rider is
   * already in the other slot, when heat 15 does not admit the rider, or
   * when the rider is flagged as over its ceiling.
   */
  predicate OptionDisabled(id: RiderId, p: Picks, heat: int, team: Side, slot: int,
                           home: seq<RosterRider>, away: seq<RosterRider>, heats: seq<Heat>)
  {
    AlreadyChosen(id, p, heat, team, slot) || DisallowedH15(id, home, away, heats, heat, team) ||
    WouldExceed(id, home, away, heats, p)
  }

  /**
   * An enabled choice never puts one rider in both slots of a side, and in
   * heat 15 it is a main rider of the side's roster.
   */
  lemma EnabledChoice(id: RiderId, p: Picks, heat: int, team: Side, slot: int,
                      home: seq<RosterRider>, away: seq<RosterRider>, heats: seq<Heat>)
    requires id != "" && !OptionDisabled(id, p, heat, team, slot, home, away, heats)
    ensures var pair := SideOf(HeatOf(Choose(p, heat, team, slot, id), heat), team);
            SlotOf(pair, slot) == Some(id) && SlotOf(pair, OtherSlot(slot)) != Some(id)
    ensures heat == 15 ==>
              var roster := RosterOf(home, away, team);
              exists k :: 0 <= k < |roster| && !roster[k].isReserve && roster[k].id == id
  {
    if heat == 15 {
      Top3MainsOnly(RosterOf(home, away, team), heats, id);
    }
  }

  /**
   * As written, a rider exactly at its ceiling is still offered: the
   * option stays enabled, and once picked the rider is one over.
   */
  lemma PickPastLimit(id: RiderId, p: Picks, team: Side, slot: int, home: seq<RosterRider>, away: seq<RosterRider>,
                      heats: seq<Heat>, r: RosterRider)
    requires id != "" && FindEither(home, away, id) == Some(r)
    requires SlotOf(SideOf(p.p14, team), slot) != Some(id)
    requires !AlreadyChosen(id, p, 14, team, slot)
    requires Planned(heats, p, id) == LimitFor(r)
    ensures !OptionDisabled(id, p, 14, team, slot, home, away, heats)
    ensures Planned(heats, Choose(p, 14, team, slot, id), id) == LimitFor(r) + 1
    ensures WouldExceed(id, home, away, heats, Choose(p, 14, team, slot, id))
  {
    ChooseCounts(p, 14, team, slot, id, id);
  }

  /** A main rider on six scheduled gates, no picks yet: the heat-14 option is enabled. */
  lemma PickPastLimitExample()
    ensures var a := GateEntry("a", "A", Home, Red);
            var heats := seq(6, k requires 0 <= k < 6 => Heat(k + 1, map[1 := a], [], Upcoming, false));
            var r := RosterRider("a", "A", false);
            !OptionDisabled("a", NoPicks, 14, Home, 0, [r], [], heats) &&
            Planned(heats, Choose(NoPicks, 14, Home, 0, "a"), "a") == 7 && LimitFor(r) == 6
  {
    var a := GateEntry("a", "A", Home, Red);
    var heats := seq(6, k requires 0 <= k < 6 => Heat(k + 1, map[1 := a], [], Upcoming, false));
    var r := RosterRider("a", "A", false);
    ScheduledSixGates(heats);
    assert SlotCount(Slots(NoPicks), "a") == 0 by {
      NoPicksCountNothing("a");
    }
    PickPastLimit("a", NoPicks, Home, 0, [r], [], heats, r);
  }

  /** Six heats each holding rider "a" on gate 1 only schedule "a" six times. */
  lemma ScheduledSixGates(heats: seq<Heat>)
    requires |heats| == 6
    requires forall k :: 0 <= k < 6 ==> heats[k].riders == map[1 := GateEntry("a", "A", Home, Red)]
    ensures ScheduledCount(heats, "a") == 6
  {
    forall k | 0 <= k < 6
      ensures GateEntries(heats[k].riders, "a", 4) == 1
    {
      var m := heats[k].riders;
      assert GateEntries(m, "a", 1) == 1 by {
        assert GateEntries(m, "a", 0) == 0;
      }
      assert 2 as Gate !in m && 3 as Gate !in m && 4 as Gate !in m;
    }
    ScheduledOncePerHeat(heats, "a");
  }

  /** A rider on one gate of every heat is scheduled once per heat. */
  lemma {:induction false} ScheduledOncePerHeat(heats: seq<Heat>, id: RiderId)
    requires forall k :: 0 <= k < |heats| ==> GateEntries(heats[k].riders, id, 4) == 1
    ensures ScheduledCount(heats, id) == |heats|
    decreases |heats|
  {
    if heats != [] {
      ScheduledOncePerHeat(heats[..|heats| - 1], id);
    }
  }

  /** An empty dialog holds no picks. */
  lemma NoPicksCountNothing(id: RiderId)
    ensures SlotCount(Slots(NoPicks), id) == 0
  {
    var s := Slots(NoPicks);
    assert forall j :: 0 <= j <= 8 ==> SlotCount(s[..j], id) == 0 by {
      forall j | 0 <= j <= 8
        ensures SlotCount(s[..j], id) == 0
      {
        NoPicksPrefix(s, j, id);
      }
    }
    assert s[..8] == s;
  }

  lemma {:induction false} NoPicksPrefix(s: seq<Option<RiderId>>, j: int, id: RiderId)
    requires 0 <= j <= |s| && forall k :: 0 <= k < |s| ==> s[k].None?
    ensures SlotCount(s[..j], id) == 0
    decreases j
  {
    if j > 0 {
      NoPicksPrefix(s, j - 1, id);
      assert s[..j][..j - 1] == s[..j - 1];
    }
  }

  /**
   * The ceiling test as evidently intended: flag the rider when the pick
   * itself would take it over its ceiling.
   */
  predicate ExceedAfterPick(id: RiderId, p: Picks, heat: int, team: Side, slot: int,
                            home: seq<RosterRider>, away: seq<RosterRider>, heats: seq<Heat>)
  {
    WouldExceed(id, home, away, heats, Choose(p, heat, team, slot, id))
  }

  /** The option rule with the corrected ceiling test. */
  predicate CorrectedOptionDisabled(id: RiderId, p: Picks, heat: int, team: Side, slot: int,
                                    home: seq<RosterRider>, away: seq<RosterRider>, heats: seq<Heat>)
  {
    AlreadyChosen(id, p, heat, team, slot) || DisallowedH15(id, home, away, heats, heat, team) ||
    ExceedAfterPick(id, p, heat, team, slot, home, away, heats)
  }

  /**
   * The corrected test leaves room for one more ride: a new pick is
   * offered only below the ceiling, and re-choosing the rider a slot
   * already holds is judged as before.
   */
  lemma ExceedAfterPickMeaning(id: RiderId, p: Picks, heat: int, team: Side, slot: int,
                               home: seq<RosterRider>, away: seq<RosterRider>, heats: seq<Heat>, r: RosterRider)
    requires id != "" && FindEither(home, away, id) == Some(r)
    ensures SlotOf(SideOf(HeatOf(p, heat), team), slot) != Some(id) ==>
              (ExceedAfterPick(id, p, heat, team, slot, home, away, heats) <==> Planned(heats, p, id) >= LimitFor(r))
    ensures SlotOf(SideOf(HeatOf(p, heat), team), slot) == Some(id) ==>
              (ExceedAfterPick(id, p, heat, team, slot, home, away, heats) <==> WouldExceed(id, home, away, heats, p))
  {
    ChooseCounts(p, heat, team, slot, id, id);
  }

  /** No known rider is over its ceiling. */
  ghost predicate NoneOver(home: seq<RosterRider>, away: seq<RosterRider>, heats: seq<Heat>, p: Picks)
  {
    forall id :: !WouldExceed(id, home, away, heats, p)
  }

  /**
   * With the corrected rule, clearing a select or choosing an enabled
   * rider keeps every rider within its ceiling.
   */
  lemma CorrectedChoiceKeepsNoneOver(v: RiderId, p: Picks, heat: int, team: Side, slot: int,
                                     home: seq<RosterRider>, away: seq<RosterRider>, heats: seq<Heat>)
    requires NoneOver(home, away, heats, p)
    requires v == "" || !CorrectedOptionDisabled(v, p, heat, team, slot, home, away, heats)
    ensures NoneOver(home, away, heats, Choose(p, heat, team, slot, v))
  {
    var next := Choose(p, heat, team, slot, v);
    forall id
      ensures !WouldExceed(id, home, away, heats, next)
    {
      if id != v {
        ChooseCounts(p, heat, team, slot, v, id);
        assert !WouldExceed(id, home, away, heats, p);
      }
    }
  }

  /** All four slots of a heat hold a rider. */
  predicate Complete(h: HeatPicks)
  {
    Filled(h.home.first) && Filled(h.home.second) && Filled(h.away.first) && Filled(h.away.second)
  }

  /** canSubmit: at least one heat is complete. */
  predicate CanSubmit(p: Picks)
  {
    Complete(p.p14) || Complete(p.p15)
  }

  /** The request body: each heat is present or missing. */
  datatype Body = Body(heat14: Option<HeatPicks>, heat15: Option<HeatPicks>)

  /** The body sends exactly the complete heats. */
  function SubmitBody(p: Picks): Body
  {
    Body(if Complete(p.p14) then Some(p.p14) else None, if Complete(p.p15) then Some(p.p15) else None)
  }

  /**
   * Submission is possible exactly when the body carries a heat, every
   * heat it carries is the dialog's own picks with four riders, and a
   * fresh dialog cannot submit.
   */
  lemma SubmitBodyMeaning(p: Picks)
    ensures CanSubmit(p) <==> SubmitBody(p) != Body(None, None)
    ensures SubmitBody(p).heat14.Some? ==> SubmitBody(p).heat14.value == p.p14 && Complete(p.p14)
    ensures SubmitBody(p).heat15.Some? ==> SubmitBody(p).heat15.value == p.p15 && Complete(p.p15)
    ensures SubmitBody(p).heat14.None? <==> !Complete(p.p14)
    ensures SubmitBody(p).heat15.None? <==> !Complete(p.p15)
    ensures !CanSubmit(NoPicks)
  {
  }
}
