/**
 * The heat rules of the front end's heat hooks: position validity, the
 * completeness checks on the result form and on a saved heat, the match
 * totals recomputed from the stored heats, the front end's bonus rule and
 * its helmet colours.
 */
module UseHeats {
  import opened Domain
  import opened StableSort
  import opened Fixture
  import opened BackendScoring
  import opened BackendMatch

  /**
   * A position as the result form holds it: the empty string, a whole
   * number (a number or its digits, which `Number` and `parseInt` read
   * alike), or no position field at all.
   */
  datatype FormPos = Blank | Pos(n: int) | Unset

  /** A result-form entry; a missing status field reads as "completed". */
  datatype FormEntry = FormEntry(position: FormPos, status: Option<Status>)

  /** The result form, keyed by rider id. */
  type Form = map<RiderId, FormEntry>

  /** A whole number from 1 to 4. */
  predicate IsValidPosition(p: FormPos)
  {
    p.Pos? && 1 <= p.n <= 4
  }

  function StatusIn(form: Form, id: RiderId): Status
  {
    if id in form && form[id].status.Some? then form[id].status.value else Completed
  }

  function PositionIn(form: Form, id: RiderId): FormPos
  {
    if id in form then form[id].position else Unset
  }

  predicate FormCompletedAt(riders: map<Gate, GateEntry>, form: Form, g: Gate)
    requires g in riders
  {
    StatusIn(form, riders[g].riderId) == Completed
  }

  /** The form accepts gate g: its rider is completed with a valid position, or excluded. */
  predicate FormGateOk(riders: map<Gate, GateEntry>, form: Form, g: Gate)
    requires g in riders
  {
    (FormCompletedAt(riders, form, g) && IsValidPosition(PositionIn(form, riders[g].riderId))) ||
    StatusIn(form, riders[g].riderId) == Excluded
  }

  /** Every gate is accepted and no two completed gates share a position. */
  predicate FormComplete(riders: map<Gate, GateEntry>, form: Form)
  {
    (forall g: Gate :: g in riders ==> FormGateOk(riders, form, g)) &&
    (forall g: Gate, h: Gate ::
       (g in riders && h in riders && g != h && FormCompletedAt(riders, form, g) && FormCompletedAt(riders, form, h)) ==>
       PositionIn(form, riders[g].riderId) != PositionIn(form, riders[h].riderId))
  }

  /** The form check, walking the gates in key order and remembering the positions used. */
  method IsHeatCompleteFromForm(riders: map<Gate, GateEntry>, form: Form) returns (ok: bool)
    ensures ok == FormComplete(riders, form)
  {
    var used: set<int> := {};
    var g := 1;
    while g <= 4
      invariant 1 <= g <= 5
      invariant forall h: Gate :: h < g && h in riders ==> FormGateOk(riders, form, h)
      invariant forall h: Gate, k: Gate ::
                  (h < g && k < g && h in riders && k in riders && h != k &&
                   FormCompletedAt(riders, form, h) && FormCompletedAt(riders, form, k)) ==>
                  PositionIn(form, riders[h].riderId) != PositionIn(form, riders[k].riderId)
      invariant forall p :: p in used <==>
                  exists h: Gate :: h < g && h in riders && FormCompletedAt(riders, form, h) &&
                    PositionIn(form, riders[h].riderId) == Pos(p)
    {
      var gate := g as Gate;
      if gate in riders {
        var id := riders[gate].riderId;
        var status := StatusIn(form, id);
        var pos := PositionIn(form, id);
        if status != Completed && status != Excluded {
          return false;
        }
        if status == Completed {
          if !IsValidPosition(pos) {
            return false;
          }
          if pos.n in used {
            var h: Gate :| h < g && h in riders && FormCompletedAt(riders, form, h) && PositionIn(form, riders[h].riderId) == pos;
            assert h != gate;
            return false;
          }
          used := used + {pos.n};
        }
      }
      g := g + 1;
    }
    return true;
  }

  /** A heat whose gate riders are all excluded is complete: excluded riders need no position. */
  lemma AllExcludedComplete(riders: map<Gate, GateEntry>, form: Form)
    requires forall g: Gate :: g in riders ==> StatusIn(form, riders[g].riderId) == Excluded
    ensures FormComplete(riders, form)
  {
  }

  /** A gate rider with no form entry reads as completed without a position, so the form is not complete. */
  lemma MissingEntryIncomplete(riders: map<Gate, GateEntry>, form: Form, g: Gate)
    requires g in riders && riders[g].riderId !in form
    ensures !FormComplete(riders, form)
  {
    assert !FormGateOk(riders, form, g);
  }

  /** The first stored line for a rider (`results.find`). */
  function FirstResultFor(results: seq<HeatResult>, id: RiderId): Option<HeatResult>
    decreases |results|
  {
    if results == [] then None
    else if results[0].riderId == id then Some(results[0])
    else FirstResultFor(results[1..], id)
  }

  /** The search finds nothing exactly when no line is the rider's, and otherwise the rider's earliest line. */
  lemma {:induction false} FirstResultForMeaning(results: seq<HeatResult>, id: RiderId)
    ensures FirstResultFor(results, id).None? <==> forall k :: 0 <= k < |results| ==> results[k].riderId != id
    ensures FirstResultFor(results, id).Some? ==>
              exists k :: 0 <= k < |results| && results[k] == FirstResultFor(results, id).value &&
                FirstResultFor(results, id).value.riderId == id && forall j :: 0 <= j < k ==> results[j].riderId != id
    decreases |results|
  {
    if results != [] && results[0].riderId != id {
      var rest := results[1..];
      FirstResultForMeaning(rest, id);
      assert forall k :: 0 <= k < |rest| ==> rest[k] == results[k + 1];
      if FirstResultFor(rest, id).Some? {
        var k :| 0 <= k < |rest| && rest[k] == FirstResultFor(rest, id).value &&
                 FirstResultFor(rest, id).value.riderId == id && forall j :: 0 <= j < k ==> rest[j].riderId != id;
        assert results[k + 1] == FirstResultFor(results, id).value;
        assert forall j :: 0 <= j < k + 1 ==> results[j].riderId != id by {
          forall j | 0 <= j < k + 1 ensures results[j].riderId != id {
            if j > 0 { assert results[j] == rest[j - 1]; }
          }
        }
      }
    }
  }

  predicate SavedCompletedAt(heat: Heat, g: Gate)
    requires g in heat.riders
  {
    var r := FirstResultFor(heat.results, heat.riders[g].riderId);
    r.Some? && r.value.status == Completed
  }

  /** A stored line for gate g's rider exists and is completed at 1..4 or excluded. */
  predicate SavedGateOk(heat: Heat, g: Gate)
    requires g in heat.riders
  {
    var r := FirstResultFor(heat.results, heat.riders[g].riderId);
    r.Some? && ((r.value.status == Completed && 1 <= r.value.position <= 4) || r.value.status == Excluded)
  }

  /** A saved heat is complete: some line is stored, every gate is accepted, completed gates hold different positions. */
  predicate SavedComplete(heat: Heat)
  {
    |heat.results| > 0 &&
    (forall g: Gate :: g in heat.riders ==> SavedGateOk(heat, g)) &&
    (forall g: Gate, h: Gate ::
       (g in heat.riders && h in heat.riders && g != h && SavedCompletedAt(heat, g) && SavedCompletedAt(heat, h)) ==>
       FirstResultFor(heat.results, heat.riders[g].riderId).value.position !=
       FirstResultFor(heat.results, heat.riders[h].riderId).value.position)
  }

  /** The saved-heat check, walking the gates in key order. */
  method IsHeatSavedComplete(heat: Heat) returns (ok: bool)
    ensures ok == SavedComplete(heat)
  {
    if |heat.results| == 0 {
      return false;
    }
    var used: set<int> := {};
    var g := 1;
    while g <= 4
      invariant 1 <= g <= 5
      invariant forall h: Gate :: h < g && h in heat.riders ==> SavedGateOk(heat, h)
      invariant forall h: Gate, k: Gate ::
                  (h < g && k < g && h in heat.riders && k in heat.riders && h != k &&
                   SavedCompletedAt(heat, h) && SavedCompletedAt(heat, k)) ==>
                  FirstResultFor(heat.results, heat.riders[h].riderId).value.position !=
                  FirstResultFor(heat.results, heat.riders[k].riderId).value.position
      invariant forall p :: p in used <==>
                  exists h: Gate :: h < g && h in heat.riders && SavedCompletedAt(heat, h) &&
                    FirstResultFor(heat.results, heat.riders[h].riderId).value.position == p
    {
      var gate := g as Gate;
      if gate in heat.riders {
        var res := FirstResultFor(heat.results, heat.riders[gate].riderId);
        if res.None? {
          return false;
        }
        if res.value.status == Completed {
          if res.value.position < 1 || res.value.position > 4 {
            return false;
          }
          if res.value.position in used {
            var h: Gate :| h < g && h in heat.riders && SavedCompletedAt(heat, h) &&
                           FirstResultFor(heat.results, heat.riders[h].riderId).value.position == res.value.position;
            assert h != gate;
            return false;
          }
          used := used + {res.value.position};
        } else if res.value.status != Excluded {
          return false;
        }
      }
      g := g + 1;
    }
    return true;
  }

  /** A heat with no stored lines, or with a gate rider that has none, is not saved complete. */
  lemma SavedNeedsEveryRider(heat: Heat, g: Gate)
    requires g in heat.riders
    ensures |heat.results| == 0 ==> !SavedComplete(heat)
    ensures (forall k :: 0 <= k < |heat.results| ==> heat.results[k].riderId != heat.riders[g].riderId) ==> !SavedComplete(heat)
  {
    FirstResultForMeaning(heat.results, heat.riders[g].riderId);
    if !SavedGateOk(heat, g) {
      assert !SavedComplete(heat);
    }
  }

  /** The points of the stored lines whose rider the first matching gate puts on `side`. */
  function LinesTotal(lines: seq<HeatResult>, riders: map<Gate, GateEntry>, side: Side): int
    decreases |lines|
  {
    if lines == [] then 0
    else
      LinesTotal(lines[..|lines| - 1], riders, side) +
      (if FirstGateTeam(riders, lines[|lines| - 1].riderId) == Some(side) then lines[|lines| - 1].points else 0)
  }

  /** A side's total over all stored heats, as the front end recomputes it. */
  function FrontTotal(heats: seq<Heat>, side: Side): int
    decreases |heats|
  {
    if heats == [] then 0
    else FrontTotal(heats[..|heats| - 1], side) + LinesTotal(heats[|heats| - 1].results, heats[|heats| - 1].riders, side)
  }

  datatype Totals = Totals(home: int, away: int)

  /** The nested accumulation over heats and their stored lines. */
  method ComputeTotalsFromHeats(heats: seq<Heat>) returns (t: Totals)
    ensures t == Totals(FrontTotal(heats, Home), FrontTotal(heats, Away))
  {
    var home, away := 0, 0;
    var i := 0;
    while i < |heats|
      invariant 0 <= i <= |heats|
      invariant home == FrontTotal(heats[..i], Home) && away == FrontTotal(heats[..i], Away)
    {
      assert heats[..i + 1][..i] == heats[..i];
      var h := heats[i];
      var j := 0;
      var hHome, hAway := 0, 0;
      while j < |h.results|
        invariant 0 <= j <= |h.results|
        invariant hHome == LinesTotal(h.results[..j], h.riders, Home) && hAway == LinesTotal(h.results[..j], h.riders, Away)
      {
        assert h.results[..j + 1][..j] == h.results[..j];
        var res := h.results[j];
        var team := FirstGateTeam(h.riders, res.riderId);
        if team == Some(Home) {
          hHome := hHome + res.points;
        } else if team == Some(Away) {
          hAway := hAway + res.points;
        }
        j := j + 1;
      }
      assert h.results[..j] == h.results;
      home, away := home + hHome, away + hAway;
      i := i + 1;
    }
    assert heats[..i] == heats;
    return Totals(home, away);
  }

  /** Over heats whose gates agree on each rider's team, a heat's front-end total is the backend's stored-line total. */
  lemma {:induction false} LinesTotalAgrees(lines: seq<HeatResult>, riders: map<Gate, GateEntry>, side: Side)
    requires ConsistentTeams(riders)
    ensures LinesTotal(lines, riders, side) == StoredSideTotal(lines, RiderTeams(riders), side)
    decreases |lines|
  {
    if lines != [] {
      LinesTotalAgrees(lines[..|lines| - 1], riders, side);
      ConsistentLookupsAgree(riders, lines[|lines| - 1].riderId);
    }
  }

  /**
   * Where every heat's gates agree on each rider's team, the front end's
   * recomputed totals are the totals recomputed from the backend's
   * last-gate-wins team map.
   */
  lemma {:induction false} FrontTotalsAgreeWithBackend(heats: seq<Heat>, side: Side)
    requires forall k :: 0 <= k < |heats| ==> ConsistentTeams(heats[k].riders)
    ensures FrontTotal(heats, side) == MatchTotal(heats, side)
    decreases |heats|
  {
    if heats != [] {
      FrontTotalsAgreeWithBackend(heats[..|heats| - 1], side);
      LinesTotalAgrees(heats[|heats| - 1].results, heats[|heats| - 1].riders, side);
    }
  }

  /** Later heats add their own totals: the totals of a run of heats split at any point. */
  lemma {:induction false} FrontTotalAppend(a: seq<Heat>, b: seq<Heat>, side: Side)
    ensures FrontTotal(a + b, side) == FrontTotal(a, side) + FrontTotal(b, side)
    decreases |b|
  {
    if b == [] {
      assert a + b == a;
    } else {
      var last := |b| - 1;
      assert (a + b)[..|a + b| - 1] == a + b[..last];
      assert (a + b)[|a + b| - 1] == b[last];
      FrontTotalAppend(a, b[..last], side);
    }
  }

  function WithoutBonus(lines: seq<HeatResult>): (r: seq<HeatResult>)
    ensures |r| == |lines|
    ensures forall k :: 0 <= k < |lines| ==> r[k].bonus == 0 && r[k].(bonus := lines[k].bonus) == lines[k]
  {
    seq(|lines|, k requires 0 <= k < |lines| => lines[k].(bonus := 0))
  }

  /** Bonus points never enter the totals: clearing every stored bonus changes no total. */
  lemma {:induction false} TotalsIgnoreBonus(lines: seq<HeatResult>, riders: map<Gate, GateEntry>, side: Side)
    ensures LinesTotal(WithoutBonus(lines), riders, side) == LinesTotal(lines, riders, side)
    decreases |lines|
  {
    if lines != [] {
      var last := |lines| - 1;
      assert WithoutBonus(lines)[..last] == WithoutBonus(lines[..last]);
      TotalsIgnoreBonus(lines[..last], riders, side);
    }
  }

  /** The completed lines, in stored order (every stored position is a number). */
  function Finished(results: seq<HeatResult>): (f: seq<HeatResult>)
    ensures |f| <= |results|
    ensures forall k :: 0 <= k < |f| ==> f[k].status == Completed && f[k] in results
    decreases |results|
  {
    if results == [] then []
    else
      var last := results[|results| - 1];
      Finished(results[..|results| - 1]) + (if last.status == Completed then [last] else [])
  }

  /** Every completed line is a finisher. */
  lemma {:induction false} FinishedHasAllCompleted(results: seq<HeatResult>, k: int)
    requires 0 <= k < |results| && results[k].status == Completed
    ensures results[k] in Finished(results)
    decreases |results|
  {
    var last := |results| - 1;
    if k < last {
      FinishedHasAllCompleted(results[..last], k);
    }
  }

  lemma {:induction false} FinishedKeepsAllCompleted(results: seq<HeatResult>)
    requires forall k :: 0 <= k < |results| ==> results[k].status == Completed
    ensures Finished(results) == results
    decreases |results|
  {
    if results != [] {
      var last := |results| - 1;
      var pre := results[..last];
      FinishedKeepsAllCompleted(pre);
      assert results[last].status == Completed;
      assert Finished(results) == Finished(pre) + [results[last]];
      assert pre + [results[last]] == results;
    }
  }

  /** Lines sorted by position, ties in stored order (a stable sort). */
  function ByPosition(f: seq<HeatResult>): (s: seq<HeatResult>)
    ensures |s| == |f|
  {
    var order := SortIdx(Positions(f));
    seq(|f|, k requires 0 <= k < |f| => f[order[k]])
  }

  /** The sorted lines rise by position and are the input's lines, each taken once. */
  lemma ByPositionMeaning(f: seq<HeatResult>)
    ensures var s := ByPosition(f);
            (forall a, b :: 0 <= a < b < |s| ==> s[a].position <= s[b].position) &&
            (forall k :: 0 <= k < |s| ==> s[k] in f) &&
            (forall j :: 0 <= j < |f| ==> f[j] in s)
  {
    var order := SortIdx(Positions(f));
    var s := ByPosition(f);
    forall a, b | 0 <= a < b < |s|
      ensures s[a].position <= s[b].position
    {
      assert Positions(f)[order[a]] <= Positions(f)[order[b]];
    }
    forall j | 0 <= j < |f|
      ensures f[j] in s
    {
      assert (j as nat) in order;
      var k :| 0 <= k < |order| && order[k] == j;
      assert s[k] == f[j];
    }
  }

  /**
   * The front end's bonus map: with at least three completed lines in
   * position order, the second gets 1 when on the first's team and,
   * independently, the third gets 1 when on the second's team. A rider at
   * no gate has no team, and two such riders compare equal.
   */
  function HeatBonuses(heat: Heat): map<RiderId, int>
  {
    var fin := ByPosition(Finished(heat.results));
    if |fin| < 3 then map[]
    else
      var teams := RiderTeams(heat.riders);
      var second := if TeamIn(teams, fin[0].riderId) == TeamIn(teams, fin[1].riderId) then map[fin[1].riderId := 1] else map[];
      if TeamIn(teams, fin[1].riderId) == TeamIn(teams, fin[2].riderId) then second[fin[2].riderId := 1] else second
  }

  /**
   * The bonus map in plain terms: the finishers are the completed lines in
   * ascending position; with fewer than three the map is empty; otherwise
   * every key is the second or third finisher with value 1, the second is a
   * key when the first two share a team and the third when the second and
   * third do.
   */
  lemma HeatBonusesMeaning(heat: Heat)
    ensures var fin := ByPosition(Finished(heat.results));
            (forall k :: 0 <= k < |fin| ==> fin[k].status == Completed) &&
            (forall a, b :: 0 <= a < b < |fin| ==> fin[a].position <= fin[b].position)
    ensures var fin := ByPosition(Finished(heat.results));
            var b := HeatBonuses(heat);
            var teams := RiderTeams(heat.riders);
            (|fin| < 3 ==> b == map[]) &&
            (|fin| >= 3 ==>
               (forall id :: id in b ==>
                  b[id] == 1 &&
                  ((id == fin[1].riderId && TeamIn(teams, fin[0].riderId) == TeamIn(teams, fin[1].riderId)) ||
                   (id == fin[2].riderId && TeamIn(teams, fin[1].riderId) == TeamIn(teams, fin[2].riderId)))) &&
               (TeamIn(teams, fin[0].riderId) == TeamIn(teams, fin[1].riderId) ==> fin[1].riderId in b) &&
               (TeamIn(teams, fin[1].riderId) == TeamIn(teams, fin[2].riderId) ==> fin[2].riderId in b))
  {
    var f := Finished(heat.results);
    var order := SortIdx(Positions(f));
    var fin := ByPosition(f);
    forall k | 0 <= k < |fin| ensures fin[k].status == Completed {
      assert fin[k] == f[order[k]];
    }
    forall a, b | 0 <= a < b < |fin| ensures fin[a].position <= fin[b].position {
      assert Positions(f)[order[a]] <= Positions(f)[order[b]];
    }
  }

  /** The bonus rule as the snippet writes it: the rider-team map is filled gate by gate, then the two checks. */
  method ComputeHeatBonuses(heat: Heat) returns (bonuses: map<RiderId, int>)
    ensures bonuses == HeatBonuses(heat)
  {
    bonuses := map[];
    var fin := ByPosition(Finished(heat.results));
    if |fin| < 3 {
      return;
    }
    var teams: map<RiderId, Side> := map[];
    var g := 1;
    while g <= 4
      invariant 1 <= g <= 5
      invariant teams == TeamMapUpTo(heat.riders, g - 1)
    {
      var gate := g as Gate;
      if gate in heat.riders {
        teams := teams[heat.riders[gate].riderId := heat.riders[gate].team];
      }
      g := g + 1;
    }
    if TeamIn(teams, fin[0].riderId) == TeamIn(teams, fin[1].riderId) {
      bonuses := bonuses[fin[1].riderId := 1];
    }
    if TeamIn(teams, fin[1].riderId) == TeamIn(teams, fin[2].riderId) {
      bonuses := bonuses[fin[2].riderId := 1];
    }
  }

  /** Three different riders standing at gates of their own team cannot all share one team. */
  lemma NoThreeOnOneSide(riders: map<Gate, GateEntry>, a: RiderId, b: RiderId, c: RiderId)
    requires GatesOnSides(riders)
    requires a != b && b != c && a != c
    requires a in RiderTeams(riders) && b in RiderTeams(riders) && c in RiderTeams(riders)
    ensures !(RiderTeams(riders)[a] == RiderTeams(riders)[b] && RiderTeams(riders)[b] == RiderTeams(riders)[c])
  {
    var ga := TeamGate(riders, a);
    var gb := TeamGate(riders, b);
    var gc := TeamGate(riders, c);
    assert ga != gb && gb != gc && ga != gc;
  }

  /** A rider in the team map stands at a gate whose side is the rider's team. */
  lemma TeamGate(riders: map<Gate, GateEntry>, id: RiderId) returns (g: Gate)
    requires GatesOnSides(riders) && id in RiderTeams(riders)
    ensures g in riders && riders[g].riderId == id && RiderTeams(riders)[id] == GateSide(g)
  {
    TeamMapUpToSound(riders, 4);
    g :| g in riders && riders[g].riderId == id && RiderTeams(riders)[id] == riders[g].team;
  }

  /**
   * With every gate rider on its own team's gates and the first three
   * finishers three different gate riders, the front end awards at most
   * one bonus point.
   */
  lemma AtMostOneBonus(heat: Heat)
    requires GatesOnSides(heat.riders)
    requires var fin := ByPosition(Finished(heat.results));
             |fin| >= 3 && fin[0].riderId != fin[1].riderId && fin[1].riderId != fin[2].riderId &&
             fin[0].riderId != fin[2].riderId &&
             forall k :: 0 <= k < 3 ==> fin[k].riderId in RiderTeams(heat.riders)
    ensures |HeatBonuses(heat).Keys| <= 1
  {
    var fin := ByPosition(Finished(heat.results));
    NoThreeOnOneSide(heat.riders, fin[0].riderId, fin[1].riderId, fin[2].riderId);
  }

  /** Three different finishers at none of the heat's gates all compare equal, so two of them get a bonus. */
  lemma UnknownFinishersBothRewarded(heat: Heat)
    requires var fin := ByPosition(Finished(heat.results));
             |fin| >= 3 && fin[1].riderId != fin[2].riderId &&
             forall k :: 0 <= k < 3 ==> fin[k].riderId !in RiderTeams(heat.riders)
    ensures |HeatBonuses(heat).Keys| == 2
  {
    var fin := ByPosition(Finished(heat.results));
    assert HeatBonuses(heat).Keys == {fin[1].riderId, fin[2].riderId};
  }

  /**
   * On a full heat of four different gate riders, all completed, on a heat
   * whose riders stand on their own team's gates, the front end's bonus map
   * names exactly the rider whose stored line the backend gave the bonus.
   */
  lemma BonusRulesAgreeOnFullHeats(riders: map<Gate, GateEntry>, inputs: seq<ResultInput>, number: int, tactical: bool)
    requires |inputs| == 4 && GatesOnSides(riders)
    requires forall i :: 0 <= i < 4 ==> inputs[i].status == Completed && inputs[i].riderId in RiderTeams(riders)
    requires forall i, j :: 0 <= i < j < 4 ==> inputs[i].riderId != inputs[j].riderId
    ensures var stored := ScoreHeat(riders, inputs).results;
            var b := HeatBonuses(Heat(number, riders, stored, HeatCompleted, tactical));
            forall i :: 0 <= i < 4 ==> (stored[i].bonus == 1 <==> stored[i].riderId in b)
  {
    var stored := ScoreHeat(riders, inputs).results;
    var heat := Heat(number, riders, stored, HeatCompleted, tactical);
    var order := SortIdx(Positions(ScoredLines(inputs)));
    StoredFinishersInOrder(riders, inputs);
    BonusRule(riders, inputs);
    assert inputs[order[0]].riderId == stored[order[0]].riderId;
    assert inputs[order[1]].riderId == stored[order[1]].riderId;
    assert inputs[order[2]].riderId == stored[order[2]].riderId;
    NoThreeOnOneSide(riders, inputs[order[0]].riderId, inputs[order[1]].riderId, inputs[order[2]].riderId);
    var b := HeatBonuses(heat);
    forall i | 0 <= i < 4 ensures stored[i].bonus == 1 <==> stored[i].riderId in b {
      assert i in order;
    }
  }

  /** A full heat of completed lines has all four lines as finishers, in the backend's sort order. */
  lemma StoredFinishersInOrder(riders: map<Gate, GateEntry>, inputs: seq<ResultInput>)
    requires |inputs| == 4
    requires forall i :: 0 <= i < 4 ==> inputs[i].status == Completed
    ensures var stored := ScoreHeat(riders, inputs).results;
            var order := SortIdx(Positions(ScoredLines(inputs)));
            var fin := ByPosition(Finished(stored));
            |stored| == 4 && |fin| == 4 && Distinct(order) &&
            (forall i :: 0 <= i < 4 ==> stored[i].riderId == inputs[i].riderId) &&
            forall k :: 0 <= k < 4 ==> fin[k] == stored[order[k]]
  {
    var stored := ScoreHeat(riders, inputs).results;
    StoredLinesCompleted(riders, inputs);
    FinishedKeepsAllCompleted(stored);
    StoredPositions(riders, inputs);
  }

  lemma StoredLinesCompleted(riders: map<Gate, GateEntry>, inputs: seq<ResultInput>)
    requires forall i :: 0 <= i < |inputs| ==> inputs[i].status == Completed
    ensures var stored := ScoreHeat(riders, inputs).results;
            |stored| == |inputs| &&
            forall i :: 0 <= i < |stored| ==> stored[i].status == Completed && stored[i].riderId == inputs[i].riderId
  {
    ScoreHeatLines(riders, inputs);
  }

  lemma StoredPositions(riders: map<Gate, GateEntry>, inputs: seq<ResultInput>)
    ensures Positions(ScoreHeat(riders, inputs).results) == Positions(ScoredLines(inputs))
  {
    ScoreHeatLines(riders, inputs);
  }

  /** The front end's helmet colour: home red on gates 1 and 3, else blue; away yellow on gates 2 and 4, else white. */
  function FrontHelmet(side: Side, gateKey: string): Helmet
  {
    if side == Home then (if gateKey == "1" || gateKey == "3" then Red else Blue)
    else (if gateKey == "2" || gateKey == "4" then Yellow else White)
  }

  /**
   * The front end and the backend agree on a gate's helmet only for home
   * on gate 1 and away on gates 2 and 3 (their blues are different
   * shades); on the gates each side is given, they disagree at home gate 3
   * and away gate 4.
   */
  lemma HelmetRulesDisagree()
    ensures forall side: Side, g: Gate :: FrontHelmet(side, GateKey(g)) == BackendHelmet(side, g) <==>
              (side == Home && g == 1) || (side == Away && (g == 2 || g == 3))
    ensures forall g: Gate :: FrontHelmet(GateSide(g), GateKey(g)) != BackendHelmet(GateSide(g), g) <==> g == 3 || g == 4
  {
    assert GateKey(1) == "1" && GateKey(2) == "2" && GateKey(3) == "3" && GateKey(4) == "4";
  }
}
