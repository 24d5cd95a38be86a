/**
 * The rule bodies of the backend match handlers, as functions of the
 * stored match: locating a heat, reassigning gate riders in the tactical
 * window, applying a heat result to the match score, confirming a match
 * and the status a user's confirmed match is listed with.
 */
module BackendMatch {
  import opened Domain
  import opened Fixture
  import opened BackendScoring

  /** The scored part of a stored match. */
  datatype Scoreboard = Scoreboard(heats: seq<Heat>, homeScore: int, awayScore: int)

  /** The index of the first heat numbered n. */
  function FirstHeatIndexFrom(heats: seq<Heat>, n: int, from: nat): (r: Option<nat>)
    requires from <= |heats|
    ensures r.Some? ==> from <= r.value < |heats| && heats[r.value].number == n &&
                        forall j :: from <= j < r.value ==> heats[j].number != n
    ensures r.None? ==> forall j :: from <= j < |heats| ==> heats[j].number != n
    decreases |heats| - from
  {
    if from == |heats| then None
    else if heats[from].number == n then Some(from)
    else FirstHeatIndexFrom(heats, n, from + 1)
  }

  function FirstHeatIndex(heats: seq<Heat>, n: int): (r: Option<nat>)
    ensures r.Some? ==> r.value < |heats| && heats[r.value].number == n &&
                        forall j :: 0 <= j < r.value ==> heats[j].number != n
    ensures r.None? <==> forall j :: 0 <= j < |heats| ==> heats[j].number != n
  {
    FirstHeatIndexFrom(heats, n, 0)
  }

  /** The heat search both handlers run before anything else. */
  method LocateHeat(heats: seq<Heat>, n: int) returns (idx: Option<nat>)
    ensures idx == FirstHeatIndex(heats, n)
  {
    var i := 0;
    while i < |heats|
      invariant 0 <= i <= |heats|
      invariant FirstHeatIndex(heats, n) == FirstHeatIndexFrom(heats, n, i)
    {
      if heats[i].number == n {
        return Some(i);
      }
      i := i + 1;
    }
    return None;
  }

  /** The search depends on heat numbers only. */
  lemma FirstHeatIndexNumbersOnly(a: seq<Heat>, b: seq<Heat>, n: int)
    requires |a| == |b| && forall j :: 0 <= j < |a| ==> a[j].number == b[j].number
    ensures FirstHeatIndex(a, n) == FirstHeatIndex(b, n)
  {
  }

  /** The stored team id that gate riders of `side` must carry. */
  function TeamIdFor(side: Side, homeTeamId: string, awayTeamId: string): string
  {
    if side == Home then homeTeamId else awayTeamId
  }

  /** The gate rider written for a rider document at gate g. */
  function EntryFor(doc: RiderDoc, g: Gate): GateEntry
  {
    GateEntry(doc.id, doc.name, GateSide(g), BackendHelmet(GateSide(g), g))
  }

  /** A gate key and rider id pair from the request body. */
  type Assignment = (string, RiderId)

  /** An assignment the handler accepts: a key that names no gate (skipped), or a known rider of the gate's team. */
  predicate Acceptable(a: Assignment, db: map<RiderId, RiderDoc>, homeTeamId: string, awayTeamId: string)
  {
    GateOfKey(a.0).None? ||
    (a.1 in db && db[a.1].teamId == TeamIdFor(GateSide(GateOfKey(a.0).value), homeTeamId, awayTeamId))
  }

  /** The assignment names gate g. */
  predicate Names(a: Assignment, g: Gate)
  {
    GateOfKey(a.0) == Some(g)
  }

  /**
   * Applies the assignments in body order: keys other than "1".."4" are
   * skipped, an unknown rider is a 404 and a rider of the wrong team a 400;
   * otherwise the gate gets the rider with the gate's team and colour.
   */
  function AssignGates(riders: map<Gate, GateEntry>, assignments: seq<Assignment>, db: map<RiderId, RiderDoc>,
                       homeTeamId: string, awayTeamId: string): Result<map<Gate, GateEntry>>
    decreases |assignments|
  {
    if assignments == [] then Ok(riders)
    else
      var a := assignments[0];
      var rest := assignments[1..];
      match GateOfKey(a.0)
      case None => AssignGates(riders, rest, db, homeTeamId, awayTeamId)
      case Some(g) =>
        if a.1 !in db then Err(RiderNotFound(a.1))
        else if db[a.1].teamId != TeamIdFor(GateSide(g), homeTeamId, awayTeamId) then Err(WrongTeam(a.1, GateSide(g)))
        else AssignGates(riders[g := EntryFor(db[a.1], g)], rest, db, homeTeamId, awayTeamId)
  }

  /** Some assignment of the body names gate g. */
  predicate NamedIn(assignments: seq<Assignment>, g: Gate)
  {
    exists i :: 0 <= i < |assignments| && Names(assignments[i], g)
  }

  predicate AllAcceptable(assignments: seq<Assignment>, db: map<RiderId, RiderDoc>, homeTeamId: string, awayTeamId: string)
  {
    forall i :: 0 <= i < |assignments| ==> Acceptable(assignments[i], db, homeTeamId, awayTeamId)
  }

  lemma NamedInCons(assignments: seq<Assignment>, g: Gate)
    requires assignments != []
    ensures NamedIn(assignments, g) <==> Names(assignments[0], g) || NamedIn(assignments[1..], g)
  {
    var rest := assignments[1..];
    if NamedIn(assignments, g) {
      var i :| 0 <= i < |assignments| && Names(assignments[i], g);
      if i > 0 {
        assert Names(rest[i - 1], g);
      }
    }
    if NamedIn(rest, g) {
      var i :| 0 <= i < |rest| && Names(rest[i], g);
      assert Names(assignments[i + 1], g);
    }
  }

  /** The assignments after the first, applied to what the first one leaves. */
  function AfterFirst(riders: map<Gate, GateEntry>, a: Assignment, db: map<RiderId, RiderDoc>): map<Gate, GateEntry>
  {
    match GateOfKey(a.0)
    case None => riders
    case Some(g) => if a.1 in db then riders[g := EntryFor(db[a.1], g)] else riders
  }

  lemma AssignGatesStep(riders: map<Gate, GateEntry>, assignments: seq<Assignment>, db: map<RiderId, RiderDoc>,
                        homeTeamId: string, awayTeamId: string)
    requires assignments != [] && Acceptable(assignments[0], db, homeTeamId, awayTeamId)
    ensures AssignGates(riders, assignments, db, homeTeamId, awayTeamId) ==
              AssignGates(AfterFirst(riders, assignments[0], db), assignments[1..], db, homeTeamId, awayTeamId)
  {
  }

  /**
   * The assignments fail exactly when one of them is not acceptable: the
   * failure names a rider missing from the rider documents, or a rider
   * whose team is not the team of the gate it was put on.
   */
  lemma {:induction false} AssignGatesFailsIff(riders: map<Gate, GateEntry>, assignments: seq<Assignment>,
                                               db: map<RiderId, RiderDoc>, homeTeamId: string, awayTeamId: string)
    ensures var r := AssignGates(riders, assignments, db, homeTeamId, awayTeamId);
            r.Err? <==> !AllAcceptable(assignments, db, homeTeamId, awayTeamId)
    ensures var r := AssignGates(riders, assignments, db, homeTeamId, awayTeamId);
            r.Err? ==> (r.error.RiderNotFound? && r.error.id !in db) ||
                       (r.error.WrongTeam? && r.error.id in db &&
                        db[r.error.id].teamId != TeamIdFor(r.error.expected, homeTeamId, awayTeamId))
    decreases |assignments|
  {
    if assignments != [] {
      var rest := assignments[1..];
      assert forall i :: 0 <= i < |rest| ==> rest[i] == assignments[i + 1];
      if Acceptable(assignments[0], db, homeTeamId, awayTeamId) {
        AssignGatesStep(riders, assignments, db, homeTeamId, awayTeamId);
        AssignGatesFailsIff(AfterFirst(riders, assignments[0], db), rest, db, homeTeamId, awayTeamId);
        assert AllAcceptable(assignments, db, homeTeamId, awayTeamId) <==> AllAcceptable(rest, db, homeTeamId, awayTeamId);
      }
    }
  }

  /**
   * On success a gate is present exactly when it was present or the body
   * names it; a gate the body does not name is as it was; a named gate holds
   * the entry made from the rider document of the LAST assignment naming it.
   */
  lemma {:induction false} AssignGatesResult(riders: map<Gate, GateEntry>, assignments: seq<Assignment>,
                                             db: map<RiderId, RiderDoc>, homeTeamId: string, awayTeamId: string, g: Gate)
    requires AssignGates(riders, assignments, db, homeTeamId, awayTeamId).Ok?
    ensures var m := AssignGates(riders, assignments, db, homeTeamId, awayTeamId).value;
            (g in m <==> g in riders || NamedIn(assignments, g)) &&
            (!NamedIn(assignments, g) && g in riders ==> m[g] == riders[g]) &&
            (NamedIn(assignments, g) ==>
               exists i :: 0 <= i < |assignments| && Names(assignments[i], g) && assignments[i].1 in db &&
                 m[g] == EntryFor(db[assignments[i].1], g) &&
                 forall j :: i < j < |assignments| ==> !Names(assignments[j], g))
    decreases |assignments|
  {
    if assignments != [] {
      var rest := assignments[1..];
      var next := AfterFirst(riders, assignments[0], db);
      AssignGatesStep(riders, assignments, db, homeTeamId, awayTeamId);
      AssignGatesResult(next, rest, db, homeTeamId, awayTeamId, g);
      NamedInCons(assignments, g);
      var m := AssignGates(riders, assignments, db, homeTeamId, awayTeamId).value;
      if NamedIn(rest, g) {
        var i :| 0 <= i < |rest| && Names(rest[i], g) && rest[i].1 in db &&
                 m[g] == EntryFor(db[rest[i].1], g) &&
                 forall j :: i < j < |rest| ==> !Names(rest[j], g);
        assert assignments[i + 1] == rest[i];
        forall j | i + 1 < j < |assignments| ensures !Names(assignments[j], g) {
          assert assignments[j] == rest[j - 1];
        }
      } else if Names(assignments[0], g) {
        forall j | 0 < j < |assignments| ensures !Names(assignments[j], g) {
          assert assignments[j] == rest[j - 1];
        }
        assert m[g] == EntryFor(db[assignments[0].1], g);
      }
    }
  }

  /**
   * On success every gate the body names holds a rider of the gate's own
   * team, with the gate's helmet colour, entered from a rider document
   * whose team id is that team's id.
   */
  lemma AssignedGatesOnTeam(riders: map<Gate, GateEntry>, assignments: seq<Assignment>,
                            db: map<RiderId, RiderDoc>, homeTeamId: string, awayTeamId: string, g: Gate)
    requires AssignGates(riders, assignments, db, homeTeamId, awayTeamId).Ok?
    requires NamedIn(assignments, g)
    ensures var m := AssignGates(riders, assignments, db, homeTeamId, awayTeamId).value;
            g in m && m[g].team == GateSide(g) && m[g].helmet == BackendHelmet(GateSide(g), g) &&
            exists id :: id in db && db[id].teamId == TeamIdFor(GateSide(g), homeTeamId, awayTeamId) && m[g] == EntryFor(db[id], g)
  {
    AssignGatesResult(riders, assignments, db, homeTeamId, awayTeamId, g);
    AssignGatesFailsIff(riders, assignments, db, homeTeamId, awayTeamId);
    var m := AssignGates(riders, assignments, db, homeTeamId, awayTeamId).value;
    var i :| 0 <= i < |assignments| && Names(assignments[i], g) && assignments[i].1 in db &&
             m[g] == EntryFor(db[assignments[i].1], g);
    assert Acceptable(assignments[i], db, homeTeamId, awayTeamId);
  }

  /** Assignments keep every gate rider on the gate's own team and colour. */
  lemma AssignGatesKeepsSides(riders: map<Gate, GateEntry>, assignments: seq<Assignment>,
                              db: map<RiderId, RiderDoc>, homeTeamId: string, awayTeamId: string)
    requires GatesOnSides(riders)
    requires AssignGates(riders, assignments, db, homeTeamId, awayTeamId).Ok?
    ensures GatesOnSides(AssignGates(riders, assignments, db, homeTeamId, awayTeamId).value)
  {
    var m := AssignGates(riders, assignments, db, homeTeamId, awayTeamId).value;
    forall g: Gate | g in m
      ensures m[g].team == GateSide(g) && m[g].helmet == BackendHelmet(GateSide(g), g)
    {
      AssignGatesResult(riders, assignments, db, homeTeamId, awayTeamId, g);
      if NamedIn(assignments, g) {
        AssignedGatesOnTeam(riders, assignments, db, homeTeamId, awayTeamId, g);
      }
    }
  }

  /**
   * update_heat_riders: a missing heat is a 404, a heat outside 5..13 a
   * 400, then the assignments; the result is the updated heat.
   */
  function RidersUpdate(heats: seq<Heat>, n: int, assignments: seq<Assignment>, db: map<RiderId, RiderDoc>,
                        homeTeamId: string, awayTeamId: string): Result<Heat>
  {
    match FirstHeatIndex(heats, n)
    case None => Err(HeatNotFound)
    case Some(i) =>
      if n < 5 || n > 13 then Err(OutsideTacticalWindow)
      else
        match AssignGates(heats[i].riders, assignments, db, homeTeamId, awayTeamId)
        case Err(e) => Err(e)
        case Ok(m) => Ok(heats[i].(riders := m))
  }

  /**
   * A rider update succeeds only inside the tactical window and only for an
   * existing heat, and then changes nothing but that heat's riders. No
   * deficit, cap, lock or ride count is consulted.
   */
  lemma RidersUpdateWindow(heats: seq<Heat>, n: int, assignments: seq<Assignment>, db: map<RiderId, RiderDoc>,
                           homeTeamId: string, awayTeamId: string)
    ensures var r := RidersUpdate(heats, n, assignments, db, homeTeamId, awayTeamId);
            r.Ok? ==> 5 <= n <= 13 && FirstHeatIndex(heats, n).Some? &&
                      var h := heats[FirstHeatIndex(heats, n).value];
                      r.value == h.(riders := r.value.riders)
    ensures FirstHeatIndex(heats, n).Some? && (n < 5 || n > 13) ==>
              RidersUpdate(heats, n, assignments, db, homeTeamId, awayTeamId) == Err(OutsideTacticalWindow)
    ensures FirstHeatIndex(heats, n).None? ==> RidersUpdate(heats, n, assignments, db, homeTeamId, awayTeamId) == Err(HeatNotFound)
  {
  }

  /**
   * update_heat_result on the stored match: the heat gets the scored
   * results and status "completed", and the deltas are added to the
   * stored totals.
   */
  function ApplyResult(b: Scoreboard, n: int, inputs: seq<ResultInput>): Result<Scoreboard>
  {
    match FirstHeatIndex(b.heats, n)
    case None => Err(HeatNotFound)
    case Some(i) =>
      var s := ScoreHeat(b.heats[i].riders, inputs);
      Ok(Scoreboard(b.heats[i := b.heats[i].(results := s.results, status := HeatCompleted)],
                    b.homeScore + s.home, b.awayScore + s.away))
  }

  /**
   * Every accepted submission completes its heat, even an empty one, and
   * leaves every other heat alone.
   */
  lemma ApplyResultCompletesHeat(b: Scoreboard, n: int, inputs: seq<ResultInput>)
    ensures ApplyResult(b, n, inputs).Ok? <==> FirstHeatIndex(b.heats, n).Some?
    ensures ApplyResult(b, n, inputs).Ok? ==>
              var i := FirstHeatIndex(b.heats, n).value;
              var after := ApplyResult(b, n, inputs).value.heats;
              |after| == |b.heats| && after[i].status == HeatCompleted && |after[i].results| == |inputs| &&
              after[i].riders == b.heats[i].riders &&
              forall j :: 0 <= j < |after| && j != i ==> after[j] == b.heats[j]
  {
  }

  /**
   * Submitting the same result twice stores the same heat both times but
   * adds the deltas twice: the stored totals grow by twice the heat's
   * points.
   */
  lemma ResubmissionDoubleCounts(b: Scoreboard, n: int, inputs: seq<ResultInput>)
    requires FirstHeatIndex(b.heats, n).Some?
    ensures var once := ApplyResult(b, n, inputs).value;
            var s := ScoreHeat(b.heats[FirstHeatIndex(b.heats, n).value].riders, inputs);
            ApplyResult(once, n, inputs).Ok? &&
            ApplyResult(once, n, inputs).value.heats == once.heats &&
            ApplyResult(once, n, inputs).value.homeScore == b.homeScore + 2 * s.home &&
            ApplyResult(once, n, inputs).value.awayScore == b.awayScore + 2 * s.away
  {
    var i := FirstHeatIndex(b.heats, n).value;
    var once := ApplyResult(b, n, inputs).value;
    FirstHeatIndexNumbersOnly(b.heats, once.heats, n);
  }

  /** The points of the stored lines whose rider stands on the side's gates. */
  function StoredSideTotal(lines: seq<HeatResult>, teams: map<RiderId, Side>, side: Side): int
    decreases |lines|
  {
    if lines == [] then 0
    else
      StoredSideTotal(lines[..|lines| - 1], teams, side) +
      (if TeamIn(teams, lines[|lines| - 1].riderId) == Some(side) then lines[|lines| - 1].points else 0)
  }

  /** The match total of one side, recomputed from every heat's stored lines and gates. */
  function MatchTotal(heats: seq<Heat>, side: Side): int
    decreases |heats|
  {
    if heats == [] then 0
    else
      MatchTotal(heats[..|heats| - 1], side) +
      StoredSideTotal(heats[|heats| - 1].results, RiderTeams(heats[|heats| - 1].riders), side)
  }

  /** The stored lines of a scored heat add up to the heat's delta. */
  lemma {:induction false} StoredTotalIsDelta(lines: seq<HeatResult>, inputs: seq<ResultInput>, teams: map<RiderId, Side>, side: Side)
    requires |lines| == |inputs|
    requires forall i :: 0 <= i < |lines| ==>
               lines[i].riderId == inputs[i].riderId && lines[i].points == PointsFor(inputs[i].status, inputs[i].position)
    ensures StoredSideTotal(lines, teams, side) == SideTotal(inputs, teams, side)
    decreases |lines|
  {
    if lines != [] {
      StoredTotalIsDelta(lines[..|lines| - 1], inputs[..|inputs| - 1], teams, side);
    }
  }

  /** Changing one heat changes the recomputed total by the difference of that heat's stored totals. */
  lemma {:induction false} MatchTotalUpdate(heats: seq<Heat>, i: nat, h: Heat, side: Side)
    requires i < |heats|
    ensures MatchTotal(heats[i := h], side) ==
              MatchTotal(heats, side) - StoredSideTotal(heats[i].results, RiderTeams(heats[i].riders), side)
                                      + StoredSideTotal(h.results, RiderTeams(h.riders), side)
    decreases |heats|
  {
    var last := |heats| - 1;
    if i < last {
      MatchTotalUpdate(heats[..last], i, h, side);
      assert heats[i := h][..last] == heats[..last][i := h];
    } else {
      assert heats[i := h][..last] == heats[..last];
    }
  }

  /**
   * The intended update: the stored totals are recomputed from the heats
   * after the heat is stored, so a heat counts once however often it is
   * submitted.
   */
  function ApplyResultRecomputed(b: Scoreboard, n: int, inputs: seq<ResultInput>): Result<Scoreboard>
  {
    match FirstHeatIndex(b.heats, n)
    case None => Err(HeatNotFound)
    case Some(i) =>
      var s := ScoreHeat(b.heats[i].riders, inputs);
      var heats := b.heats[i := b.heats[i].(results := s.results, status := HeatCompleted)];
      Ok(Scoreboard(heats, MatchTotal(heats, Home), MatchTotal(heats, Away)))
  }

  /**
   * Recomputing makes resubmission harmless: a second identical submission
   * changes nothing. When the stored totals were the recomputed totals
   * before, a first submission moves them by exactly the heat's deltas
   * minus what the heat's earlier lines had counted.
   */
  lemma RecomputedResubmissionIdempotent(b: Scoreboard, n: int, inputs: seq<ResultInput>, side: Side)
    requires FirstHeatIndex(b.heats, n).Some?
    ensures var once := ApplyResultRecomputed(b, n, inputs).value;
            ApplyResultRecomputed(once, n, inputs) == Ok(once)
    ensures var i := FirstHeatIndex(b.heats, n).value;
            var s := ScoreHeat(b.heats[i].riders, inputs);
            var once := ApplyResultRecomputed(b, n, inputs).value;
            (if side == Home then once.homeScore else once.awayScore) ==
              MatchTotal(b.heats, side) - StoredSideTotal(b.heats[i].results, RiderTeams(b.heats[i].riders), side)
                                        + (if side == Home then s.home else s.away)
  {
    var i := FirstHeatIndex(b.heats, n).value;
    var s := ScoreHeat(b.heats[i].riders, inputs);
    var h := b.heats[i].(results := s.results, status := HeatCompleted);
    var once := ApplyResultRecomputed(b, n, inputs).value;
    FirstHeatIndexNumbersOnly(b.heats, once.heats, n);
    assert once.heats[i := h] == once.heats;
    ScoreHeatLines(b.heats[i].riders, inputs);
    StoredTotalIsDelta(s.results, inputs, RiderTeams(h.riders), side);
    MatchTotalUpdate(b.heats, i, h, side);
  }

  function CountCompletedHeats(heats: seq<Heat>): (c: nat)
    ensures c <= |heats|
    decreases |heats|
  {
    if heats == [] then 0
    else CountCompletedHeats(heats[..|heats| - 1]) + (if heats[|heats| - 1].status == HeatCompleted then 1 else 0)
  }

  /** A scraped official result: either score may be absent, and other fields make the document non-empty. */
  datatype OfficialDoc = OfficialDoc(homeScore: Option<int>, awayScore: Option<int>, otherFields: bool)

  /** An empty document counts as no result. */
  predicate NonEmpty(d: OfficialDoc)
  {
    d.homeScore.Some? || d.awayScore.Some? || d.otherFields
  }

  function ScoreOr0(s: Option<int>): int
  {
    if s.Some? then s.value else 0
  }

  datatype ScoreKind = HomeScore | AwayScore

  datatype Discrepancy = Discrepancy(kind: ScoreKind, userValue: int, officialValue: int)

  /** "completed" and "disputed" are written at confirmation, "validated" and "complete" later. */
  datatype UserMatchStatus = StoredCompleted | Disputed | Validated | ListedComplete

  /** A user's confirmed copy of a match. */
  datatype UserMatch = UserMatch(homeScore: int, awayScore: int, heats: seq<Heat>, status: UserMatchStatus,
                                 discrepancies: seq<Discrepancy>, official: Option<OfficialDoc>)

  /** Discrepancies between stored totals and official scores, home first. */
  function ScoreDiscrepancies(home: int, away: int, officialHome: int, officialAway: int): (ds: seq<Discrepancy>)
    ensures |ds| <= 2
    ensures ds == [] <==> home == officialHome && away == officialAway
    ensures forall k :: 0 <= k < |ds| ==> ds[k].userValue != ds[k].officialValue
  {
    (if home != officialHome then [Discrepancy(HomeScore, home, officialHome)] else []) +
    (if away != officialAway then [Discrepancy(AwayScore, away, officialAway)] else [])
  }

  /**
   * confirm_match: fewer than 15 completed heats is a 400; otherwise the
   * user's copy keeps the stored totals and heats, and a non-empty official
   * result (absent scores read as 0) marks it disputed when a total differs.
   */
  function ConfirmDecision(b: Scoreboard, official: Option<OfficialDoc>): Result<UserMatch>
  {
    var completed := CountCompletedHeats(b.heats);
    if completed < 15 then Err(TooFewCompletedHeats(completed))
    else Ok(ConfirmedCopy(b, official))
  }

  /** The user's copy of a confirmed match, compared against the official result. */
  function ConfirmedCopy(b: Scoreboard, official: Option<OfficialDoc>): UserMatch
  {
    if official.Some? && NonEmpty(official.value) then
      var ds := ScoreDiscrepancies(b.homeScore, b.awayScore, ScoreOr0(official.value.homeScore), ScoreOr0(official.value.awayScore));
      UserMatch(b.homeScore, b.awayScore, b.heats, if ds == [] then StoredCompleted else Disputed, ds, official)
    else UserMatch(b.homeScore, b.awayScore, b.heats, StoredCompleted, [], None)
  }

  /**
   * Confirmation succeeds exactly when at least 15 heats are completed, and
   * the copy is disputed exactly when a non-empty official result differs
   * from a stored total.
   */
  lemma ConfirmMeaning(b: Scoreboard, official: Option<OfficialDoc>)
    ensures ConfirmDecision(b, official).Ok? <==> CountCompletedHeats(b.heats) >= 15
    ensures ConfirmDecision(b, official).Ok? ==>
              var u := ConfirmDecision(b, official).value;
              u.homeScore == b.homeScore && u.awayScore == b.awayScore && u.heats == b.heats &&
              (u.status == Disputed <==>
                 official.Some? && NonEmpty(official.value) &&
                 (b.homeScore != ScoreOr0(official.value.homeScore) || b.awayScore != ScoreOr0(official.value.awayScore))) &&
              (u.status == Disputed || u.status == StoredCompleted)
  {
  }

  /** A heat completed by an empty submission. */
  function EmptyCompletedHeat(k: nat): Heat
  {
    Heat(k + 1, map[], [], HeatCompleted, k == 14)
  }

  /**
   * Confirmation as written counts statuses only: fifteen heats completed by
   * empty submissions, with no result line anywhere, confirm.
   */
  lemma ConfirmIgnoresResultCounts()
    ensures var heats := seq(15, k requires 0 <= k < 15 => EmptyCompletedHeat(k));
            (forall k :: 0 <= k < 15 ==> heats[k].results == []) &&
            ConfirmDecision(Scoreboard(heats, 0, 0), None).Ok?
  {
    var heats := seq(15, k requires 0 <= k < 15 => EmptyCompletedHeat(k));
    CompletedCountAll(heats);
  }

  lemma {:induction false} CompletedCountAll(heats: seq<Heat>)
    requires forall k :: 0 <= k < |heats| ==> heats[k].status == HeatCompleted
    ensures CountCompletedHeats(heats) == |heats|
    decreases |heats|
  {
    if heats != [] {
      CompletedCountAll(heats[..|heats| - 1]);
    }
  }

  /** The intended readiness: at least 15 heats, each completed with at least four result lines. */
  predicate ReadyToConfirm(heats: seq<Heat>)
  {
    |heats| >= 15 && forall k :: 0 <= k < |heats| ==> heats[k].status == HeatCompleted && |heats[k].results| >= 4
  }

  function ConfirmDecisionChecked(b: Scoreboard, official: Option<OfficialDoc>): Result<UserMatch>
  {
    if !ReadyToConfirm(b.heats) then Err(TooFewCompletedHeats(CountCompletedHeats(b.heats)))
    else ConfirmDecision(b, official)
  }

  /**
   * The checked confirmation accepts exactly the matches whose heats are all
   * completed with four lines each, and a confirmed copy never holds a heat
   * without results.
   */
  lemma ConfirmCheckedMeaning(b: Scoreboard, official: Option<OfficialDoc>)
    ensures ConfirmDecisionChecked(b, official).Ok? <==> ReadyToConfirm(b.heats)
    ensures ConfirmDecisionChecked(b, official).Ok? ==>
              forall k :: 0 <= k < |ConfirmDecisionChecked(b, official).value.heats| ==>
                |ConfirmDecisionChecked(b, official).value.heats[k].results| >= 4
  {
    if ReadyToConfirm(b.heats) {
      CompletedCountAll(b.heats);
    }
  }

  /**
   * The status a confirmed match is listed with. Without its match document
   * the copy is listed as stored; without a linked official match, or when
   * the official match lacks either score, it is "complete"; otherwise it is
   * "validated" or "disputed" by comparing both totals.
   */
  function Listed(u: UserMatch, matchFound: bool, officialLinked: bool, official: Option<OfficialDoc>): UserMatch
  {
    if !matchFound then u
    else if !officialLinked then u.(status := ListedComplete, discrepancies := [])
    else if official.Some? && official.value.homeScore.Some? && official.value.awayScore.Some? then
      var ds := ScoreDiscrepancies(u.homeScore, u.awayScore, official.value.homeScore.value, official.value.awayScore.value);
      u.(status := if ds == [] then Validated else Disputed, discrepancies := ds,
         official := Some(OfficialDoc(official.value.homeScore, official.value.awayScore, false)))
    else u.(status := ListedComplete, discrepancies := [])
  }

  /** A listed copy is validated exactly when an official match with both scores agrees with both totals. */
  lemma ListedValidatedIff(u: UserMatch, officialLinked: bool, official: Option<OfficialDoc>)
    ensures Listed(u, true, officialLinked, official).status == Validated <==>
              officialLinked && official.Some? && official.value.homeScore == Some(u.homeScore) &&
              official.value.awayScore == Some(u.awayScore)
    ensures Listed(u, true, officialLinked, official).status == Disputed <==>
              officialLinked && official.Some? && official.value.homeScore.Some? && official.value.awayScore.Some? &&
              (official.value.homeScore != Some(u.homeScore) || official.value.awayScore != Some(u.awayScore))
  {
  }

  datatype Action = AcceptOfficial | KeepUser | OtherAction

  /**
   * resolve_discrepancy: accepting the official result copies both official
   * scores (400 when no official match is linked or a score is missing);
   * keeping the user's result only marks it validated; any other action is a 400.
   */
  function Resolve(u: UserMatch, action: Action, officialLinked: bool, official: Option<OfficialDoc>): Result<UserMatch>
  {
    match action
    case AcceptOfficial =>
      if !officialLinked then Err(NoOfficialMatch)
      else if official.Some? && official.value.homeScore.Some? && official.value.awayScore.Some? then
        Ok(u.(homeScore := official.value.homeScore.value, awayScore := official.value.awayScore.value,
              status := Validated, discrepancies := []))
      else Err(NoOfficialScores)
    case KeepUser => Ok(u.(status := Validated, discrepancies := []))
    case OtherAction => Err(InvalidAction)
  }

  /**
   * Accepting the official result is final: the next listing against the
   * same official match reports it validated with no discrepancies.
   */
  lemma AcceptedStaysValidated(u: UserMatch, official: OfficialDoc)
    requires official.homeScore.Some? && official.awayScore.Some?
    ensures Resolve(u, AcceptOfficial, true, Some(official)).Ok?
    ensures var v := Resolve(u, AcceptOfficial, true, Some(official)).value;
            Listed(v, true, true, Some(official)).status == Validated &&
            Listed(v, true, true, Some(official)).discrepancies == []
  {
  }

  /**
   * Keeping the user's result does not survive the next listing when an
   * official match with both scores disagrees: it is listed disputed again.
   */
  lemma KeptResultListedDisputed(u: UserMatch, official: OfficialDoc)
    requires official.homeScore.Some? && official.awayScore.Some?
    requires official.homeScore.value != u.homeScore
    ensures Resolve(u, KeepUser, true, Some(official)).value.status == Validated
    ensures Listed(Resolve(u, KeepUser, true, Some(official)).value, true, true, Some(official)).status == Disputed
  {
  }
}
