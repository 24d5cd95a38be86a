/**
 * A stored match document and the handlers that update it in place:
 * creation with its fifteen heats, a tactical rider change, a heat result
 * and confirmation.
 */
module MatchRecords {
  import opened Domain
  import opened Fixture
  import opened BackendScoring
  import opened BackendMatch

  datatype MatchStatus = MatchUpcoming | MatchConfirmed

  class MatchRecord {
    var homeTeamId: string
    var awayTeamId: string
    var heats: seq<Heat>
    var homeScore: int
    var awayScore: int
    var status: MatchStatus

    /** Fifteen heats numbered 1..15 in order, every gate rider on the gate's own team and colour. */
    predicate Valid()
      reads this
    {
      |heats| == 15 && forall k :: 0 <= k < 15 ==> heats[k].number == k + 1 && GatesOnSides(heats[k].riders)
    }

    function Board(): Scoreboard
      reads this
    {
      Scoreboard(heats, homeScore, awayScore)
    }

    /** A new, upcoming match with no points. */
    constructor (homeTeamId: string, awayTeamId: string, heats: seq<Heat>)
      requires WellShaped(heats)
      ensures this.homeTeamId == homeTeamId && this.awayTeamId == awayTeamId && this.heats == heats
      ensures homeScore == 0 && awayScore == 0 && status == MatchUpcoming
      ensures Valid()
    {
      this.homeTeamId := homeTeamId;
      this.awayTeamId := awayTeamId;
      this.heats := heats;
      homeScore := 0;
      awayScore := 0;
      status := MatchUpcoming;
    }

    /**
     * update_heat_riders on this match: the stored heats change only when
     * the whole body is accepted, and then only the located heat's riders.
     */
    method UpdateHeatRiders(n: int, assignments: seq<Assignment>, db: map<RiderId, RiderDoc>) returns (r: Result<Heat>)
      requires Valid()
      modifies this
      ensures r == RidersUpdate(old(heats), n, assignments, db, homeTeamId, awayTeamId)
      ensures r.Ok? ==> heats == old(heats)[FirstHeatIndex(old(heats), n).value := r.value]
      ensures r.Err? ==> heats == old(heats)
      ensures homeTeamId == old(homeTeamId) && awayTeamId == old(awayTeamId)
      ensures homeScore == old(homeScore) && awayScore == old(awayScore) && status == old(status)
      ensures Valid()
    {
      var found := LocateHeat(heats, n);
      if found.None? {
        return Err(HeatNotFound);
      }
      var i := found.value;
      if n < 5 || n > 13 {
        return Err(OutsideTacticalWindow);
      }
      var start := heats[i].riders;
      var riders: map<Gate, GateEntry> := start;
      var k := 0;
      while k < |assignments|
        invariant 0 <= k <= |assignments|
        invariant AssignGates(start, assignments, db, homeTeamId, awayTeamId) ==
                  AssignGates(riders, assignments[k..], db, homeTeamId, awayTeamId)
      {
        var a := assignments[k];
        assert assignments[k..][1..] == assignments[k + 1..];
        var gate := GateOfKey(a.0);
        if gate.Some? {
          var g := gate.value;
          if a.1 !in db {
            return Err(RiderNotFound(a.1));
          }
          var doc := db[a.1];
          if doc.teamId != TeamIdFor(GateSide(g), homeTeamId, awayTeamId) {
            return Err(WrongTeam(a.1, GateSide(g)));
          }
          riders := riders[g := EntryFor(doc, g)];
        }
        k := k + 1;
      }
      assert assignments[|assignments|..] == [];
      AssignGatesKeepsSides(start, assignments, db, homeTeamId, awayTeamId);
      var heat := heats[i].(riders := riders);
      heats := heats[i := heat];
      r := Ok(heat);
    }

    /**
     * update_heat_result on this match: the heat is stored scored and
     * completed, and the heat's deltas are added to the stored totals.
     */
    method UpdateHeatResult(n: int, inputs: seq<ResultInput>) returns (r: Result<HeatScore>)
      requires Valid()
      modifies this
      ensures r.Ok? <==> ApplyResult(old(Board()), n, inputs).Ok?
      ensures r.Ok? ==> Board() == ApplyResult(old(Board()), n, inputs).value &&
                        r.value == ScoreHeat(old(heats)[FirstHeatIndex(old(heats), n).value].riders, inputs)
      ensures r.Err? ==> r.error == HeatNotFound && Board() == old(Board())
      ensures homeTeamId == old(homeTeamId) && awayTeamId == old(awayTeamId) && status == old(status)
      ensures Valid()
    {
      var found := LocateHeat(heats, n);
      if found.None? {
        return Err(HeatNotFound);
      }
      var i := found.value;
      var score := ScoreSubmission(heats[i].riders, inputs);
      heats := heats[i := heats[i].(results := score.results, status := HeatCompleted)];
      homeScore := homeScore + score.home;
      awayScore := awayScore + score.away;
      r := Ok(score);
    }

    /**
     * confirm_match on this match: it counts the completed heats, and when
     * there are fifteen marks the match confirmed and returns the user's
     * copy compared against the scraped official result.
     */
    method ConfirmMatch(official: Option<OfficialDoc>) returns (r: Result<UserMatch>)
      modifies this
      ensures r == ConfirmDecision(old(Board()), official)
      ensures status == (if r.Ok? then MatchConfirmed else old(status))
      ensures heats == old(heats) && homeScore == old(homeScore) && awayScore == old(awayScore)
      ensures homeTeamId == old(homeTeamId) && awayTeamId == old(awayTeamId)
    {
      var completed := 0;
      var k := 0;
      while k < |heats|
        invariant 0 <= k <= |heats|
        invariant completed == CountCompletedHeats(heats[..k])
      {
        assert heats[..k + 1][..k] == heats[..k];
        if heats[k].status == HeatCompleted {
          completed := completed + 1;
        }
        k := k + 1;
      }
      assert heats[..|heats|] == heats;
      if completed < 15 {
        r := Err(TooFewCompletedHeats(completed));
      } else {
        status := MatchConfirmed;
        r := Ok(ConfirmedCopy(Board(), official));
      }
    }
  }

  /**
   * create_match: a match the user already created for the same teams and
   * date is refused; otherwise the heats are generated and the new match
   * is upcoming with no points.
   */
  method CreateMatch(duplicate: bool, homeTeamId: string, awayTeamId: string,
                     homeMains: seq<RiderDoc>, awayMains: seq<RiderDoc>,
                     homeName: Option<string>, awayName: Option<string>) returns (r: Result<MatchRecord>)
    ensures duplicate ==> r == Err(DuplicateMatch)
    ensures !duplicate && MatchHeats(homeMains, awayMains, homeName, awayName).Err? ==>
              r == Err(MatchHeats(homeMains, awayMains, homeName, awayName).error)
    ensures !duplicate && MatchHeats(homeMains, awayMains, homeName, awayName).Ok? ==>
              r.Ok? && fresh(r.value) && r.value.Valid() &&
              r.value.heats == MatchHeats(homeMains, awayMains, homeName, awayName).value &&
              r.value.homeScore == 0 && r.value.awayScore == 0 && r.value.status == MatchUpcoming &&
              r.value.homeTeamId == homeTeamId && r.value.awayTeamId == awayTeamId
  {
    if duplicate {
      return Err(DuplicateMatch);
    }
    var generated := GenerateMatchHeats(homeMains, awayMains, homeName, awayName);
    if generated.Err? {
      return Err(generated.error);
    }
    MatchHeatsShape(homeMains, awayMains, homeName, awayName);
    var m := new MatchRecord(homeTeamId, awayTeamId, generated.value);
    r := Ok(m);
  }
}
