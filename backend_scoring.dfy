/**
 * Backend heat scoring: a submitted result list becomes stored result
 * lines with 3-2-1-0 points and a bonus point, and a home and an away
 * delta for the match score. Team deltas count base points only, and only
 * for riders that stand at one of the heat's gates.
 */
module BackendScoring {
  import opened Domain
  import opened StableSort

  /**
   * One submitted result line. A missing position reads as 0 and a missing
   * status as "completed".
   */
  datatype ResultInput = ResultInput(riderId: RiderId, position: int, status: Status)

  /** What scoring a heat yields: the stored result lines and the two team deltas. */
  datatype HeatScore = HeatScore(results: seq<HeatResult>, home: int, away: int)

  /** The points of one line: 3-2-1-0 for a completed ride in places 1..4, else nothing. */
  function PointsFor(status: Status, position: int): (p: int)
    ensures status != Completed ==> p == 0
    ensures status == Completed && 1 <= position <= 4 ==> p == 4 - position
    ensures status == Completed && (position < 1 || position > 4) ==> p == 0
  {
    if status == Completed then
      if position == 1 then 3 else if position == 2 then 2 else if position == 3 then 1 else 0
    else 0
  }

  function ScoredLine(input: ResultInput): HeatResult
  {
    HeatResult(input.riderId, input.position, PointsFor(input.status, input.position), 0, input.status)
  }

  function ScoredLines(inputs: seq<ResultInput>): (lines: seq<HeatResult>)
    ensures |lines| == |inputs|
    ensures forall i :: 0 <= i < |inputs| ==>
              lines[i].riderId == inputs[i].riderId && lines[i].position == inputs[i].position &&
              lines[i].status == inputs[i].status && lines[i].bonus == 0 && 0 <= lines[i].points <= 3
  {
    seq(|inputs|, i requires 0 <= i < |inputs| => ScoredLine(inputs[i]))
  }

  /** The points team `side` collects from the lines, a line counting for the team its rider's gate gives. */
  function SideTotal(inputs: seq<ResultInput>, teams: map<RiderId, Side>, side: Side): int
    decreases |inputs|
  {
    if inputs == [] then 0
    else
      var last := inputs[|inputs| - 1];
      SideTotal(inputs[..|inputs| - 1], teams, side) +
      (if TeamIn(teams, last.riderId) == Some(side) then PointsFor(last.status, last.position) else 0)
  }

  /** The points of all lines whose rider stands at a gate of the heat. */
  function PointsOfKnown(inputs: seq<ResultInput>, teams: map<RiderId, Side>): int
    decreases |inputs|
  {
    if inputs == [] then 0
    else
      var last := inputs[|inputs| - 1];
      PointsOfKnown(inputs[..|inputs| - 1], teams) + (if last.riderId in teams then PointsFor(last.status, last.position) else 0)
  }

  /** The points of all lines. */
  function PointsOfAll(inputs: seq<ResultInput>): int
    decreases |inputs|
  {
    if inputs == [] then 0
    else PointsOfAll(inputs[..|inputs| - 1]) + PointsFor(inputs[|inputs| - 1].status, inputs[|inputs| - 1].position)
  }

  /**
   * The two deltas split the points of the gate riders' lines between
   * the teams: lines of riders at no gate count for neither, and each delta
   * lies between 0 and three points a line.
   */
  lemma {:induction false} TeamDeltasSplitKnownPoints(inputs: seq<ResultInput>, teams: map<RiderId, Side>)
    ensures SideTotal(inputs, teams, Home) + SideTotal(inputs, teams, Away) == PointsOfKnown(inputs, teams)
    ensures 0 <= SideTotal(inputs, teams, Home) <= 3 * |inputs| && 0 <= SideTotal(inputs, teams, Away) <= 3 * |inputs|
    ensures (forall i :: 0 <= i < |inputs| ==> inputs[i].riderId in teams) ==> PointsOfKnown(inputs, teams) == PointsOfAll(inputs)
    decreases |inputs|
  {
    if inputs != [] {
      var prefix := inputs[..|inputs| - 1];
      TeamDeltasSplitKnownPoints(prefix, teams);
      assert forall i :: 0 <= i < |prefix| ==> prefix[i] == inputs[i];
      var last := inputs[|inputs| - 1];
      if last.riderId in teams {
        if teams[last.riderId] == Home { } else { }
      }
    }
  }

  /** The points of four lines, written out. */
  lemma PointsOfFour(inputs: seq<ResultInput>)
    requires |inputs| == 4
    ensures PointsOfAll(inputs) == PointsFor(inputs[0].status, inputs[0].position) + PointsFor(inputs[1].status, inputs[1].position) +
                                   PointsFor(inputs[2].status, inputs[2].position) + PointsFor(inputs[3].status, inputs[3].position)
  {
    assert inputs[..3][..2] == inputs[..2] && inputs[..2][..1] == inputs[..1] && inputs[..1][..0] == [];
    assert PointsOfAll(inputs[..1]) == PointsFor(inputs[0].status, inputs[0].position);
    assert PointsOfAll(inputs[..2]) == PointsOfAll(inputs[..1]) + PointsFor(inputs[1].status, inputs[1].position);
    assert PointsOfAll(inputs[..3]) == PointsOfAll(inputs[..2]) + PointsFor(inputs[2].status, inputs[2].position);
  }

  /** Adding line i to the first i lines adds its points to its rider's team. */
  lemma SideTotalStep(inputs: seq<ResultInput>, i: nat, teams: map<RiderId, Side>)
    requires i < |inputs|
    ensures forall side: Side :: SideTotal(inputs[..i + 1], teams, side) == SideTotal(inputs[..i], teams, side) +
              (if TeamIn(teams, inputs[i].riderId) == Some(side) then PointsFor(inputs[i].status, inputs[i].position) else 0)
  {
    assert inputs[..i + 1][..i] == inputs[..i];
  }

  /** Four different places out of 1..4 are all of them. */
  lemma FourPlacesSumToTen(a: int, b: int, c: int, d: int)
    requires 1 <= a <= 4 && 1 <= b <= 4 && 1 <= c <= 4 && 1 <= d <= 4
    requires a != b && a != c && a != d && b != c && b != d && c != d
    ensures a + b + c + d == 10
  {
  }

  /** A heat of four completed gate riders in places 1..4 hands out six base points between the teams. */
  lemma FullHeatSumsToSix(inputs: seq<ResultInput>, teams: map<RiderId, Side>)
    requires |inputs| == 4
    requires forall i :: 0 <= i < 4 ==> inputs[i].status == Completed && 1 <= inputs[i].position <= 4 && inputs[i].riderId in teams
    requires forall i, j :: 0 <= i < j < 4 ==> inputs[i].position != inputs[j].position
    ensures SideTotal(inputs, teams, Home) + SideTotal(inputs, teams, Away) == 6
  {
    TeamDeltasSplitKnownPoints(inputs, teams);
    FourPlacesSumToTen(inputs[0].position, inputs[1].position, inputs[2].position, inputs[3].position);
    PointsOfFour(inputs);
  }

  function Positions(lines: seq<HeatResult>): (ps: seq<int>)
    ensures |ps| == |lines| && forall i :: 0 <= i < |lines| ==> ps[i] == lines[i].position
  {
    seq(|lines|, i requires 0 <= i < |lines| => lines[i].position)
  }

  /**
   * The line that earns the bonus point. Only a heat with exactly four lines
   * has one: in position order (ties in submission order), the second
   * placed rider when the first two share a team, else the third placed
   * when the second and third share a team. Riders at no gate have no
   * team, and two of them count as sharing one.
   */
  function BonusTarget(lines: seq<HeatResult>, teams: map<RiderId, Side>): (t: Option<nat>)
    ensures t.Some? ==> |lines| == 4 && t.value < 4
  {
    if |lines| != 4 then None
    else
      var order := SortIdx(Positions(lines));
      var t1 := TeamIn(teams, lines[order[0]].riderId);
      var t2 := TeamIn(teams, lines[order[1]].riderId);
      var t3 := TeamIn(teams, lines[order[2]].riderId);
      if t1 == t2 then Some(order[1])
      else if t2 == t3 then Some(order[2])
      else None
  }

  function WithBonus(lines: seq<HeatResult>, target: Option<nat>): (r: seq<HeatResult>)
    ensures |r| == |lines|
    ensures forall i :: 0 <= i < |lines| ==>
              r[i].riderId == lines[i].riderId && r[i].position == lines[i].position &&
              r[i].points == lines[i].points && r[i].status == lines[i].status &&
              (r[i].bonus == 1 <==> target == Some(i)) && 0 <= r[i].bonus <= 1
  {
    seq(|lines|, i requires 0 <= i < |lines| => lines[i].(bonus := if target == Some(i) then 1 else 0))
  }

  /** Scores one submission against the heat's gate riders. */
  function ScoreHeat(riders: map<Gate, GateEntry>, inputs: seq<ResultInput>): HeatScore
  {
    var teams := RiderTeams(riders);
    var lines := ScoredLines(inputs);
    HeatScore(WithBonus(lines, BonusTarget(lines, teams)),
              SideTotal(inputs, teams, Home), SideTotal(inputs, teams, Away))
  }

  /**
   * Scoring keeps the submitted lines in order with their points; every
   * line gets a bonus of 0 or 1, at most one line gets 1, and none does
   * unless exactly four lines were submitted.
   */
  lemma ScoreHeatLines(riders: map<Gate, GateEntry>, inputs: seq<ResultInput>)
    ensures var r := ScoreHeat(riders, inputs).results;
            |r| == |inputs| &&
            (forall i :: 0 <= i < |r| ==>
               r[i].riderId == inputs[i].riderId && r[i].position == inputs[i].position &&
               r[i].status == inputs[i].status && r[i].points == PointsFor(inputs[i].status, inputs[i].position) &&
               0 <= r[i].bonus <= 1) &&
            (forall i, j :: 0 <= i < |r| && 0 <= j < |r| && r[i].bonus == 1 && r[j].bonus == 1 ==> i == j) &&
            (|inputs| != 4 ==> forall i :: 0 <= i < |r| ==> r[i].bonus == 0)
  {
  }

  /**
   * The bonus rule in position order: with four lines sorted by position,
   * the second gets the bonus exactly when the first two share a team, the
   * third exactly when they do not and the second and third do, and the
   * first and fourth never.
   */
  lemma BonusRule(riders: map<Gate, GateEntry>, inputs: seq<ResultInput>)
    requires |inputs| == 4
    ensures var r := ScoreHeat(riders, inputs).results;
            var order := SortIdx(Positions(ScoredLines(inputs)));
            var teams := RiderTeams(riders);
            var t1 := TeamIn(teams, inputs[order[0]].riderId);
            var t2 := TeamIn(teams, inputs[order[1]].riderId);
            var t3 := TeamIn(teams, inputs[order[2]].riderId);
            (forall a, b :: 0 <= a < b < 4 ==> inputs[order[a]].position <= inputs[order[b]].position) &&
            r[order[0]].bonus == 0 && r[order[3]].bonus == 0 &&
            (r[order[1]].bonus == 1 <==> t1 == t2) &&
            (r[order[2]].bonus == 1 <==> t1 != t2 && t2 == t3)
  {
    var lines := ScoredLines(inputs);
    var order := SortIdx(Positions(lines));
    assert order[0] != order[1] && order[0] != order[2] && order[0] != order[3];
    assert order[1] != order[2] && order[1] != order[3] && order[2] != order[3];
    forall a, b | 0 <= a < b < 4 ensures inputs[order[a]].position <= inputs[order[b]].position {
      assert Positions(lines)[order[a]] <= Positions(lines)[order[b]];
    }
  }

  /**
   * Bonus points never reach the team deltas: the deltas are the same
   * whatever bonus the lines carry, and are the sums of the base points.
   */
  lemma DeltasIgnoreBonus(riders: map<Gate, GateEntry>, inputs: seq<ResultInput>)
    ensures ScoreHeat(riders, inputs).home + ScoreHeat(riders, inputs).away == PointsOfKnown(inputs, RiderTeams(riders))
    ensures var r := ScoreHeat(riders, inputs).results;
            forall i :: 0 <= i < |r| ==> r[i].points == ScoredLines(inputs)[i].points
  {
    TeamDeltasSplitKnownPoints(inputs, RiderTeams(riders));
  }

  /** Sorting four lines already in places 1, 2, 3, 4 leaves them in order. */
  lemma OrderedPlacesSortInPlace(ps: seq<int>)
    requires ps == [1, 2, 3, 4]
    ensures SortIdx(ps) == [0, 1, 2, 3]
  {
    var order := SortIdx(ps);
    assert forall k :: 0 <= k < 4 ==> ps[order[k]] == order[k] + 1;
    assert order[0] < order[1] < order[2] < order[3];
  }

  /** A team's points from four lines, written out. */
  lemma SideTotalOfFour(inputs: seq<ResultInput>, teams: map<RiderId, Side>, side: Side)
    requires |inputs| == 4
    ensures SideTotal(inputs, teams, side) ==
      (if TeamIn(teams, inputs[0].riderId) == Some(side) then PointsFor(inputs[0].status, inputs[0].position) else 0) +
      (if TeamIn(teams, inputs[1].riderId) == Some(side) then PointsFor(inputs[1].status, inputs[1].position) else 0) +
      (if TeamIn(teams, inputs[2].riderId) == Some(side) then PointsFor(inputs[2].status, inputs[2].position) else 0) +
      (if TeamIn(teams, inputs[3].riderId) == Some(side) then PointsFor(inputs[3].status, inputs[3].position) else 0)
  {
    SideTotalStep(inputs, 0, teams);
    SideTotalStep(inputs, 1, teams);
    SideTotalStep(inputs, 2, teams);
    SideTotalStep(inputs, 3, teams);
    assert inputs[..0] == [] && inputs[..4] == inputs;
  }

  /**
   * A 5-1 heat: home riders a and b on gates 1 and 3 finish first and
   * second, away riders c and d on gates 2 and 4 third and fourth. The home
   * team gains five, the away team one, and b, second, takes the bonus point.
   */
  lemma FiveOneHeat(a: RiderId, b: RiderId, c: RiderId, d: RiderId)
    requires a != b && a != c && a != d && b != c && b != d && c != d
    ensures var riders := map[1 := GateEntry(a, "A", Home, Red), 2 := GateEntry(c, "C", Away, Yellow),
                               3 := GateEntry(b, "B", Home, DarkBlue), 4 := GateEntry(d, "D", Away, White)];
            var s := ScoreHeat(riders, [ResultInput(a, 1, Completed), ResultInput(b, 2, Completed),
                                        ResultInput(c, 3, Completed), ResultInput(d, 4, Completed)]);
            s.home == 5 && s.away == 1 && s.results[1].bonus == 1 &&
            s.results[0].bonus == 0 && s.results[2].bonus == 0 && s.results[3].bonus == 0
  {
    var riders := map[1 := GateEntry(a, "A", Home, Red), 2 := GateEntry(c, "C", Away, Yellow),
                      3 := GateEntry(b, "B", Home, DarkBlue), 4 := GateEntry(d, "D", Away, White)];
    var inputs := [ResultInput(a, 1, Completed), ResultInput(b, 2, Completed),
                   ResultInput(c, 3, Completed), ResultInput(d, 4, Completed)];
    var teams := RiderTeams(riders);
    LastGateWins(riders, 1, 4);
    LastGateWins(riders, 2, 4);
    LastGateWins(riders, 3, 4);
    LastGateWins(riders, 4, 4);
    assert TeamIn(teams, a) == Some(Home) && TeamIn(teams, b) == Some(Home);
    assert TeamIn(teams, c) == Some(Away) && TeamIn(teams, d) == Some(Away);
    SideTotalOfFour(inputs, teams, Home);
    SideTotalOfFour(inputs, teams, Away);
    var lines := ScoredLines(inputs);
    assert Positions(lines) == [1, 2, 3, 4];
    OrderedPlacesSortInPlace(Positions(lines));
    BonusRule(riders, inputs);
  }

  /**
   * Scores a submission line by line, as the handler does: each line's
   * points and the running team deltas, then the bonus on the sorted lines.
   */
  method ScoreSubmission(riders: map<Gate, GateEntry>, inputs: seq<ResultInput>) returns (score: HeatScore)
    ensures score == ScoreHeat(riders, inputs)
  {
    var teams := RiderTeams(riders);
    var lines: seq<HeatResult> := [];
    var home := 0;
    var away := 0;
    var i := 0;
    while i < |inputs|
      invariant 0 <= i <= |inputs| && |lines| == i
      invariant forall k :: 0 <= k < i ==> lines[k] == ScoredLine(inputs[k])
      invariant home == SideTotal(inputs[..i], teams, Home) && away == SideTotal(inputs[..i], teams, Away)
    {
      var input := inputs[i];
      var pts := PointsFor(input.status, input.position);
      lines := lines + [HeatResult(input.riderId, input.position, pts, 0, input.status)];
      var team := TeamIn(teams, input.riderId);
      SideTotalStep(inputs, i, teams);
      if team == Some(Home) {
        home := home + pts;
      } else if team == Some(Away) {
        away := away + pts;
      }
      i := i + 1;
    }
    assert inputs[..i] == inputs;
    assert lines == ScoredLines(inputs);
    score := HeatScore(WithBonus(lines, BonusTarget(lines, teams)), home, away);
  }
}
