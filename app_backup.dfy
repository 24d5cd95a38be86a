/**
 * The rules of the earlier single-page front end: the 8-point gate
 * choice and the lane swap it allows, the tactical-reserve test, the ride
 * count and the checks before a rider change, the position toggle and the
 * confirmation test.
 */
module AppBackup {
  import opened Domain
  import opened Fixture
  import opened BackendMatch
  import opened UseHeats
  import opened MatchProtocol
  import opened HeatDialog

  /** The pair of gates a trailing side picks: 1 and 3, or 2 and 4. */
  datatype LanePair = Pair13 | Pair24

  function ChosenGates(pair: LanePair): (Gate, Gate)
  {
    if pair == Pair13 then (1, 3) else (2, 4)
  }

  function OtherGates(pair: LanePair): (Gate, Gate)
  {
    if pair == Pair13 then (2, 4) else (1, 3)
  }

  /** The gates up to n whose rider is on `side`, in increasing order. */
  function GatesOf(riders: map<Gate, GateEntry>, side: Side, n: int): (s: seq<Gate>)
    requires 0 <= n <= 4
    ensures forall k :: 0 <= k < |s| ==> s[k] in riders
    decreases n
  {
    if n == 0 then []
    else GatesOf(riders, side, n - 1) + (if n as Gate in riders && riders[n as Gate].team == side then [n as Gate] else [])
  }

  /** The gates of s hold riders of `side`, lie in 1..n and rise strictly. */
  predicate GatesListed(riders: map<Gate, GateEntry>, side: Side, n: int, s: seq<Gate>)
  {
    (forall k :: 0 <= k < |s| ==> s[k] in riders && riders[s[k]].team == side && 1 <= s[k] <= n) &&
    (forall j, k :: 0 <= j < k < |s| ==> s[j] < s[k])
  }

  /** The listed gates are the side's gates up to n, in increasing order. */
  lemma {:induction false} GatesOfSorted(riders: map<Gate, GateEntry>, side: Side, n: int)
    requires 0 <= n <= 4
    ensures GatesListed(riders, side, n, GatesOf(riders, side, n))
    decreases n
  {
    if n > 0 {
      GatesOfSorted(riders, side, n - 1);
      var prev := GatesOf(riders, side, n - 1);
      var s := GatesOf(riders, side, n);
      if n as Gate in riders && riders[n as Gate].team == side {
        assert s == prev + [n as Gate];
        forall j, k | 0 <= j < k < |s|
          ensures s[j] < s[k]
        {
          assert s[j] == prev[j] && prev[j] <= n - 1;
          if k < |prev| {
            assert s[k] == prev[k];
          }
        }
      } else {
        assert s == prev;
      }
    }
  }

  /** Every gate of the side up to n is listed. */
  lemma {:induction false} GatesOfComplete(riders: map<Gate, GateEntry>, side: Side, n: int)
    requires 0 <= n <= 4
    ensures forall g: Gate :: g <= n && g in riders && riders[g].team == side ==> g in GatesOf(riders, side, n)
    decreases n
  {
    if n > 0 {
      GatesOfComplete(riders, side, n - 1);
    }
  }

  /** A rider moved to gate g for `side`: same rider, the side and the helmet of the new gate. */
  function Moved(e: GateEntry, side: Side, g: Gate): GateEntry
  {
    e.(helmet := FrontHelmet(side, GateKey(g)), team := side)
  }

  /**
   * The lane choice for a heat: with two riders of each side, `team`'s
   * riders take the chosen pair and the others the remaining pair, each
   * side keeping its gate order. Any other line-up is left alone.
   */
  function ApplyLaneChoice(riders: map<Gate, GateEntry>, team: Side, pair: LanePair): Option<map<Gate, GateEntry>>
  {
    var mine := GatesOf(riders, team, 4);
    var theirs := GatesOf(riders, Opponent(team), 4);
    if |mine| != 2 || |theirs| != 2 then None
    else
      var c := ChosenGates(pair);
      var o := OtherGates(pair);
      var other := Opponent(team);
      Some(riders[c.0 := Moved(riders[mine[0]], team, c.0)][c.1 := Moved(riders[mine[1]], team, c.1)]
                 [o.0 := Moved(riders[theirs[0]], other, o.0)][o.1 := Moved(riders[theirs[1]], other, o.1)])
  }

  /** Same rider and name. */
  predicate SameRider(a: GateEntry, b: GateEntry)
  {
    a.riderId == b.riderId && a.name == b.name
  }

  /** The lane choice applies exactly to a two-against-two heat. */
  lemma LaneChoiceApplies(riders: map<Gate, GateEntry>, team: Side, pair: LanePair)
    ensures ApplyLaneChoice(riders, team, pair).Some? <==>
              |GatesOf(riders, team, 4)| == 2 && |GatesOf(riders, Opponent(team), 4)| == 2
  {
  }

  /** The four updated gates of a lane choice are all the gates. */
  lemma LaneGatesCoverAll(pair: LanePair, g: Gate)
    ensures var c := ChosenGates(pair);
            var o := OtherGates(pair);
            (g == c.0 || g == c.1 || g == o.0 || g == o.1) && c.0 < c.1 && o.0 < o.1 &&
            c.0 != o.0 && c.0 != o.1 && c.1 != o.0 && c.1 != o.1
  {
  }

  /**
   * After a lane choice every gate is ridden and every helmet is the
   * front end's colour for its new gate and side.
   */
  lemma LaneChoiceHelmets(riders: map<Gate, GateEntry>, team: Side, pair: LanePair)
    requires ApplyLaneChoice(riders, team, pair).Some?
    ensures var m := ApplyLaneChoice(riders, team, pair).value;
            forall g: Gate :: g in m && m[g].helmet == FrontHelmet(m[g].team, GateKey(g))
  {
    var m := ApplyLaneChoice(riders, team, pair).value;
    forall g: Gate
      ensures g in m && m[g].helmet == FrontHelmet(m[g].team, GateKey(g))
    {
      LaneGatesCoverAll(pair, g);
    }
  }

  /**
   * `team` rides the chosen pair with its two riders in their old order,
   * and the other side the remaining pair likewise.
   */
  lemma LaneChoiceMeaning(riders: map<Gate, GateEntry>, team: Side, pair: LanePair)
    requires ApplyLaneChoice(riders, team, pair).Some?
    ensures var m := ApplyLaneChoice(riders, team, pair).value;
            var c := ChosenGates(pair);
            m[c.0].team == team && m[c.1].team == team &&
            (exists a: Gate, b: Gate :: a < b && a in riders && b in riders && riders[a].team == team && riders[b].team == team &&
               SameRider(m[c.0], riders[a]) && SameRider(m[c.1], riders[b]))
    ensures var m := ApplyLaneChoice(riders, team, pair).value;
            var o := OtherGates(pair);
            m[o.0].team == Opponent(team) && m[o.1].team == Opponent(team) &&
            (exists a: Gate, b: Gate :: a < b && a in riders && b in riders &&
               riders[a].team == Opponent(team) && riders[b].team == Opponent(team) &&
               SameRider(m[o.0], riders[a]) && SameRider(m[o.1], riders[b]))
  {
    var mine := GatesOf(riders, team, 4);
    var theirs := GatesOf(riders, Opponent(team), 4);
    GatesOfSorted(riders, team, 4);
    GatesOfSorted(riders, Opponent(team), 4);
    LaneChoiceEntries(riders, team, pair);
    assert mine[0] < mine[1] && theirs[0] < theirs[1];
  }

  /** Where each of the four riders of a lane choice ends up. */
  lemma LaneChoiceEntries(riders: map<Gate, GateEntry>, team: Side, pair: LanePair)
    requires ApplyLaneChoice(riders, team, pair).Some?
    ensures var m := ApplyLaneChoice(riders, team, pair).value;
            var mine := GatesOf(riders, team, 4);
            var theirs := GatesOf(riders, Opponent(team), 4);
            var c := ChosenGates(pair);
            var o := OtherGates(pair);
            m[c.0] == Moved(riders[mine[0]], team, c.0) && m[c.1] == Moved(riders[mine[1]], team, c.1) &&
            m[o.0] == Moved(riders[theirs[0]], Opponent(team), o.0) && m[o.1] == Moved(riders[theirs[1]], Opponent(team), o.1)
  {
    LaneGatesCoverAll(pair, 1);
  }

  /**
   * The backend expects home riders on gates 1 and 3: a lane choice keeps
   * that only when home takes 1 and 3 (or away takes 2 and 4), and
   * otherwise puts every rider on a gate of the other side.
   */
  lemma LaneChoiceSides(riders: map<Gate, GateEntry>, team: Side, pair: LanePair)
    requires ApplyLaneChoice(riders, team, pair).Some?
    ensures var m := ApplyLaneChoice(riders, team, pair).value;
            (team == Home) == (pair == Pair13) ==> forall g: Gate :: m[g].team == GateSide(g)
    ensures var m := ApplyLaneChoice(riders, team, pair).value;
            (team == Home) != (pair == Pair13) ==> forall g: Gate :: m[g].team != GateSide(g)
  {
    var m := ApplyLaneChoice(riders, team, pair).value;
    LaneChoiceMeaning(riders, team, pair);
    forall g: Gate
      ensures (team == Home) == (pair == Pair13) ==> m[g].team == GateSide(g)
      ensures (team == Home) != (pair == Pair13) ==> m[g].team != GateSide(g)
    {
      LaneGatesCoverAll(pair, g);
    }
  }

  /** The lane choice on a match: every heat with the number gets the first such heat's new line-up. */
  function ApplyLaneChoiceToHeat(heats: seq<Heat>, n: int, team: Side, pair: LanePair): (r: Option<seq<Heat>>)
    ensures r.Some? ==> |r.value| == |heats| &&
                        forall k :: 0 <= k < |heats| ==>
                          r.value[k].number == heats[k].number && r.value[k].results == heats[k].results &&
                          (heats[k].number != n ==> r.value[k] == heats[k])
    ensures r.None? <==> FirstHeatIndex(heats, n).None? ||
                         ApplyLaneChoice(heats[FirstHeatIndex(heats, n).value].riders, team, pair).None?
    ensures r.Some? ==> forall k :: 0 <= k < |heats| && heats[k].number == n ==>
              r.value[k] == heats[k].(riders := ApplyLaneChoice(heats[FirstHeatIndex(heats, n).value].riders, team, pair).value)
  {
    var i := FirstHeatIndex(heats, n);
    if i.None? then None
    else
      var m := ApplyLaneChoice(heats[i.value].riders, team, pair);
      if m.None? then None
      else Some(seq(|heats|, k requires 0 <= k < |heats| => if heats[k].number == n then heats[k].(riders := m.value) else heats[k]))
  }

  /**
   * After a lane choice on a match, every heat with the number has all four
   * gates ridden in the front end's colours, the choosing side on the chosen
   * pair and the other side on the remaining pair.
   */
  lemma LaneChoiceOnMatch(heats: seq<Heat>, n: int, team: Side, pair: LanePair)
    requires ApplyLaneChoiceToHeat(heats, n, team, pair).Some?
    ensures var r := ApplyLaneChoiceToHeat(heats, n, team, pair).value;
            var c := ChosenGates(pair);
            var o := OtherGates(pair);
            forall k :: 0 <= k < |r| && r[k].number == n ==>
              (forall g: Gate :: g in r[k].riders && r[k].riders[g].helmet == FrontHelmet(r[k].riders[g].team, GateKey(g))) &&
              r[k].riders[c.0].team == team && r[k].riders[c.1].team == team &&
              r[k].riders[o.0].team == Opponent(team) && r[k].riders[o.1].team == Opponent(team)
  {
    var riders := heats[FirstHeatIndex(heats, n).value].riders;
    LaneChoiceHelmets(riders, team, pair);
    LaneChoiceMeaning(riders, team, pair);
  }

  /** The trailing side may choose its gates when it is at least eight points behind. */
  predicate EightPointRule(homeScore: int, awayScore: int, team: Side)
  {
    var diff := if homeScore >= awayScore then homeScore - awayScore else awayScore - homeScore;
    var losing := if team == Home then homeScore < awayScore else awayScore < homeScore;
    diff >= 8 && losing
  }

  /** The earlier tactical test: not yet used, and at least six points behind on the stored scores. */
  predicate CanUseTacticalBackup(used: bool, homeScore: int, awayScore: int, team: Side)
  {
    var diff := if homeScore >= awayScore then homeScore - awayScore else awayScore - homeScore;
    var losing := if team == Home then homeScore < awayScore else awayScore < homeScore;
    !used && diff >= 6 && losing
  }

  /** The rider list for a gate: heats 5..13, the tactical test, and no other gate picked in the heat. */
  predicate AllowTactical(heatNumber: int, used: bool, homeScore: int, awayScore: int, team: Side, gate: Gate,
                          picked: Option<TacticalPick>)
  {
    heatNumber >= 5 && heatNumber <= 13 && CanUseTacticalBackup(used, homeScore, awayScore, team) &&
    (picked.None? || (picked.value.team == team && picked.value.gate == gate))
  }

  /**
   * Both scoring rules ask for a strict deficit of a fixed size; the
   * gate choice at eight implies the tactical reserve at six. Unused and
   * unpicked, with the stored scores equal to the recomputed totals, the
   * earlier rule is the page's rule under the default settings.
   */
  lemma BackupRulesMeaning(used: bool, homeScore: int, awayScore: int, team: Side)
    ensures var own := if team == Home then homeScore else awayScore;
            var other := if team == Home then awayScore else homeScore;
            (EightPointRule(homeScore, awayScore, team) <==> own + 8 <= other) &&
            (CanUseTacticalBackup(used, homeScore, awayScore, team) <==> !used && own + 6 <= other)
    ensures EightPointRule(homeScore, awayScore, team) && !used ==> CanUseTacticalBackup(used, homeScore, awayScore, team)
  {
  }

  lemma AllowTacticalIsPageRule(n: int, heats: seq<Heat>, team: Side, gate: Gate)
    ensures AllowTactical(n, false, FrontTotal(heats, Home), FrontTotal(heats, Away), team, gate, None) ==
            CanUseTactical(true, Some(n), TacticalRulesOf(None), heats, team)
  {
  }

  /** A heat has the rider at some gate. */
  predicate HeatHasRider(h: Heat, id: RiderId)
  {
    exists g: Gate :: g in h.riders && h.riders[g].riderId == id
  }

  /** The number of heats the rider is in, at any gate and in any state. */
  function RidesCount(heats: seq<Heat>, id: RiderId): (c: nat)
    ensures c <= |heats|
    decreases |heats|
  {
    if heats == [] then 0
    else RidesCount(heats[..|heats| - 1], id) + (if HeatHasRider(heats[|heats| - 1], id) then 1 else 0)
  }

  /** getRidesCount: one per heat where some gate holds the rider. */
  method GetRidesCount(heats: seq<Heat>, id: RiderId) returns (cnt: nat)
    ensures cnt == RidesCount(heats, id)
  {
    cnt := 0;
    var k := 0;
    while k < |heats|
      invariant 0 <= k <= |heats|
      invariant cnt == RidesCount(heats[..k], id)
    {
      assert heats[..k + 1][..k] == heats[..k];
      var h := heats[k];
      var found := false;
      var g := 1;
      while g <= 4 && !found
        invariant 1 <= g <= 5
        invariant found <==> exists x: Gate :: x < g && x in h.riders && h.riders[x].riderId == id
      {
        if g as Gate in h.riders && h.riders[g as Gate].riderId == id {
          found := true;
        }
        g := g + 1;
      }
      assert found <==> HeatHasRider(h, id);
      if found {
        cnt := cnt + 1;
      }
      k := k + 1;
    }
    assert heats[..|heats|] == heats;
  }

  /** Changing one heat changes the ride count by at most one. */
  lemma {:induction false} RidesCountOneHeat(a: seq<Heat>, b: seq<Heat>, i: int, id: RiderId)
    requires |a| == |b| && 0 <= i < |a|
    requires forall k :: 0 <= k < |a| && k != i ==> a[k] == b[k]
    ensures RidesCount(b, id) <= RidesCount(a, id) + 1
    decreases |a|
  {
    var n := |a| - 1;
    if n == i {
      assert a[..n] == b[..n];
    } else {
      RidesCountOneHeat(a[..n], b[..n], i, id);
    }
  }

  /** The reserve slot is locked when the heat lists the gate and the old rider has the reserve role. */
  predicate IsLockedReserveSlot(lockedGates: set<Gate>, g: Gate, oldReserveRole: bool)
  {
    g in lockedGates && oldReserveRole
  }

  /** A roster rider of the earlier front end: role and shirt number. */
  datatype BackupRider = BackupRider(id: RiderId, name: string, reserveRole: bool, number: Option<int>)

  function BackupId(r: BackupRider): RiderId
  {
    r.id
  }

  /** A team's roster, `ridersByTeam[team] || []`. */
  function TeamRoster(ridersByTeam: map<Side, seq<BackupRider>>, team: Side): seq<BackupRider>
  {
    if team in ridersByTeam then ridersByTeam[team] else []
  }

  /** Five heats for a reserve (by role or shirt 6 or 7), six for anyone else, an unknown rider included. */
  function RideLimitFor(r: Option<BackupRider>): (limit: int)
    ensures limit == 5 || limit == 6
    ensures limit == 5 <==> r.Some? && (r.value.reserveRole || r.value.number == Some(6) || r.value.number == Some(7))
  {
    if r.Some? && (r.value.reserveRole || r.value.number == Some(6) || r.value.number == Some(7)) then 5 else 6
  }

  /** The tactical pick already made in a heat. */
  datatype TacticalPick = TacticalPick(team: Side, gate: Gate)

  datatype ChangeBlock = NoHeat | NoGate | LockedSlot | RideLimit(limit: int) | HeatAlreadyPicked

  datatype ChangeDecision = Blocked(reason: ChangeBlock) | Proceed(gate: Gate, newId: RiderId, newName: string)

  /**
   * handleChangeRider's checks, in order: the heat, the gate and its
   * side, the locked reserve slot, the new rider's ride limit, and one
   * tactical pick per heat (the same gate may change it again).
   */
  function ChangeRider(heats: seq<Heat>, n: int, gate: Option<Gate>, newId: RiderId,
                       ridersByTeam: map<Side, seq<BackupRider>>, lockedGates: set<Gate>, oldReserveRole: bool,
                       picked: Option<TacticalPick>): ChangeDecision
  {
    var i := FirstHeatIndex(heats, n);
    if i.None? then Blocked(NoHeat)
    else if gate.None? || gate.value !in heats[i.value].riders then Blocked(NoGate)
    else
      var g := gate.value;
      var current := heats[i.value].riders[g];
      if IsLockedReserveSlot(lockedGates, g, oldReserveRole) then Blocked(LockedSlot)
      else
        var found := FindFirst(TeamRoster(ridersByTeam, current.team), BackupId, newId);
        var limit := RideLimitFor(found);
        if RidesCount(heats, newId) >= limit then Blocked(RideLimit(limit))
        else if picked.Some? && !(picked.value.team == current.team && picked.value.gate == g) then Blocked(HeatAlreadyPicked)
        else Proceed(g, newId, if found.Some? then found.value.name else current.name)
  }

  /** The change shown after the backend accepts it: the rider and name at the gate, and the heat marked tactical. */
  function ApplyChange(heats: seq<Heat>, n: int, g: Gate, newId: RiderId, newName: string): (r: seq<Heat>)
    ensures |r| == |heats|
    ensures forall k :: 0 <= k < |heats| && heats[k].number != n ==> r[k] == heats[k]
    ensures forall k :: 0 <= k < |heats| && heats[k].number == n && g in heats[k].riders ==>
              r[k].isTactical && r[k].results == heats[k].results && r[k].riders.Keys == heats[k].riders.Keys &&
              r[k].number == heats[k].number && r[k].status == heats[k].status &&
              r[k].riders[g].riderId == newId && r[k].riders[g].name == newName &&
              r[k].riders[g].team == heats[k].riders[g].team && r[k].riders[g].helmet == heats[k].riders[g].helmet &&
              forall h :: h in heats[k].riders && h != g ==> r[k].riders[h] == heats[k].riders[h]
  {
    seq(|heats|, k requires 0 <= k < |heats| =>
      if heats[k].number == n && g in heats[k].riders
      then heats[k].(riders := heats[k].riders[g := heats[k].riders[g].(riderId := newId, name := newName)], isTactical := true)
      else heats[k])
  }

  /**
   * A change goes ahead only on an existing gate that is not a locked
   * reserve slot, for a rider still below the limit, and when the heat has
   * no pick or this very gate's. The limit is the new rider's own: five
   * for a reserve of the gate's team, six otherwise. On a match of fifteen
   * heats numbered in order, the changed match keeps the rider within
   * that limit.
   */
  lemma ChangeRiderKeepsLimit(heats: seq<Heat>, n: int, gate: Option<Gate>, newId: RiderId,
                              ridersByTeam: map<Side, seq<BackupRider>>, lockedGates: set<Gate>, oldReserveRole: bool,
                              picked: Option<TacticalPick>)
    requires ChangeRider(heats, n, gate, newId, ridersByTeam, lockedGates, oldReserveRole, picked).Proceed?
    ensures var d := ChangeRider(heats, n, gate, newId, ridersByTeam, lockedGates, oldReserveRole, picked);
            var i := FirstHeatIndex(heats, n);
            i.Some? && gate == Some(d.gate) && d.gate in heats[i.value].riders &&
            !IsLockedReserveSlot(lockedGates, d.gate, oldReserveRole) &&
            RidesCount(heats, newId) <
              RideLimitFor(FindFirst(TeamRoster(ridersByTeam, heats[i.value].riders[d.gate].team), BackupId, newId)) &&
            (picked.None? || picked.value == TacticalPick(heats[i.value].riders[d.gate].team, d.gate))
    ensures var d := ChangeRider(heats, n, gate, newId, ridersByTeam, lockedGates, oldReserveRole, picked);
            var i := FirstHeatIndex(heats, n);
            (|heats| == 15 && forall k :: 0 <= k < 15 ==> heats[k].number == k + 1) ==>
              i.Some? && d.gate in heats[i.value].riders &&
              RidesCount(ApplyChange(heats, n, d.gate, d.newId, d.newName), newId) <=
                RideLimitFor(FindFirst(TeamRoster(ridersByTeam, heats[i.value].riders[d.gate].team), BackupId, newId))
  {
    var d := ChangeRider(heats, n, gate, newId, ridersByTeam, lockedGates, oldReserveRole, picked);
    if |heats| == 15 && forall k :: 0 <= k < 15 ==> heats[k].number == k + 1 {
      var i := FirstHeatIndex(heats, n).value;
      RidesCountOneHeat(heats, ApplyChange(heats, n, d.gate, d.newId, d.newName), i, newId);
    }
  }

  /** The text `String` gives a form position: "", the decimal digits, or "undefined". */
  function PosText(p: FormPos): string
  {
    match p
    case Blank => ""
    case Unset => "undefined"
    case Pos(n) => if n >= 0 then Digits(n) else "-" + Digits(-n)
  }

  lemma DigitsInjective(a: nat, b: nat)
    requires Digits(a) == Digits(b)
    ensures a == b
  {
    DigitsRoundTrip(a);
    DigitsRoundTrip(b);
  }

  /** A printed number starts with a minus sign exactly when it is negative, and otherwise with a digit. */
  lemma PosTextFirst(p: FormPos)
    ensures p.Pos? ==> |PosText(p)| >= 1 && (PosText(p)[0] == '-' <==> p.n < 0) && (p.n >= 0 ==> '0' <= PosText(p)[0] <= '9')
  {
  }

  /** Different positions print differently, so comparing texts compares positions. */
  lemma PosTextInjective(a: FormPos, b: FormPos)
    ensures PosText(a) == PosText(b) <==> a == b
  {
    PosTextFirst(a);
    PosTextFirst(b);
    if PosText(a) == PosText(b) && a.Pos? && b.Pos? {
      if a.n < 0 && b.n < 0 {
        assert Digits(-a.n) == PosText(a)[1..];
        assert Digits(-b.n) == PosText(b)[1..];
        DigitsInjective(-a.n, -b.n);
      } else if a.n >= 0 && b.n >= 0 {
        DigitsInjective(a.n, b.n);
      }
    }
  }

  /** `{ ...form[r], position }`: a rider without an entry gets one with no status. */
  function WithPosition(form: Form, r: RiderId, pos: FormPos): FormEntry
  {
    if r in form then form[r].(position := pos) else FormEntry(pos, None)
  }

  /**
   * togglePosition, which compares positions as text: it does exactly
   * what exclusive picking does.
   */
  method TogglePosition(form: Form, r: RiderId, p: int) returns (next: Form)
    ensures next == ExclusiveSpec(form, r, p)
  {
    PosTextInjective(PositionIn(form, r), Pos(p));
    if PosText(PositionIn(form, r)) == PosText(Pos(p)) {
      return form[r := WithPosition(form, r, Blank)];
    }
    next := form;
    var todo := form.Keys;
    while todo != {}
      invariant todo <= form.Keys && next.Keys == form.Keys
      invariant forall id :: id in form && id !in todo ==> next[id] == ClearedEntry(form, r, p, id)
      invariant forall id :: id in todo ==> next[id] == form[id]
      decreases todo
    {
      var id :| id in todo;
      PosTextInjective(next[id].position, Pos(p));
      if id != r && PosText(next[id].position) == PosText(Pos(p)) {
        next := next[id := next[id].(position := Blank)];
      }
      todo := todo - {id};
    }
    assert next == map id | id in form :: ClearedEntry(form, r, p, id);
    next := next[r := WithPosition(form, r, Pos(p))];
  }

  /** The earlier confirmation test: exactly fifteen completed heats. */
  predicate CanConfirmMatch(heats: seq<Heat>)
  {
    CountCompletedHeats(heats) == 15
  }

  /**
   * On a match of fifteen heats the earlier test agrees with the
   * backend's; a sixteenth completed heat would make the backend confirm
   * what the earlier test refuses.
   */
  lemma CanConfirmMatchAgrees(heats: seq<Heat>, homeScore: int, awayScore: int, official: Option<OfficialDoc>)
    ensures |heats| == 15 ==>
              (CanConfirmMatch(heats) <==> ConfirmDecision(Scoreboard(heats, homeScore, awayScore), official).Ok?)
    ensures CanConfirmMatch(heats) ==> ConfirmDecision(Scoreboard(heats, homeScore, awayScore), official).Ok?
  {
    ConfirmMeaning(Scoreboard(heats, homeScore, awayScore), official);
  }
}
