/**
 * Match creation on the backend: the 15 heats a new match starts with.
 * With six main riders per team the heats follow a fixed index program;
 * with fewer, every gate gets a named placeholder rider instead. The home
 * team always starts from gates 1 and 3, the away team from gates 2 and 4,
 * and each team's first helmet colour goes to its lower gate.
 */
module Fixture {
  import opened Domain
  import opened EliteSchedule

  /** The helmet colours of a team: red and blue at home, yellow and white away. */
  function TeamColors(side: Side): (c: seq<Helmet>)
    ensures |c| == 2 && c[0] != c[1]
  {
    if side == Home then [Red, DarkBlue] else [Yellow, White]
  }

  /** The four colours of the two teams are pairwise different. */
  lemma TeamColoursDisjoint()
    ensures forall s: Side, t: Side, i, j :: 0 <= i < 2 && 0 <= j < 2 && TeamColors(s)[i] == TeamColors(t)[j] ==> s == t && i == j
  {
  }

  /** The team that starts from a gate in backend-built heats. */
  function GateSide(g: Gate): Side
  {
    if g == 1 || g == 3 then Home else Away
  }

  /** Which of the team's two colours a gate gets: the first on gates 1 and 2. */
  function ColourIndex(g: Gate): (i: nat)
    ensures i < 2
  {
    if g == 1 || g == 2 then 0 else 1
  }

  function BackendHelmet(side: Side, g: Gate): Helmet
  {
    TeamColors(side)[ColourIndex(g)]
  }

  /** Each team's two gates get its two different colours, and no gate shares a colour with another. */
  lemma BackendHelmetsDistinct(g: Gate, h: Gate)
    requires g != h
    ensures BackendHelmet(GateSide(g), g) != BackendHelmet(GateSide(h), h)
    ensures BackendHelmet(Home, 1) == Red && BackendHelmet(Home, 3) == DarkBlue
    ensures BackendHelmet(Away, 2) == Yellow && BackendHelmet(Away, 4) == White
  {
    TeamColoursDisjoint();
  }

  /** One row of the backend's heat program: the heat number and the roster index for gates 1..4. */
  datatype ProgramRow = ProgramRow(heat: int, gates: seq<nat>)

  const HeatProgram: seq<ProgramRow> := [
    ProgramRow(1, [0, 0, 1, 1]),
    ProgramRow(2, [1, 2, 0, 2]),
    ProgramRow(3, [2, 1, 3, 0]),
    ProgramRow(4, [3, 3, 2, 4]),
    ProgramRow(5, [4, 0, 5, 3]),
    ProgramRow(6, [5, 5, 4, 1]),
    ProgramRow(7, [0, 4, 1, 5]),
    ProgramRow(8, [1, 3, 2, 0]),
    ProgramRow(9, [2, 2, 3, 3]),
    ProgramRow(10, [3, 1, 4, 2]),
    ProgramRow(11, [4, 5, 5, 4]),
    ProgramRow(12, [5, 0, 0, 1]),
    ProgramRow(13, [0, 2, 1, 3]),
    ProgramRow(14, [1, 4, 2, 5]),
    ProgramRow(15, [2, 1, 3, 0])
  ]

  /** A program is 15 rows for heats 1..15, each with a roster index below six for every gate. */
  predicate ProgramWellFormed(program: seq<ProgramRow>)
  {
    |program| == 15 &&
    forall k :: 0 <= k < 15 ==>
      program[k].heat == k + 1 && |program[k].gates| == 4 &&
      forall j :: 0 <= j < 4 ==> program[k].gates[j] < 6
  }

  lemma HeatProgramWellFormed()
    ensures ProgramWellFormed(HeatProgram)
  {
  }

  /** At most six main riders are read from a team's roster, in stored order. */
  function UpToSix(mains: seq<RiderDoc>): (r: seq<RiderDoc>)
    ensures |r| <= 6 && |r| <= |mains| && r == mains[..|r|]
    ensures |r| == 6 <==> |mains| >= 6
    ensures |mains| <= 6 ==> r == mains
  {
    if |mains| > 6 then mains[..6] else mains
  }

  /** The rider generated for gate g from a program row, if the row's index is inside the roster. */
  function ProgramEntry(row: ProgramRow, g: Gate, home: seq<RiderDoc>, away: seq<RiderDoc>): Option<GateEntry>
    requires |row.gates| == 4
  {
    var side := GateSide(g);
    var roster := if side == Home then home else away;
    var idx := row.gates[g - 1];
    if idx < |roster| then Some(GateEntry(roster[idx].id, roster[idx].name, side, BackendHelmet(side, g)))
    else None
  }

  /** The generated riders of gates below `upTo`. */
  function ProgramRidersBelow(row: ProgramRow, home: seq<RiderDoc>, away: seq<RiderDoc>, upTo: int): map<Gate, GateEntry>
    requires |row.gates| == 4
  {
    map g: Gate | 1 <= g < upTo && g <= 4 && ProgramEntry(row, g, home, away).Some? :: ProgramEntry(row, g, home, away).value
  }

  function ProgramHeat(row: ProgramRow, home: seq<RiderDoc>, away: seq<RiderDoc>): Heat
    requires |row.gates| == 4
  {
    Heat(row.heat, ProgramRidersBelow(row, home, away, 5), [], Upcoming, row.heat == 15)
  }

  function ProgramFixture(program: seq<ProgramRow>, home: seq<RiderDoc>, away: seq<RiderDoc>): seq<Heat>
    requires forall k :: 0 <= k < |program| ==> |program[k].gates| == 4
  {
    seq(|program|, k requires 0 <= k < |program| => ProgramHeat(program[k], home, away))
  }

  /** The decimal digits of n. */
  function Digits(n: nat): (s: string)
    ensures |s| >= 1 && forall k :: 0 <= k < |s| ==> '0' <= s[k] <= '9'
    decreases n
  {
    if n < 10 then [('0' as int + n) as char] else Digits(n / 10) + [('0' as int + n % 10) as char]
  }

  /** Reads a string of decimal digits. */
  function DigitsValue(s: string): nat
    requires forall k :: 0 <= k < |s| ==> '0' <= s[k] <= '9'
    decreases |s|
  {
    if s == [] then 0 else 10 * DigitsValue(s[..|s| - 1]) + (s[|s| - 1] as int - '0' as int)
  }

  /** Writing a number in decimal and reading it back gives the number. */
  lemma {:induction false} DigitsRoundTrip(n: nat)
    ensures DigitsValue(Digits(n)) == n
    decreases n
  {
    if n >= 10 {
      var s := Digits(n);
      assert s[..|s| - 1] == Digits(n / 10);
      DigitsRoundTrip(n / 10);
    }
  }

  function SideWord(side: Side): string
  {
    if side == Home then "home" else "away"
  }

  /** The placeholder rider of gate g in heat i: ids "home_7_1", names "<team> Förare 7A". */
  function PlaceholderEntry(i: nat, g: Gate, homeName: string, awayName: string): GateEntry
  {
    var side := GateSide(g);
    var slot := ColourIndex(g);
    GateEntry(SideWord(side) + "_" + Digits(i) + "_" + Digits(slot + 1),
              (if side == Home then homeName else awayName) + " Förare " + Digits(i) + (if slot == 0 then "A" else "B"),
              side, BackendHelmet(side, g))
  }

  /** The placeholder riders of gates below `upTo`. */
  function PlaceholdersBelow(i: nat, homeName: string, awayName: string, upTo: int): map<Gate, GateEntry>
  {
    map g: Gate | 1 <= g < upTo && g <= 4 :: PlaceholderEntry(i, g, homeName, awayName)
  }

  function DefaultHeat(i: nat, homeName: string, awayName: string): Heat
  {
    Heat(i, PlaceholdersBelow(i, homeName, awayName, 5), [], Upcoming, i == 15)
  }

  /** The placeholder heats, or a 404 when either team is missing. */
  function DefaultHeats(homeName: Option<string>, awayName: Option<string>): Result<seq<Heat>>
  {
    if homeName.None? || awayName.None? then Err(TeamNotFound)
    else Ok(seq(15, k requires 0 <= k < 15 => DefaultHeat(k + 1, homeName.value, awayName.value)))
  }

  /**
   * The heats of a new match from the teams' stored main riders (in stored
   * order) and the team names (None when a team document is missing).
   */
  function MatchHeats(homeMains: seq<RiderDoc>, awayMains: seq<RiderDoc>,
                      homeName: Option<string>, awayName: Option<string>): Result<seq<Heat>>
  {
    var home := UpToSix(homeMains);
    var away := UpToSix(awayMains);
    if |home| < 6 || |away| < 6 then DefaultHeats(homeName, awayName)
    else (HeatProgramWellFormed(); Ok(ProgramFixture(HeatProgram, home, away)))
  }

  method GenerateDefaultHeats(homeName: Option<string>, awayName: Option<string>) returns (r: Result<seq<Heat>>)
    ensures r == DefaultHeats(homeName, awayName)
  {
    if homeName.None? || awayName.None? {
      return Err(TeamNotFound);
    }
    var heats: seq<Heat> := [];
    var i := 1;
    while i < 16
      invariant 1 <= i <= 16 && |heats| == i - 1
      invariant forall k :: 0 <= k < i - 1 ==> heats[k] == DefaultHeat(k + 1, homeName.value, awayName.value)
    {
      var riders: map<Gate, GateEntry> := map[];
      var g := 1;
      while g <= 4
        invariant 1 <= g <= 5
        invariant riders == PlaceholdersBelow(i, homeName.value, awayName.value, g)
      {
        assert PlaceholdersBelow(i, homeName.value, awayName.value, g + 1) ==
               PlaceholdersBelow(i, homeName.value, awayName.value, g)[g as Gate := PlaceholderEntry(i, g as Gate, homeName.value, awayName.value)];
        riders := riders[g as Gate := PlaceholderEntry(i, g as Gate, homeName.value, awayName.value)];
        g := g + 1;
      }
      heats := heats + [Heat(i, riders, [], Upcoming, i == 15)];
      i := i + 1;
    }
    assert heats == seq(15, k requires 0 <= k < 15 => DefaultHeat(k + 1, homeName.value, awayName.value));
    r := Ok(heats);
  }

  /** Builds one heat of a heat program, gate by gate. */
  method BuildProgramHeat(info: ProgramRow, home: seq<RiderDoc>, away: seq<RiderDoc>) returns (heat: Heat)
    requires |info.gates| == 4
    ensures heat == ProgramHeat(info, home, away)
  {
    var riders: map<Gate, GateEntry> := map[];
    var g := 1;
    while g <= 4
      invariant 1 <= g <= 5
      invariant riders == ProgramRidersBelow(info, home, away, g)
    {
      var side := GateSide(g as Gate);
      var roster := if side == Home then home else away;
      var idx := info.gates[g - 1];
      RidersBelowStep(info, home, away, g as Gate);
      if idx < |roster| {
        riders := riders[g as Gate := GateEntry(roster[idx].id, roster[idx].name, side, BackendHelmet(side, g as Gate))];
      }
      g := g + 1;
    }
    heat := Heat(info.heat, riders, [], Upcoming, info.heat == 15);
  }

  /** Reading one more gate adds that gate's generated rider, if any. */
  lemma RidersBelowStep(info: ProgramRow, home: seq<RiderDoc>, away: seq<RiderDoc>, g: Gate)
    requires |info.gates| == 4
    ensures var e := ProgramEntry(info, g, home, away);
            ProgramRidersBelow(info, home, away, g + 1) ==
              if e.Some? then ProgramRidersBelow(info, home, away, g)[g := e.value] else ProgramRidersBelow(info, home, away, g)
  {
  }

  /** Builds the heats of a heat program, row by row. */
  method BuildFixture(program: seq<ProgramRow>, home: seq<RiderDoc>, away: seq<RiderDoc>) returns (heats: seq<Heat>)
    requires forall k :: 0 <= k < |program| ==> |program[k].gates| == 4
    ensures heats == ProgramFixture(program, home, away)
  {
    heats := [];
    var k := 0;
    while k < |program|
      invariant 0 <= k <= |program| && |heats| == k
      invariant forall j :: 0 <= j < k ==> heats[j] == ProgramHeat(program[j], home, away)
    {
      var heat := BuildProgramHeat(program[k], home, away);
      heats := heats + [heat];
      k := k + 1;
    }
  }

  method GenerateMatchHeats(homeMains: seq<RiderDoc>, awayMains: seq<RiderDoc>,
                            homeName: Option<string>, awayName: Option<string>) returns (r: Result<seq<Heat>>)
    ensures r == MatchHeats(homeMains, awayMains, homeName, awayName)
  {
    var home := UpToSix(homeMains);
    var away := UpToSix(awayMains);
    if |home| < 6 || |away| < 6 {
      r := GenerateDefaultHeats(homeName, awayName);
      return;
    }
    HeatProgramWellFormed();
    var heats := BuildFixture(HeatProgram, home, away);
    r := Ok(heats);
  }

  /**
   * The shape every new match has: heats 1..15 in order, all four gates
   * filled, no results, status upcoming, only heat 15 tactical, the home
   * team on gates 1 and 3 and the away team on gates 2 and 4, each in its
   * colour for that gate.
   */
  predicate WellShaped(hs: seq<Heat>)
  {
    |hs| == 15 && forall k :: 0 <= k < 15 ==> HeatShaped(hs[k], k + 1)
  }

  predicate HeatShaped(h: Heat, n: int)
  {
    h.number == n && h.results == [] && h.status == Upcoming && (h.isTactical <==> n == 15) &&
    (forall g: Gate :: g in h.riders) && GatesOnSides(h.riders)
  }

  /** Every gate rider belongs to the gate's team and wears the gate's helmet colour. */
  predicate GatesOnSides(riders: map<Gate, GateEntry>)
  {
    forall g: Gate :: g in riders ==> riders[g].team == GateSide(g) && riders[g].helmet == BackendHelmet(GateSide(g), g)
  }

  /**
   * A new match fails only when a team has fewer than six main riders and a
   * team document is missing; otherwise its heats are well shaped, whether
   * they come from the program or are placeholders.
   */
  lemma MatchHeatsShape(homeMains: seq<RiderDoc>, awayMains: seq<RiderDoc>,
                        homeName: Option<string>, awayName: Option<string>)
    ensures MatchHeats(homeMains, awayMains, homeName, awayName).Err? <==>
              (|homeMains| < 6 || |awayMains| < 6) && (homeName.None? || awayName.None?)
    ensures MatchHeats(homeMains, awayMains, homeName, awayName).Ok? ==>
              WellShaped(MatchHeats(homeMains, awayMains, homeName, awayName).value)
  {
    var r := MatchHeats(homeMains, awayMains, homeName, awayName);
    if r.Ok? {
      var hs := r.value;
      if |homeMains| < 6 || |awayMains| < 6 {
        forall k | 0 <= k < 15 ensures HeatShaped(hs[k], k + 1) {
          assert hs[k] == DefaultHeat(k + 1, homeName.value, awayName.value);
        }
      } else {
        HeatProgramWellFormed();
        var home := UpToSix(homeMains);
        var away := UpToSix(awayMains);
        forall k | 0 <= k < 15 ensures HeatShaped(hs[k], k + 1) {
          assert hs[k] == ProgramHeat(HeatProgram[k], home, away);
          forall g: Gate ensures ProgramEntry(HeatProgram[k], g, home, away).Some? {
            assert HeatProgram[k].gates[g - 1] < 6;
          }
        }
      }
    }
  }

  /** Placeholder heats never name one rider id at two gates. */
  lemma PlaceholderIdsDistinct(i: nat, g: Gate, h: Gate, homeName: string, awayName: string)
    requires g != h
    ensures PlaceholderEntry(i, g, homeName, awayName).riderId != PlaceholderEntry(i, h, homeName, awayName).riderId
  {
    var a := PlaceholderEntry(i, g, homeName, awayName).riderId;
    var b := PlaceholderEntry(i, h, homeName, awayName).riderId;
    if GateSide(g) != GateSide(h) {
      assert a[0] != b[0];
    } else {
      assert a[|a| - 1] != b[|b| - 1];
    }
  }

  /** A program row that gives each team two different roster indices. */
  predicate RowDistinct(row: ProgramRow)
    requires |row.gates| == 4
  {
    row.gates[0] != row.gates[2] && row.gates[1] != row.gates[3]
  }

  /** Rider ids are unique across both rosters. */
  predicate UniqueIds(home: seq<RiderDoc>, away: seq<RiderDoc>)
  {
    var all := home + away;
    forall a, b :: 0 <= a < b < |all| ==> all[a].id != all[b].id
  }

  /** With unique rider ids, a row with distinct indices per team puts four different riders on the gates. */
  lemma DistinctRowNoRepeat(row: ProgramRow, home: seq<RiderDoc>, away: seq<RiderDoc>, g: Gate, h: Gate)
    requires |row.gates| == 4 && RowDistinct(row) && UniqueIds(home, away)
    requires g != h && g in ProgramHeat(row, home, away).riders && h in ProgramHeat(row, home, away).riders
    ensures ProgramHeat(row, home, away).riders[g].riderId != ProgramHeat(row, home, away).riders[h].riderId
  {
    var all := home + away;
    var ig := row.gates[g - 1];
    var ih := row.gates[h - 1];
    var pg := if GateSide(g) == Home then ig else |home| + ig;
    var ph := if GateSide(h) == Home then ih else |home| + ih;
    assert ProgramHeat(row, home, away).riders[g].riderId == all[pg].id;
    assert ProgramHeat(row, home, away).riders[h].riderId == all[ph].id;
    assert pg != ph;
  }

  /**
   * The backend program as written: heat 2 gives away index 2 to both
   * away gates, so with six riders per team one away rider starts from
   * gates 2 and 4 of the same heat. Every other heat gives each team two
   * different indices.
   */
  lemma Heat2RepeatsAwayRider(homeMains: seq<RiderDoc>, awayMains: seq<RiderDoc>,
                              homeName: Option<string>, awayName: Option<string>)
    requires |homeMains| >= 6 && |awayMains| >= 6
    ensures forall k :: 0 <= k < 15 ==> (RowDistinct(HeatProgram[k]) <==> k != 1)
    ensures var hs := MatchHeats(homeMains, awayMains, homeName, awayName).value;
            2 in hs[1].riders && 4 in hs[1].riders && hs[1].riders[2].riderId == hs[1].riders[4].riderId
  {
    MatchHeatsShape(homeMains, awayMains, homeName, awayName);
    HeatProgramWellFormed();
    var hs := MatchHeats(homeMains, awayMains, homeName, awayName).value;
    assert hs[1] == ProgramHeat(HeatProgram[1], UpToSix(homeMains), UpToSix(awayMains));
  }

  /** The program with heat 2's second away gate given index 3, the pair heats 9 and 13 use. */
  const CorrectedHeatProgram: seq<ProgramRow> := HeatProgram[1 := ProgramRow(2, [1, 2, 0, 3])]

  /** The corrected program is well formed and gives each team two different indices in every heat. */
  lemma CorrectedProgramRowsDistinct()
    ensures ProgramWellFormed(CorrectedHeatProgram)
    ensures forall k :: 0 <= k < 15 ==> RowDistinct(CorrectedHeatProgram[k])
  {
    HeatProgramWellFormed();
  }

  /** In the corrected program no heat names one rider at two gates, given unique rider ids. */
  lemma CorrectedProgramNoRepeats(home: seq<RiderDoc>, away: seq<RiderDoc>, k: nat, g: Gate, h: Gate)
    requires |home| == 6 && |away| == 6 && UniqueIds(home, away)
    requires k < 15 && g != h
    ensures var heat := ProgramHeat(CorrectedHeatProgram[k], home, away);
            g in heat.riders && h in heat.riders && heat.riders[g].riderId != heat.riders[h].riderId
  {
    CorrectedProgramRowsDistinct();
    var row := CorrectedHeatProgram[k];
    assert row.gates[g - 1] < 6 && row.gates[h - 1] < 6;
    DistinctRowNoRepeat(row, home, away, g, h);
  }

  /**
   * The heat table does not tie teams to gates the way the backend does:
   * in heat 2 the away colour G stands on gate 1, a home gate here.
   */
  lemma TableSidesNotTiedToGates()
    ensures SlotSide(1, 1) == Away && GateSide(1) == Home
    ensures exists i: nat, g: Gate :: i < 13 && SlotSide(i, g) != GateSide(g)
  {
    assert SlotSide(1, 1) != GateSide(1);
  }
}
