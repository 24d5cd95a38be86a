/**
 * The Elitserien heat table: for heats 1..13 each gate names a helmet
 * colour and a lineup number ("B2" is the blue-helmet rider of lineup
 * slot 2); heats 14 and 15 name colour pairs ("V/R") to be filled by
 * nomination. Colours decide the team: red and blue ride for the home
 * team, yellow ("G") and white ("V") for the away team.
 */
module EliteSchedule {
  import opened Domain

  /** Helmet colour letters: R red, B blue, G gold (the table's own yellow), V white. */
  datatype Colour = R | B | G | V

  /** One table cell: a concrete lineup slot, or a colour pair left for nomination. */
  datatype Cell = Slot(colour: Colour, lineup: int) | Nominee(first: Colour, second: Colour)

  /** One table row: the heat number and the cells of gates 1..4. */
  datatype ScheduleRow = ScheduleRow(heat: int, gates: seq<Cell>)

  /** The table, cell by cell (the token "B2" is Slot(B, 2), "V/R" is Nominee(V, R)). */
  const Elitserien: seq<ScheduleRow> := [
    ScheduleRow(1, [Slot(B, 2), Slot(V, 1), Slot(R, 1), Slot(G, 2)]),
    ScheduleRow(2, [Slot(G, 7), Slot(R, 6), Slot(V, 6), Slot(B, 7)]),
    ScheduleRow(3, [Slot(R, 3), Slot(V, 3), Slot(B, 4), Slot(G, 4)]),
    ScheduleRow(4, [Slot(V, 5), Slot(B, 5), Slot(G, 7), Slot(R, 6)]),
    ScheduleRow(5, [Slot(B, 7), Slot(G, 4), Slot(R, 2), Slot(V, 6)]),
    ScheduleRow(6, [Slot(G, 2), Slot(R, 3), Slot(V, 1), Slot(B, 4)]),
    ScheduleRow(7, [Slot(G, 4), Slot(R, 1), Slot(V, 3), Slot(B, 2)]),
    ScheduleRow(8, [Slot(B, 4), Slot(G, 7), Slot(R, 3), Slot(V, 5)]),
    ScheduleRow(9, [Slot(B, 5), Slot(G, 2), Slot(R, 6), Slot(V, 1)]),
    ScheduleRow(10, [Slot(V, 6), Slot(B, 7), Slot(G, 5), Slot(R, 1)]),
    ScheduleRow(11, [Slot(V, 3), Slot(B, 4), Slot(G, 2), Slot(R, 5)]),
    ScheduleRow(12, [Slot(V, 1), Slot(B, 2), Slot(G, 4), Slot(R, 3)]),
    ScheduleRow(13, [Slot(R, 1), Slot(G, 5), Slot(B, 5), Slot(V, 3)]),
    ScheduleRow(14, [Nominee(V, R), Nominee(V, R), Nominee(G, B), Nominee(G, B)]),
    ScheduleRow(15, [Nominee(R, V), Nominee(R, V), Nominee(B, G), Nominee(B, G)])
  ]

  /** The colour-to-team table. */
  function ColourSide(c: Colour): Side
  {
    match c
    case R => Home
    case B => Home
    case G => Away
    case V => Away
  }

  /** The colour-to-helmet table. */
  function ColourHelmet(c: Colour): Helmet
  {
    match c
    case R => Red
    case B => Blue
    case G => Gold
    case V => White
  }

  function ColourLetter(c: Colour): char
  {
    match c
    case R => 'R'
    case B => 'B'
    case G => 'G'
    case V => 'V'
  }

  /** Reads a colour letter; only the four keys of the colour tables are colours. */
  function ParseColour(ch: char): (c: Option<Colour>)
    ensures c.Some? <==> ch in {'R', 'B', 'G', 'V'}
    ensures c.Some? ==> ColourLetter(c.value) == ch
  {
    if ch == 'R' then Some(R)
    else if ch == 'B' then Some(B)
    else if ch == 'G' then Some(G)
    else if ch == 'V' then Some(V)
    else None
  }

  /** Reads a table token: colour and lineup digit 1..7, or colour "/" colour. */
  function ParseCell(tok: string): Option<Cell>
  {
    if |tok| == 2 && ParseColour(tok[0]).Some? && '1' <= tok[1] <= '7' then
      Some(Slot(ParseColour(tok[0]).value, tok[1] as int - '0' as int))
    else if |tok| == 3 && ParseColour(tok[0]).Some? && tok[1] == '/' && ParseColour(tok[2]).Some? then
      Some(Nominee(ParseColour(tok[0]).value, ParseColour(tok[2]).value))
    else None
  }

  predicate WellFormedCell(c: Cell)
  {
    c.Slot? ==> 1 <= c.lineup <= 7
  }

  /** Writes a cell back as a table token. */
  function CellText(c: Cell): (tok: string)
    requires WellFormedCell(c)
    ensures |tok| == 2 || |tok| == 3
  {
    match c
    case Slot(col, n) => [ColourLetter(col), ('0' as int + n) as char]
    case Nominee(a, b) => [ColourLetter(a), '/', ColourLetter(b)]
  }

  /** Tokens and well-formed cells correspond one to one. */
  lemma CellTextRoundTrip(c: Cell, tok: string)
    ensures WellFormedCell(c) ==> ParseCell(CellText(c)) == Some(c)
    ensures ParseCell(tok).Some? ==> WellFormedCell(ParseCell(tok).value) && CellText(ParseCell(tok).value) == tok
  {
    if WellFormedCell(c) {
      match c
      case Slot(col, n) =>
        assert ParseColour(ColourLetter(col)) == Some(col) by { match col case R => case B => case G => case V => }
      case Nominee(a, b) =>
        assert ParseColour(ColourLetter(a)) == Some(a) by { match a case R => case B => case G => case V => }
        assert ParseColour(ColourLetter(b)) == Some(b) by { match b case R => case B => case G => case V => }
    }
    if ParseCell(tok).Some? {
      if |tok| == 2 {
        assert CellText(ParseCell(tok).value) == [tok[0], tok[1]];
      } else {
        assert CellText(ParseCell(tok).value) == [tok[0], tok[1], tok[2]];
      }
    }
  }

  /** The cell at gate g of heat row i (0-based). */
  function CellAt(i: nat, g: Gate): Cell
    requires i < |Elitserien|
  {
    TableShape();
    Elitserien[i].gates[g - 1]
  }

  /** The rows are heats 1..15, each naming four gates. */
  lemma TableShape()
    ensures |Elitserien| == 15
    ensures forall i :: 0 <= i < 15 ==> Elitserien[i].heat == i + 1 && |Elitserien[i].gates| == 4
  {
  }

  /**
   * Heats 1..13 name a concrete lineup slot 1..7 at every gate, and heats 14
   * and 15 name colour pairs; every cell is a token the parser reads back.
   */
  lemma TableWellFormed()
    ensures forall i: nat, g: Gate :: i < 13 ==> CellAt(i, g).Slot? && 1 <= CellAt(i, g).lineup <= 7
    ensures forall i: nat, g: Gate :: 13 <= i < 15 ==> CellAt(i, g).Nominee?
    ensures forall i: nat, g: Gate :: i < 15 ==> ParseCell(CellText(CellAt(i, g))) == Some(CellAt(i, g))
  {
    forall i: nat, g: Gate | i < 15
      ensures WellFormedCell(CellAt(i, g)) && ParseCell(CellText(CellAt(i, g))) == Some(CellAt(i, g))
    {
      CellTextRoundTrip(CellAt(i, g), "");
    }
  }

  /** The slot scheduled at gate g of concrete heat row i (heats 1..13). */
  function SlotAt(i: nat, g: Gate): (c: Cell)
    requires i < 13
    ensures c.Slot? && 1 <= c.lineup <= 7
  {
    TableWellFormed();
    CellAt(i, g)
  }

  function SlotSide(i: nat, g: Gate): Side
    requires i < 13
  {
    ColourSide(SlotAt(i, g).colour)
  }

  /**
   * In every concrete heat one team holds gates 1 and 3 and the other holds
   * gates 2 and 4 (which team starts from gate 1 varies by heat).
   */
  lemma SidesHoldGatePairs()
    ensures forall i: nat :: i < 13 ==>
      SlotSide(i, 1) == SlotSide(i, 3) && SlotSide(i, 2) == SlotSide(i, 4) && SlotSide(i, 1) != SlotSide(i, 2)
  {
  }

  lemma PairColoursDiffer()
    ensures forall i: nat :: i < 13 ==> SlotAt(i, 1).colour != SlotAt(i, 3).colour && SlotAt(i, 2).colour != SlotAt(i, 4).colour
  {
  }

  /** Every concrete heat uses each of the four helmet colours exactly once. */
  lemma EachColourOncePerHeat(i: nat, g: Gate, h: Gate)
    requires i < 13 && g != h
    ensures SlotAt(i, g).colour != SlotAt(i, h).colour
  {
    var c1, c2, c3, c4 := SlotAt(i, 1).colour, SlotAt(i, 2).colour, SlotAt(i, 3).colour, SlotAt(i, 4).colour;
    assert ColourSide(c1) == ColourSide(c3) && ColourSide(c2) == ColourSide(c4) && ColourSide(c1) != ColourSide(c2) by {
      SidesHoldGatePairs();
    }
    assert c1 != c3 && c2 != c4 by {
      PairColoursDiffer();
    }
    FourGatesFourColours(c1, c2, c3, c4);
  }

  /** Two colours per team, two teams, different colours within each team: four different colours. */
  lemma FourGatesFourColours(c1: Colour, c2: Colour, c3: Colour, c4: Colour)
    requires ColourSide(c1) == ColourSide(c3) && ColourSide(c2) == ColourSide(c4) && ColourSide(c1) != ColourSide(c2)
    requires c1 != c3 && c2 != c4
    ensures c1 != c2 && c1 != c3 && c1 != c4 && c2 != c3 && c2 != c4 && c3 != c4
  {
  }

  /** No concrete heat names the same team's lineup slot at two gates. */
  lemma NoSlotTwicePerHeat()
    ensures forall i: nat, g: Gate, h: Gate :: i < 13 && g != h ==>
      SlotSide(i, g) != SlotSide(i, h) || SlotAt(i, g).lineup != SlotAt(i, h).lineup
  {
  }

  function Hits(c: Cell, side: Side, lineup: int): nat
  {
    if c.Slot? && ColourSide(c.colour) == side && c.lineup == lineup then 1 else 0
  }

  /** Gates of one row that schedule team `side`'s slot `lineup`. */
  function RowHits(row: ScheduleRow, side: Side, lineup: int): nat
    requires |row.gates| == 4
  {
    Hits(row.gates[0], side, lineup) + Hits(row.gates[1], side, lineup) +
    Hits(row.gates[2], side, lineup) + Hits(row.gates[3], side, lineup)
  }

  /** Rides the table schedules for one team's lineup slot over heats 1..13. */
  function ScheduledRides(side: Side, lineup: int): nat
  {
    TableShape();
    var t := Elitserien;
    RowHits(t[0], side, lineup) + RowHits(t[1], side, lineup) + RowHits(t[2], side, lineup) +
    RowHits(t[3], side, lineup) + RowHits(t[4], side, lineup) + RowHits(t[5], side, lineup) +
    RowHits(t[6], side, lineup) + RowHits(t[7], side, lineup) + RowHits(t[8], side, lineup) +
    RowHits(t[9], side, lineup) + RowHits(t[10], side, lineup) + RowHits(t[11], side, lineup) +
    RowHits(t[12], side, lineup)
  }

  /** Slots 1..5 ride four heats each and slots 6 and 7 three each, for both teams. */
  lemma ScheduledRideCounts(side: Side, lineup: int)
    ensures 1 <= lineup <= 5 ==> ScheduledRides(side, lineup) == 4
    ensures 6 <= lineup <= 7 ==> ScheduledRides(side, lineup) == 3
    ensures (lineup < 1 || 7 < lineup) ==> ScheduledRides(side, lineup) == 0
  {
    if lineup < 1 || 7 < lineup {
      NoRidesOutsideLineup(side, lineup);
    } else if side == Home {
      HomeSlotRides(lineup);
    } else {
      AwaySlotRides(lineup);
    }
  }

  lemma HomeSlotRides(lineup: int)
    requires 1 <= lineup <= 7
    ensures ScheduledRides(Home, lineup) == if lineup <= 5 then 4 else 3
  {
  }

  lemma AwaySlotRides(lineup: int)
    requires 1 <= lineup <= 7
    ensures ScheduledRides(Away, lineup) == if lineup <= 5 then 4 else 3
  {
  }

  lemma NoRidesOutsideLineup(side: Side, lineup: int)
    requires lineup < 1 || 7 < lineup
    ensures ScheduledRides(side, lineup) == 0
  {
  }

  /** Heats 14 and 15 pair a home colour with an away colour, the same pair on gates 1-2 and on gates 3-4. */
  lemma NomineePairsCrossTeams(i: nat, g: Gate)
    requires 13 <= i < 15
    ensures CellAt(i, g).Nominee?
    ensures ColourSide(CellAt(i, g).first) != ColourSide(CellAt(i, g).second)
    ensures CellAt(i, 1) == CellAt(i, 2) && CellAt(i, 3) == CellAt(i, 4)
  {
  }

  /** Two colours belong to each team. */
  lemma TwoColoursPerSide(side: Side)
    ensures |set c: Colour | ColourSide(c) == side| == 2
  {
    if side == Home {
      assert (set c: Colour | ColourSide(c) == side) == {R, B};
    } else {
      assert (set c: Colour | ColourSide(c) == side) == {G, V};
    }
  }
}
