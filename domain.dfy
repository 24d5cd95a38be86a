/**
 * Values shared by the backend handlers and the React front end: teams,
 * gates, the rider standing at a gate, heat results and heats.
 *
 * A heat's riders are a map from gate number to gate rider. The backend
 * builds these maps in gate order and JavaScript enumerates integer-like
 * keys in ascending order, so "gate order" below is ascending gate number.
 */
module Domain {

  datatype Option<T> = None | Some(value: T)

  /** A team's role in a match: the strings "home" and "away". */
  datatype Side = Home | Away

  function Opponent(s: Side): (o: Side)
    ensures o != s
  {
    if s == Home then Away else Home
  }

  /** The four starting gates, the keys "1".."4" of a heat's rider map. */
  type Gate = g: int | 1 <= g <= 4 witness 1

  /**
   * Helmet colours, one per hex code the programs write: Red `#DC2626`,
   * Blue `#2563EB`, DarkBlue `#1D4ED8`, Yellow `#EAB308`, Gold `#FACC15`,
   * White `#FFFFFF`.
   */
  datatype Helmet = Red | Blue | DarkBlue | Yellow | Gold | White

  type RiderId = string

  /** The rider standing at one gate of a heat. */
  datatype GateEntry = GateEntry(riderId: RiderId, name: string, team: Side, helmet: Helmet)

  /** A rider's result status: "completed", "excluded" or any other string. */
  datatype Status = Completed | Excluded | OtherStatus

  /** One stored result line: position, 3-2-1-0 points and bonus point. */
  datatype HeatResult = HeatResult(riderId: RiderId, position: int, points: int, bonus: int, status: Status)

  datatype HeatStatus = Upcoming | HeatCompleted

  datatype Heat = Heat(number: int, riders: map<Gate, GateEntry>, results: seq<HeatResult>,
                       status: HeatStatus, isTactical: bool)

  /** A stored rider document: id, display name, owning team id and reserve flag. */
  datatype RiderDoc = RiderDoc(id: RiderId, name: string, teamId: string, isReserve: bool)

  /** Why a backend handler refuses a request (an HTTP 400 or 404). */
  datatype Failure =
    | DuplicateMatch
    | TeamNotFound
    | HeatNotFound
    | RiderNotFound(id: RiderId)
    | OutsideTacticalWindow
    | WrongTeam(id: RiderId, expected: Side)
    | TooFewCompletedHeats(completed: int)
    | NoOfficialMatch
    | NoOfficialScores
    | InvalidAction

  datatype Result<T> = Ok(value: T) | Err(error: Failure)

  /** The index of the first element whose id (read by `idOf`) is `id`. */
  function FirstIndexWith<T>(xs: seq<T>, idOf: T -> RiderId, id: RiderId): (r: Option<nat>)
    ensures r.Some? ==> r.value < |xs| && idOf(xs[r.value]) == id && forall j :: 0 <= j < r.value ==> idOf(xs[j]) != id
    ensures r.None? ==> forall k :: 0 <= k < |xs| ==> idOf(xs[k]) != id
    decreases |xs|
  {
    if xs == [] then None
    else if idOf(xs[0]) == id then Some(0)
    else
      var rest := FirstIndexWith(xs[1..], idOf, id);
      if rest.None? then None else Some(rest.value + 1)
  }

  /**
   * `Array.find` with `String(x.id) === String(id)`: the first element
   * with the id, or None when no element has it.
   */
  function FindFirst<T>(xs: seq<T>, idOf: T -> RiderId, id: RiderId): (r: Option<T>)
    ensures r.Some? ==> idOf(r.value) == id
    ensures r.Some? ==> exists k :: 0 <= k < |xs| && xs[k] == r.value && forall j :: 0 <= j < k ==> idOf(xs[j]) != id
    ensures r.None? ==> forall k :: 0 <= k < |xs| ==> idOf(xs[k]) != id
  {
    var i := FirstIndexWith(xs, idOf, id);
    if i.None? then None else Some(xs[i.value])
  }

  /** The text key of a gate. */
  function GateKey(g: Gate): (key: string)
    ensures |key| == 1 && '1' <= key[0] <= '4'
  {
    [('0' as int + g) as char]
  }

  /** Reads a gate key; only "1".."4" name a gate. */
  function GateOfKey(key: string): (g: Option<Gate>)
    ensures g.Some? <==> (|key| == 1 && '1' <= key[0] <= '4')
  {
    if |key| == 1 && '1' <= key[0] <= '4' then Some((key[0] as int - '0' as int) as Gate) else None
  }

  lemma GateKeyRoundTrip(g: Gate, key: string)
    ensures GateOfKey(GateKey(g)) == Some(g)
    ensures GateOfKey(key).Some? ==> GateKey(GateOfKey(key).value) == key
  {
  }

  /**
   * The rider-to-team map a heat's gates define when gates 1..n are read
   * in order and a later gate overrides an earlier one (a Python dict built
   * from `riders.items()`, a JavaScript object filled by `forEach`).
   */
  function TeamMapUpTo(riders: map<Gate, GateEntry>, n: int): map<RiderId, Side>
    requires 0 <= n <= 4
    decreases n
  {
    if n == 0 then map[]
    else
      var prev := TeamMapUpTo(riders, n - 1);
      var g := n as Gate;
      if g in riders then prev[riders[g].riderId := riders[g].team] else prev
  }

  /** The map holds exactly the riders of gates 1..n, each with the team of one of its gates. */
  lemma {:induction false} TeamMapUpToSound(riders: map<Gate, GateEntry>, n: int)
    requires 0 <= n <= 4
    ensures forall g: Gate :: g <= n && g in riders ==> riders[g].riderId in TeamMapUpTo(riders, n)
    ensures forall id :: id in TeamMapUpTo(riders, n) ==>
              exists g: Gate :: g <= n && g in riders && riders[g].riderId == id && TeamMapUpTo(riders, n)[id] == riders[g].team
    decreases n
  {
    if n > 0 {
      TeamMapUpToSound(riders, n - 1);
    }
  }

  function RiderTeams(riders: map<Gate, GateEntry>): map<RiderId, Side>
  {
    TeamMapUpTo(riders, 4)
  }

  /** A rider's team in the map is the team of the last gate that holds the rider. */
  lemma {:induction false} LastGateWins(riders: map<Gate, GateEntry>, g: Gate, n: int)
    requires g <= n <= 4 && g in riders
    requires forall h: Gate :: g < h <= n && h in riders ==> riders[h].riderId != riders[g].riderId
    ensures riders[g].riderId in TeamMapUpTo(riders, n) && TeamMapUpTo(riders, n)[riders[g].riderId] == riders[g].team
    decreases n
  {
    if n > g {
      LastGateWins(riders, g, n - 1);
    }
  }

  /** A dictionary lookup that yields None (Python) or undefined (JavaScript) when absent. */
  function TeamIn(teams: map<RiderId, Side>, id: RiderId): Option<Side>
  {
    if id in teams then Some(teams[id]) else None
  }

  /**
   * The team of the first gate, from gate n on, whose rider is `id`
   * (JavaScript `Object.values(riders).find(...)`).
   */
  function FirstGateTeamFrom(riders: map<Gate, GateEntry>, id: RiderId, n: int): (t: Option<Side>)
    requires 1 <= n <= 5
    ensures t.None? <==> forall g: Gate :: n <= g && g in riders ==> riders[g].riderId != id
    ensures t.Some? ==> exists g: Gate :: n <= g && g in riders && riders[g].riderId == id && t.value == riders[g].team
    decreases 5 - n
  {
    if n == 5 then None
    else if n as Gate in riders && riders[n as Gate].riderId == id then Some(riders[n as Gate].team)
    else FirstGateTeamFrom(riders, id, n + 1)
  }

  function FirstGateTeam(riders: map<Gate, GateEntry>, id: RiderId): Option<Side>
  {
    FirstGateTeamFrom(riders, id, 1)
  }

  /** No rider id stands at two gates under different teams. */
  predicate ConsistentTeams(riders: map<Gate, GateEntry>)
  {
    forall g: Gate, h: Gate :: g in riders && h in riders && riders[g].riderId == riders[h].riderId ==>
      riders[g].team == riders[h].team
  }

  /**
   * Where a heat's gates agree on each rider's team, the last-gate-wins map
   * and the first-gate search find the same team for every rider id.
   */
  lemma ConsistentLookupsAgree(riders: map<Gate, GateEntry>, id: RiderId)
    requires ConsistentTeams(riders)
    ensures TeamIn(RiderTeams(riders), id) == FirstGateTeam(riders, id)
  {
    var m := RiderTeams(riders);
    var t := FirstGateTeam(riders, id);
    TeamMapUpToSound(riders, 4);
    if id in m {
      var g: Gate :| g in riders && riders[g].riderId == id && m[id] == riders[g].team;
      assert t.Some?;
    } else {
      assert t.None?;
    }
  }
}
