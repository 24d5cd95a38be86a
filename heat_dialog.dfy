/**
 * The heat dialog: the result form it opens with, exclusive position
 * picking, the draft rider swap with its one-change guard, the change
 * tests that enable saving and the payload it sends.
 */
module HeatDialog {
  import opened Domain
  import opened UseHeats
  import opened MatchProtocol

  /** `parseInt` of the form position gives p. */
  predicate HoldsPosition(e: FormPos, p: int)
  {
    e.Pos? && e.n == p
  }

  /** Entry `id` after p is taken from everyone but r. */
  function ClearedEntry(form: Form, r: RiderId, p: int, id: RiderId): FormEntry
    requires id in form
  {
    if id != r && HoldsPosition(form[id].position, p) then form[id].(position := Blank) else form[id]
  }

  /**
   * Exclusive picking, as a function of the form: picking the position a
   * rider already holds clears it; any other pick gives the rider the
   * position and clears it from everyone else. A rider with no entry gets
   * one with no status field.
   */
  function ExclusiveSpec(form: Form, r: RiderId, p: int): Form
  {
    if r in form && HoldsPosition(form[r].position, p) then form[r := form[r].(position := Blank)]
    else
      var cleared := map id | id in form :: ClearedEntry(form, r, p, id);
      cleared[r := if r in form then form[r].(position := Pos(p)) else FormEntry(Pos(p), None)]
  }

  /** setPositionExclusive, walking the form's keys. */
  method SetPositionExclusive(form: Form, r: RiderId, p: int) returns (next: Form)
    ensures next == ExclusiveSpec(form, r, p)
  {
    if r in form && HoldsPosition(form[r].position, p) {
      return form[r := form[r].(position := Blank)];
    }
    next := form;
    var todo := form.Keys;
    while todo != {}
      invariant todo <= form.Keys && next.Keys == form.Keys
      invariant forall id :: id in form && id !in todo ==> next[id] == ClearedEntry(form, r, p, id)
      invariant forall id :: id in todo ==> next[id] == form[id]
      decreases todo
    {
      var id :| id in todo;
      if id != r && HoldsPosition(next[id].position, p) {
        next := next[id := next[id].(position := Blank)];
      }
      todo := todo - {id};
    }
    assert next == map id | id in form :: ClearedEntry(form, r, p, id);
    next := next[r := if r in next then next[r].(position := Pos(p)) else FormEntry(Pos(p), None)];
  }

  /**
   * What a pick does: on a new position the rider alone holds it
   * afterwards, no rider is added but r, and every status and every other
   * position is kept; on the rider's own position only that entry is
   * cleared. Picking a new position twice leaves the rider blank.
   */
  lemma ExclusiveOutcome(form: Form, r: RiderId, p: int)
    ensures var next := ExclusiveSpec(form, r, p);
            next.Keys == form.Keys + {r} &&
            (forall id :: id in form && id in next ==> next[id].status == form[id].status) &&
            (forall id :: id in form && id != r && !HoldsPosition(form[id].position, p) ==> next[id] == form[id])
    ensures var next := ExclusiveSpec(form, r, p);
            r in form && HoldsPosition(form[r].position, p) ==>
              next[r].position == Blank && forall id :: id in form && id != r ==> next[id] == form[id]
    ensures var next := ExclusiveSpec(form, r, p);
            !(r in form && HoldsPosition(form[r].position, p)) ==>
              HoldsPosition(next[r].position, p) && forall id :: id in next && id != r ==> !HoldsPosition(next[id].position, p)
    ensures !(r in form && HoldsPosition(form[r].position, p)) ==>
              ExclusiveSpec(ExclusiveSpec(form, r, p), r, p)[r].position == Blank
  {
  }

  /** The form entry a stored line opens as; a rider without a line opens blank and completed. */
  function EntryOf(existing: Option<HeatResult>): FormEntry
  {
    if existing.Some? then FormEntry(Pos(existing.value.position), Some(existing.value.status))
    else FormEntry(Blank, Some(Completed))
  }

  function GateRiderIds(riders: map<Gate, GateEntry>): set<RiderId>
  {
    set g | g in riders :: riders[g].riderId
  }

  /** The form a saved heat opens with, and the one the change test compares against. */
  function PersistedForm(heat: Heat): (f: Form)
    ensures f.Keys == GateRiderIds(heat.riders)
  {
    map id | id in GateRiderIds(heat.riders) :: EntryOf(FirstResultFor(heat.results, id))
  }

  lemma PersistedGate(heat: Heat, g: Gate)
    requires g in heat.riders
    ensures var f := PersistedForm(heat);
            FormGateOk(heat.riders, f, g) == SavedGateOk(heat, g) &&
            (SavedGateOk(heat, g) ==>
               FormCompletedAt(heat.riders, f, g) == SavedCompletedAt(heat, g) &&
               PositionIn(f, heat.riders[g].riderId) == Pos(FirstResultFor(heat.results, heat.riders[g].riderId).value.position))
  {
    assert heat.riders[g].riderId in GateRiderIds(heat.riders);
  }

  /**
   * Opening a saved heat gives a complete form exactly when the saved heat
   * is complete (and holds some line): the dialog and the heat list agree.
   */
  lemma PersistedFormComplete(heat: Heat)
    ensures SavedComplete(heat) <==> |heat.results| > 0 && FormComplete(heat.riders, PersistedForm(heat))
  {
    forall g: Gate | g in heat.riders {
      PersistedGate(heat, g);
    }
  }

  /** A roster rider offered in the swap list. */
  datatype RosterRider = RosterRider(id: RiderId, name: string, isReserve: bool)

  function RosterId(r: RosterRider): RiderId
  {
    r.id
  }

  /** The draft heat's riders and the result form, edited together. */
  datatype Draft = Draft(riders: map<Gate, GateEntry>, form: Form)

  /** The form entry follows the rider: it moves from the old id to the new one. */
  function MoveFormKey(form: Form, oldId: RiderId, newId: RiderId): Form
  {
    if oldId == newId then form
    else if oldId in form then (form - {oldId})[newId := form[oldId]]
    else if newId in form then form
    else form[newId := FormEntry(Blank, Some(Completed))]
  }

  /**
   * setDraftRider: put `newId` on gate g of the draft, taking the name
   * from the side's roster. Nothing happens when the gate is empty, or
   * when a guard is given and the change would leave more than one live
   * gate changed.
   */
  function SetDraftRider(live: map<Gate, GateEntry>, d: Draft, g: Gate, newId: RiderId,
                         ridersByTeam: map<Side, seq<RosterRider>>, guard: bool): Draft
  {
    if g !in d.riders then d
    else
      var temp := d.riders[g := d.riders[g].(riderId := newId)];
      if guard && ChangedUpTo(live, temp, 4) > 1 then d
      else
        var team := d.riders[g].team;
        var roster := if team in ridersByTeam then ridersByTeam[team] else [];
        var selected := FindFirst(roster, RosterId, newId);
        var name := if selected.Some? then selected.value.name else d.riders[g].name;
        Draft(d.riders[g := d.riders[g].(riderId := newId, name := name)], MoveFormKey(d.form, d.riders[g].riderId, newId))
  }

  /** The guard count depends on the rider ids only. */
  lemma {:induction false} ChangedUpToIds(live: map<Gate, GateEntry>, a: map<Gate, GateEntry>, b: map<Gate, GateEntry>, n: int)
    requires 0 <= n <= 4
    requires forall g: Gate :: RiderIdAt(a, g) == RiderIdAt(b, g)
    ensures ChangedUpTo(live, a, n) == ChangedUpTo(live, b, n)
    decreases n
  {
    if n > 0 {
      ChangedUpToIds(live, a, b, n - 1);
    }
  }

  /**
   * A swap changes gate g's rider id (and its name, to the roster's when
   * the roster has the rider) and nothing else of the draft riders; the
   * form entry moves from the old id to the new one, and a rejected or
   * impossible swap changes nothing.
   */
  lemma SetDraftRiderMeaning(live: map<Gate, GateEntry>, d: Draft, g: Gate, newId: RiderId,
                             ridersByTeam: map<Side, seq<RosterRider>>, guard: bool)
    ensures var r := SetDraftRider(live, d, g, newId, ridersByTeam, guard);
            g !in d.riders ==> r == d
    ensures var r := SetDraftRider(live, d, g, newId, ridersByTeam, guard);
            r != d ==>
              g in d.riders && r.riders.Keys == d.riders.Keys &&
              r.riders[g].riderId == newId && r.riders[g].team == d.riders[g].team &&
              r.riders[g].helmet == d.riders[g].helmet &&
              (forall h: Gate :: h in d.riders && h != g ==> r.riders[h] == d.riders[h])
    ensures var r := SetDraftRider(live, d, g, newId, ridersByTeam, guard);
            var oldId := if g in d.riders then d.riders[g].riderId else "";
            r != d && oldId != newId && oldId in d.form ==>
              newId in r.form && r.form[newId] == d.form[oldId] && oldId !in r.form &&
              forall id :: id in d.form && id != oldId && id != newId ==> id in r.form && r.form[id] == d.form[id]
  {
  }

  /**
   * With the guard on, a draft that differs from the live heat at most at
   * one gate still does after any swap.
   */
  lemma GuardKeepsOneChange(live: map<Gate, GateEntry>, d: Draft, g: Gate, newId: RiderId,
                            ridersByTeam: map<Side, seq<RosterRider>>)
    requires ChangedUpTo(live, d.riders, 4) <= 1
    ensures ChangedUpTo(live, SetDraftRider(live, d, g, newId, ridersByTeam, true).riders, 4) <= 1
  {
    var r := SetDraftRider(live, d, g, newId, ridersByTeam, true);
    if g in d.riders {
      var temp := d.riders[g := d.riders[g].(riderId := newId)];
      if ChangedUpTo(live, temp, 4) <= 1 {
        ChangedUpToIds(live, r.riders, temp, 4);
      }
    }
  }

  /**
   * When the form holds exactly the draft's rider ids and gate g's rider
   * is on no other gate, it still does after a swap at g.
   */
  lemma FormFollowsDraft(live: map<Gate, GateEntry>, d: Draft, g: Gate, newId: RiderId,
                         ridersByTeam: map<Side, seq<RosterRider>>, guard: bool)
    requires d.form.Keys == GateRiderIds(d.riders)
    requires g in d.riders ==> forall h: Gate :: h in d.riders && h != g ==> d.riders[h].riderId != d.riders[g].riderId
    ensures var r := SetDraftRider(live, d, g, newId, ridersByTeam, guard);
            r.form.Keys == GateRiderIds(r.riders)
  {
    var r := SetDraftRider(live, d, g, newId, ridersByTeam, guard);
    if r != d {
      var oldId := d.riders[g].riderId;
      assert oldId in GateRiderIds(d.riders);
      assert r.riders[g].riderId == newId;
      assert newId in GateRiderIds(r.riders);
      forall id | id in GateRiderIds(r.riders)
        ensures id in r.form
      {
        var h: Gate :| h in r.riders && r.riders[h].riderId == id;
        if h != g {
          assert id in GateRiderIds(d.riders);
        }
      }
      forall id | id in r.form
        ensures id in GateRiderIds(r.riders)
      {
        if id != newId {
          var h: Gate :| h in d.riders && d.riders[h].riderId == id;
          assert h != g;
          assert r.riders[h].riderId == id;
        }
      }
    }
  }

  /** ridersChanged: some live gate holds another rider in the draft. */
  method RidersChanged(live: map<Gate, GateEntry>, draft: map<Gate, GateEntry>) returns (changed: bool)
    ensures changed <==> exists g: Gate :: GateChanged(live, draft, g)
  {
    var g := 1;
    while g <= 4
      invariant 1 <= g <= 5
      invariant forall h: Gate :: h < g ==> !GateChanged(live, draft, h)
    {
      var gate := g as Gate;
      if gate in live && RiderIdAt(live, gate) != RiderIdAt(draft, gate) {
        assert GateChanged(live, draft, gate);
        return true;
      }
      g := g + 1;
    }
    return false;
  }

  /** A changed draft is exactly one the swap guard counts at least one change in. */
  lemma ChangedIsCounted(live: map<Gate, GateEntry>, draft: map<Gate, GateEntry>)
    ensures (exists g: Gate :: GateChanged(live, draft, g)) <==> ChangedUpTo(live, draft, 4) > 0
  {
    ChangedAtMostOne(live, draft, 4);
  }

  /** The entry the change test reads for an id, with a blank completed default. */
  function EntryAt(form: Form, id: RiderId): FormEntry
  {
    if id in form then form[id] else FormEntry(Blank, Some(Completed))
  }

  /** Every rider of either form reads the same entry in both. */
  predicate SameResults(persisted: Form, form: Form)
  {
    forall id :: id in persisted.Keys + form.Keys ==> EntryAt(persisted, id) == EntryAt(form, id)
  }

  /** resultsUnchanged, walking the ids of both forms. */
  method ResultsUnchanged(heat: Heat, form: Form) returns (same: bool)
    ensures same <==> SameResults(PersistedForm(heat), form)
  {
    var persisted := PersistedForm(heat);
    var todo := persisted.Keys + form.Keys;
    while todo != {}
      invariant todo <= persisted.Keys + form.Keys
      invariant forall id :: id in persisted.Keys + form.Keys && id !in todo ==> EntryAt(persisted, id) == EntryAt(form, id)
      decreases todo
    {
      var id :| id in todo;
      if EntryAt(persisted, id) != EntryAt(form, id) {
        return false;
      }
      todo := todo - {id};
    }
    return true;
  }

  /** The save button's state: disabled while the form is incomplete or nothing changed. */
  predicate SaveDisabled(live: Heat, draft: map<Gate, GateEntry>, form: Form)
  {
    var nothingChanged := !(exists g: Gate :: GateChanged(live.riders, draft, g)) && SameResults(PersistedForm(live), form);
    !FormComplete(draft, form) || nothingChanged
  }

  /**
   * Saving is possible only with a complete form and a real edit: a live
   * gate with another rider, or a rider whose entry differs from the
   * saved one. An untouched dialog can never be saved.
   */
  lemma SaveNeedsAnEdit(live: Heat, draft: map<Gate, GateEntry>, form: Form)
    ensures !SaveDisabled(live, draft, form) ==>
              FormComplete(draft, form) &&
              ((exists g: Gate :: GateChanged(live.riders, draft, g)) ||
               exists id :: id in PersistedForm(live).Keys + form.Keys && EntryAt(PersistedForm(live), id) != EntryAt(form, id))
    ensures SaveDisabled(live, live.riders, PersistedForm(live))
  {
  }

  /** A submitted result line. */
  datatype SubmittedResult = SubmittedResult(riderId: RiderId, position: int, status: Option<Status>)

  /** What the dialog saves: the heat number, the changed gates and one line per form entry. */
  datatype Payload = Payload(heatNumber: int, assignments: map<Gate, RiderId>, results: map<RiderId, SubmittedResult>)

  /** `parseInt(position) || 0`. */
  function ParsedPosition(p: FormPos): int
  {
    if p.Pos? then p.n else 0
  }

  /**
   * handleSave's payload: the draft rider of every changed live gate, and
   * every form entry with its position read as a number (0 when blank).
   */
  method HandleSave(live: Heat, draft: map<Gate, GateEntry>, form: Form) returns (p: Payload)
    ensures p.heatNumber == live.number
    ensures forall g: Gate :: g in p.assignments <==> GateChanged(live.riders, draft, g)
    ensures forall g :: g in p.assignments ==> p.assignments[g] == RiderIdAt(draft, g)
    ensures p.assignments != map[] <==> exists g: Gate :: GateChanged(live.riders, draft, g)
    ensures p.results.Keys == form.Keys
    ensures forall id :: id in form ==>
              p.results[id] == SubmittedResult(id, ParsedPosition(form[id].position), form[id].status)
  {
    var assignments: map<Gate, RiderId> := map[];
    var g := 1;
    while g <= 4
      invariant 1 <= g <= 5
      invariant forall h: Gate :: h in assignments <==> h < g && GateChanged(live.riders, draft, h)
      invariant forall h :: h in assignments ==> assignments[h] == RiderIdAt(draft, h)
    {
      var gate := g as Gate;
      if gate in live.riders {
        var beforeId := RiderIdAt(live.riders, gate);
        var afterId := RiderIdAt(draft, gate);
        if beforeId != afterId {
          assignments := assignments[gate := afterId];
        }
      }
      g := g + 1;
    }
    if exists h: Gate :: GateChanged(live.riders, draft, h) {
      var h: Gate :| GateChanged(live.riders, draft, h);
      assert h in assignments;
    }
    var results := map id | id in form :: SubmittedResult(id, ParsedPosition(form[id].position), form[id].status);
    p := Payload(live.number, assignments, results);
  }

  /**
   * A rider list opens for a gate only inside the dialog's tactical window
   * (5..13 unless given) and when the page lets the gate's side use a
   * tactical reserve.
   */
  predicate CanPick(heatNumber: int, start: Option<int>, end: Option<int>, canUse: bool)
  {
    heatNumber >= OrElse(start, 5) && heatNumber <= OrElse(end, 13) && canUse
  }

  /**
   * With the window the page passes in (its own tactical settings), the
   * dialog's window test adds nothing: a gate's list opens exactly when
   * the page's tactical rule allows the side.
   */
  lemma CanPickIsPageRule(loaded: bool, n: int, meta: Option<TacticalMeta>, heats: seq<Heat>, side: Side)
    ensures var rules := TacticalRulesOf(meta);
            CanPick(n, Some(rules.start), Some(rules.end), CanUseTactical(loaded, Some(n), rules, heats, side)) ==
            CanUseTactical(loaded, Some(n), rules, heats, side)
  {
  }
}
