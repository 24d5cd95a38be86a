/**
 * The default rule configuration: the tactical-reserve window and deficit,
 * per-rider ride ceilings, and the nomination switches for heats 14 and 15.
 */
module MetaRules {
  import opened Domain
  import opened EliteSchedule

  datatype TacticalRules = TacticalRules(enabled: bool, startHeat: int, endHeat: int, minDeficit: int,
                                         maxPerHeat: int, maxUsesPerRider: int)

  datatype RideLimits = RideLimits(mainMax: int, reserveMax: int, rrMainMax: int, rrReserveMax: int)

  datatype NominationRules = NominationRules(heat14Free: bool, heat15Top2OfTop3: bool)

  datatype Rules = Rules(tactical: TacticalRules, rideLimits: RideLimits, nominations: NominationRules)

  const DefaultRules: Rules := Rules(
    TacticalRules(true, 5, 13, 6, 1, 99),
    RideLimits(5, 2, 7, 6),
    NominationRules(true, true))

  /** The tactical window is a non-empty run of heats that ends before the nomination heats 14 and 15. */
  predicate WindowBeforeNominations(t: TacticalRules)
  {
    1 <= t.startHeat <= t.endHeat <= 13
  }

  /** Heat n lies in the tactical window. */
  predicate InWindow(t: TacticalRules, n: int)
  {
    t.startHeat <= n <= t.endHeat
  }

  /** The ride ceilings admit what the heat table schedules: slots 1..5 are main riders, 6 and 7 reserves. */
  predicate CeilingsAdmitSchedule(limits: RideLimits)
  {
    forall side: Side, lineup: int :: 1 <= lineup <= 7 ==>
      ScheduledRides(side, lineup) <= (if lineup <= 5 then limits.mainMax else limits.reserveMax)
  }

  /**
   * The default tactical window is heats 5..13, switched on, needs a
   * deficit of six points, one tactical ride per heat, and lies before
   * the nomination heats.
   */
  lemma DefaultTacticalWindow()
    ensures DefaultRules.tactical.enabled && WindowBeforeNominations(DefaultRules.tactical)
    ensures forall n :: InWindow(DefaultRules.tactical, n) <==> 5 <= n <= 13
    ensures DefaultRules.tactical.minDeficit == 6 && DefaultRules.tactical.maxPerHeat == 1
  {
  }

  /**
   * The default ceilings disagree with the heat table: the table gives each
   * reserve slot (6 and 7) three rides while the reserve ceiling is two;
   * main slots ride four heats, within the main ceiling of five.
   */
  lemma DefaultReserveCeilingBelowSchedule()
    ensures forall side: Side, lineup: int :: 1 <= lineup <= 5 ==> ScheduledRides(side, lineup) <= DefaultRules.rideLimits.mainMax
    ensures forall side: Side, lineup: int :: 6 <= lineup <= 7 ==> ScheduledRides(side, lineup) > DefaultRules.rideLimits.reserveMax
    ensures !CeilingsAdmitSchedule(DefaultRules.rideLimits)
  {
    forall side: Side, lineup: int | 1 <= lineup <= 7
      ensures ScheduledRides(side, lineup) == if lineup <= 5 then 4 else 3
    {
      ScheduledRideCounts(side, lineup);
    }
    ScheduledRideCounts(Home, 6);
  }

  /** The rider-replacement ceilings raise both ordinary ceilings. */
  lemma ReplacementCeilingsRaiseLimits()
    ensures DefaultRules.rideLimits.rrMainMax > DefaultRules.rideLimits.mainMax
    ensures DefaultRules.rideLimits.rrReserveMax > DefaultRules.rideLimits.reserveMax
    ensures DefaultRules.nominations.heat14Free && DefaultRules.nominations.heat15Top2OfTop3
  {
  }
}
