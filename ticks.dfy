/** The calls that each step of the game issues, in order: the one-time winterization
    decision, the hourly update and the daily update. `LinkedAt`/`Threaded` state,
    independently of how the steps build their calls, the protocol a log of whole
    steps obeys: which call follows which, and which value flows into which call. */
module Ticks {
  import opened Calls

  /** The hour at which the storm computes the temperatures of a new day. */
  const RegenerationHour: int := 9

  /** What the collaborators answer during one hourly update: the storm's
      temperature for the hour, the usage `hourTick` returns, and the population and
      approval rating the simulation reports. */
  datatype HourAnswers = HourAnswers(
    temperature: Temperature, usage: Usage, population: Population, approval: Approval)

  /** The call issued by either winterization choice. */
  function DecisionCalls(winterized: bool, orange: bool): seq<Call> {
    [ApplyEnergyDonations(Donations, winterized, orange)]
  }

  /** The calls of one hourly update at clock hour `hour`. */
  function HourlyCalls(hour: int, a: HourAnswers, orange: bool): seq<Call> {
    (if hour == RegenerationHour then [RegenerateTemps] else [])
    + [ CalculateTemperatureAtHour(hour, a.temperature),
        HourTick(a.temperature, orange, a.usage),
        ApplyGazzDonations(a.usage, orange),
        GetPurplePopulation(a.population),
        GetAvgPurpleApprovalRating(a.approval),
        ApplyPurpleGrassrootsDonations(a.population, a.approval) ]
  }

  /** The calls of one daily update, where `buyGenerators` answers `purchases`. */
  function DailyCalls(purchases: Purchases, winterized: bool, orange: bool): seq<Call> {
    [ BuyGenerators(purchases),
      ApplyGeneratorDonations(purchases, orange),
      ApplyEnergyDonations(Simulation, winterized, orange) ]
  }

  /** Issuing the calls of an hourly update one after the other appends them all. */
  lemma HourlyCallsOneByOne(log: seq<Call>, hour: int, a: HourAnswers, orange: bool)
    ensures (if hour == RegenerationHour then log + [RegenerateTemps] else log)
      + [CalculateTemperatureAtHour(hour, a.temperature)]
      + [HourTick(a.temperature, orange, a.usage)]
      + [ApplyGazzDonations(a.usage, orange)]
      + [GetPurplePopulation(a.population)]
      + [GetAvgPurpleApprovalRating(a.approval)]
      + [ApplyPurpleGrassrootsDonations(a.population, a.approval)]
      == log + HourlyCalls(hour, a, orange)
  {
  }

  /** Issuing the calls of a daily update one after the other appends them all. */
  lemma DailyCallsOneByOne(log: seq<Call>, purchases: Purchases, winterized: bool, orange: bool)
    ensures log + [BuyGenerators(purchases)]
      + [ApplyGeneratorDonations(purchases, orange)]
      + [ApplyEnergyDonations(Simulation, winterized, orange)]
      == log + DailyCalls(purchases, winterized, orange)
  {
  }

  /** The call at position `i` stands where the tick protocol puts it: its
      neighbours are the calls that must precede and follow it, and it passes on
      exactly the values those queries answered. */
  predicate LinkedAt(s: seq<Call>, i: nat)
    requires i < |s|
  {
    match s[i]
    case RegenerateTemps =>
      i + 1 < |s| && s[i + 1].CalculateTemperatureAtHour? && s[i + 1].hour == RegenerationHour
    case CalculateTemperatureAtHour(hour, t) =>
      (hour == RegenerationHour ==> 0 < i && s[i - 1] == RegenerateTemps)
      && i + 1 < |s| && s[i + 1].HourTick? && s[i + 1].temperature == t
    case HourTick(t, o, u) =>
      0 < i && s[i - 1].CalculateTemperatureAtHour? && s[i - 1].temperature == t
      && i + 1 < |s| && s[i + 1] == ApplyGazzDonations(u, o)
    case ApplyGazzDonations(u, o) =>
      0 < i && s[i - 1].HourTick? && s[i - 1].usage == u && s[i - 1].orange == o
      && i + 3 < |s| && s[i + 1].GetPurplePopulation? && s[i + 2].GetAvgPurpleApprovalRating?
      && s[i + 3] == ApplyPurpleGrassrootsDonations(s[i + 1].population, s[i + 2].approval)
    case ApplyPurpleGrassrootsDonations(p, a) =>
      2 < i && s[i - 3].ApplyGazzDonations?
      && s[i - 2] == GetPurplePopulation(p) && s[i - 1] == GetAvgPurpleApprovalRating(a)
    case BuyGenerators(p) =>
      i + 1 < |s| && s[i + 1].ApplyGeneratorDonations? && s[i + 1].purchases == p
    case ApplyGeneratorDonations(p, o) =>
      0 < i && s[i - 1] == BuyGenerators(p)
      && i + 1 < |s| && s[i + 1].ApplyEnergyDonations? && s[i + 1].receiver == Simulation
      && s[i + 1].orange == o
    case ApplyEnergyDonations(r, _, o) =>
      r == Simulation ==> 0 < i && s[i - 1].ApplyGeneratorDonations? && s[i - 1].orange == o
    case _ => true
  }

  /** Every call of `s` stands where the tick protocol puts it. */
  predicate Threaded(s: seq<Call>) {
    forall i :: 0 <= i < |s| ==> LinkedAt(s, i)
  }

  lemma HourlyCallsThreaded(hour: int, a: HourAnswers, orange: bool)
    ensures Threaded(HourlyCalls(hour, a, orange))
  {
    var s := HourlyCalls(hour, a, orange);
    var k := if hour == RegenerationHour then 1 else 0;
    assert hour == RegenerationHour ==> s[0] == RegenerateTemps;
    assert s[k] == CalculateTemperatureAtHour(hour, a.temperature);
    forall i | 0 <= i < |s| ensures LinkedAt(s, i) {
      assert i < k || i - k in {0, 1, 2, 3, 4, 5};
    }
  }

  lemma DailyCallsThreaded(purchases: Purchases, winterized: bool, orange: bool)
    ensures Threaded(DailyCalls(purchases, winterized, orange))
  {
    var s := DailyCalls(purchases, winterized, orange);
    assert LinkedAt(s, 0) && LinkedAt(s, 1) && LinkedAt(s, 2);
  }

  /** Appending one log that keeps the protocol to another keeps it. */
  lemma ThreadedAppend(a: seq<Call>, b: seq<Call>)
    requires Threaded(a) && Threaded(b)
    ensures Threaded(a + b)
  {
    var s := a + b;
    forall i | 0 <= i < |s| ensures LinkedAt(s, i) {
      if i < |a| {
        assert LinkedAt(a, i);
      } else {
        assert LinkedAt(b, i - |a|);
      }
    }
  }

  /** An hourly update regenerates the storm's temperatures if and only if the
      clock reads hour 9, and then does so before it asks for the temperature. */
  lemma HourlyRegeneration(hour: int, a: HourAnswers, orange: bool)
    ensures var s := HourlyCalls(hour, a, orange);
      && (RegenerateTemps in s <==> hour == RegenerationHour)
      && (hour == RegenerationHour ==>
            s[0] == RegenerateTemps && s[1] == CalculateTemperatureAtHour(hour, a.temperature))
  {
    var s := HourlyCalls(hour, a, orange);
    var k := if hour == RegenerationHour then 1 else 0;
    forall i | k <= i < |s| ensures s[i] != RegenerateTemps {
      assert i - k in {0, 1, 2, 3, 4, 5};
    }
  }

  /** An hourly update asks the storm for the temperature of the clock's hour, hands
      that temperature to `hourTick`, hands what `hourTick` returns to the gazz
      donations, and applies the grassroots donations after them with the population
      and approval the simulation reported. */
  lemma HourlyThreadsValues(hour: int, a: HourAnswers, orange: bool, i: nat)
    requires i < |HourlyCalls(hour, a, orange)|
    ensures var s := HourlyCalls(hour, a, orange);
      (s[i].CalculateTemperatureAtHour? ==> s[i].hour == hour)
      && (s[i].HourTick? ==>
            0 < i && s[i - 1].CalculateTemperatureAtHour? && s[i - 1].temperature == s[i].temperature)
      && (s[i].ApplyGazzDonations? ==> 0 < i && s[i - 1].HourTick? && s[i - 1].usage == s[i].usage)
      && (s[i].ApplyPurpleGrassrootsDonations? ==>
            2 < i && s[i - 3].ApplyGazzDonations?
            && s[i - 2] == GetPurplePopulation(s[i].population)
            && s[i - 1] == GetAvgPurpleApprovalRating(s[i].approval))
  {
    HourlyCallsThreaded(hour, a, orange);
    var s := HourlyCalls(hour, a, orange);
    assert LinkedAt(s, i);
    var k := if hour == RegenerationHour then 1 else 0;
    assert i < k || i - k in {0, 1, 2, 3, 4, 5};
  }
}
