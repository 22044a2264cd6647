/** The operations a game has performed so far, and the log of collaborator calls
    they issue. The game's state (policy flag, clock, governor) is a function of
    this history, and so is its call log: `Render`. The lemmas here state what every
    such log satisfies, however the operations were interleaved. */
module History {
  import opened Calls
  import opened Ticks

  /** One operation of the game, with what its collaborators answered. */
  datatype Event =
    | Skipped                                // skipWinterization
    | Winterized                             // winterize
    | Continued                              // continueGame
    | Hour(hour: int, answers: HourAnswers)  // hourlyUpdate at clock hour `hour`
    | Day(purchases: Purchases)              // dailyUpdate, `buyGenerators` answering `purchases`
    | Resigned                               // resignGovernor

  /** `simulation.gridWinterized` after the operations `h`, starting from `initial`. */
  function WinterizedAfter(h: seq<Event>, initial: bool): bool {
    if h == [] then initial
    else match h[|h| - 1]
      case Skipped => false
      case Winterized => true
      case _ => WinterizedAfter(h[..|h| - 1], initial)
  }

  /** Whether the clock is running after the operations `h` (it starts stopped). */
  function ClockRunningAfter(h: seq<Event>): bool {
    if h == [] then false
    else match h[|h| - 1]
      case Continued => true
      case Resigned => false
      case _ => ClockRunningAfter(h[..|h| - 1])
  }

  function Resignations(h: seq<Event>): nat {
    if h == [] then 0 else Resignations(h[..|h| - 1]) + (if h[|h| - 1].Resigned? then 1 else 0)
  }

  /** The number of hourly updates in `h`. */
  function Hours(h: seq<Event>): nat {
    if h == [] then 0 else Hours(h[..|h| - 1]) + (if h[|h| - 1].Hour? then 1 else 0)
  }

  /** The number of hourly updates in `h` at the regeneration hour. */
  function RegenerationHours(h: seq<Event>): nat {
    if h == [] then 0
    else
      var e := h[|h| - 1];
      RegenerationHours(h[..|h| - 1]) + (if e.Hour? && e.hour == RegenerationHour then 1 else 0)
  }

  /** The number of daily updates in `h`. */
  function Days(h: seq<Event>): nat {
    if h == [] then 0 else Days(h[..|h| - 1]) + (if h[|h| - 1].Day? then 1 else 0)
  }

  /** The number of winterization choices in `h`. */
  function Decisions(h: seq<Event>): nat {
    if h == [] then 0
    else Decisions(h[..|h| - 1]) + (if h[|h| - 1].Skipped? || h[|h| - 1].Winterized? then 1 else 0)
  }

  /** The calls operation `e` issues when the policy flag reads `winterized`. */
  function CallsOf(e: Event, winterized: bool, orange: bool): seq<Call> {
    match e
    case Skipped => DecisionCalls(false, orange)
    case Winterized => DecisionCalls(true, orange)
    case Continued => []
    case Hour(hour, a) => HourlyCalls(hour, a, orange)
    case Day(p) => DailyCalls(p, winterized, orange)
    case Resigned => []
  }

  /** The call log of the operations `h`. */
  function Render(h: seq<Event>, initial: bool, orange: bool): seq<Call> {
    if h == [] then []
    else
      var p := h[..|h| - 1];
      Render(p, initial, orange) + CallsOf(h[|h| - 1], WinterizedAfter(p, initial), orange)
  }

  /** Performing one more operation extends the history's state and log by that
      operation alone. */
  lemma Extend(h: seq<Event>, e: Event, initial: bool, orange: bool)
    ensures Render(h + [e], initial, orange)
      == Render(h, initial, orange) + CallsOf(e, WinterizedAfter(h, initial), orange)
    ensures WinterizedAfter(h + [e], initial)
      == match e
         case Skipped => false
         case Winterized => true
         case _ => WinterizedAfter(h, initial)
    ensures ClockRunningAfter(h + [e])
      == match e
         case Continued => true
         case Resigned => false
         case _ => ClockRunningAfter(h)
    ensures Resignations(h + [e]) == Resignations(h) + (if e.Resigned? then 1 else 0)
  {
    assert (h + [e])[..|h|] == h;
  }

  /** How many calls of kind `k` one operation issues. */
  lemma CallsOfCount(e: Event, w: bool, orange: bool, k: CallKind)
    ensures Count(CallsOf(e, w, orange), k) == EventTally(e, k)
  {
    match e
    case Hour(hour, a) => HourlyCallsCount(hour, a, orange, k);
    case Day(n) =>
      CountTriple(BuyGenerators(n), ApplyGeneratorDonations(n, orange), ApplyEnergyDonations(Simulation, w, orange), k);
    case Skipped => assert [ApplyEnergyDonations(Donations, false, orange)][1..] == [];
    case Winterized => assert [ApplyEnergyDonations(Donations, true, orange)][1..] == [];
    case _ =>
  }

  /** How many calls of kind `k` operation `e` is meant to issue. */
  function EventTally(e: Event, k: CallKind): nat {
    match k
    case RegenerateTempsCall => if e.Hour? && e.hour == RegenerationHour then 1 else 0
    case TemperatureCall => if e.Hour? then 1 else 0
    case HourTickCall => if e.Hour? then 1 else 0
    case GazzDonationsCall => if e.Hour? then 1 else 0
    case PopulationCall => if e.Hour? then 1 else 0
    case ApprovalCall => if e.Hour? then 1 else 0
    case GrassrootsDonationsCall => if e.Hour? then 1 else 0
    case BuyGeneratorsCall => if e.Day? then 1 else 0
    case GeneratorDonationsCall => if e.Day? then 1 else 0
    case EnergyDonationsCall => if e.Day? || e.Skipped? || e.Winterized? then 1 else 0
  }

  lemma HourlyCallsCount(hour: int, a: HourAnswers, orange: bool, k: CallKind)
    ensures Count(HourlyCalls(hour, a, orange), k) == EventTally(Hour(hour, a), k)
  {
    var tick := HourlyCalls(hour, a, orange)[if hour == RegenerationHour then 1 else 0..];
    TickCallsCount(tick, k);
    if hour == RegenerationHour {
      assert HourlyCalls(hour, a, orange) == [RegenerateTemps] + tick;
      CountAppend([RegenerateTemps], tick, k);
      assert [RegenerateTemps][1..] == [];
    } else {
      assert HourlyCalls(hour, a, orange) == tick;
    }
  }

  /** The calls of an hourly update after the optional regeneration. */
  lemma TickCallsCount(tick: seq<Call>, k: CallKind)
    requires |tick| == 6
    requires tick[0].CalculateTemperatureAtHour? && tick[1].HourTick? && tick[2].ApplyGazzDonations?
    requires tick[3].GetPurplePopulation? && tick[4].GetAvgPurpleApprovalRating?
    requires tick[5].ApplyPurpleGrassrootsDonations?
    ensures Count(tick, k)
      == if k in {TemperatureCall, HourTickCall, GazzDonationsCall, PopulationCall,
                  ApprovalCall, GrassrootsDonationsCall} then 1 else 0
  {
    assert tick == tick[..3] + tick[3..];
    CountAppend(tick[..3], tick[3..], k);
    CountTriple(tick[0], tick[1], tick[2], k);
    CountTriple(tick[3], tick[4], tick[5], k);
    assert tick[..3] == [tick[0], tick[1], tick[2]] && tick[3..] == [tick[3], tick[4], tick[5]];
  }

  /** How many calls of kind `k` the operations `h` are meant to issue. */
  function Tally(h: seq<Event>, k: CallKind): nat {
    if h == [] then 0 else Tally(h[..|h| - 1], k) + EventTally(h[|h| - 1], k)
  }

  /** The log of any history holds exactly the calls its operations issue. */
  lemma {:induction false} RenderCount(h: seq<Event>, initial: bool, orange: bool, k: CallKind)
    ensures Count(Render(h, initial, orange), k) == Tally(h, k)
  {
    if h != [] {
      var p, e := h[..|h| - 1], h[|h| - 1];
      var w := WinterizedAfter(p, initial);
      RenderCount(p, initial, orange, k);
      CountAppend(Render(p, initial, orange), CallsOf(e, w, orange), k);
      CallsOfCount(e, w, orange, k);
    }
  }

  lemma {:induction false} TallyByOperation(h: seq<Event>)
    ensures Tally(h, TemperatureCall) == Hours(h)
    ensures Tally(h, HourTickCall) == Hours(h)
    ensures Tally(h, GazzDonationsCall) == Hours(h)
    ensures Tally(h, GrassrootsDonationsCall) == Hours(h)
    ensures Tally(h, PopulationCall) == Hours(h)
    ensures Tally(h, ApprovalCall) == Hours(h)
    ensures Tally(h, RegenerateTempsCall) == RegenerationHours(h)
    ensures Tally(h, BuyGeneratorsCall) == Days(h)
    ensures Tally(h, GeneratorDonationsCall) == Days(h)
    ensures Tally(h, EnergyDonationsCall) == Decisions(h) + Days(h)
  {
    if h != [] {
      TallyByOperation(h[..|h| - 1]);
    }
  }

  /** The log of any history holds one temperature query, one `hourTick`, one gazz
      donation, one population and one approval query and one grassroots donation
      per hourly update, one regeneration per hourly
      update at hour 9, one generator purchase and one generator donation per daily
      update, and one energy donation per winterization choice and per daily update. */
  lemma RenderCounts(h: seq<Event>, initial: bool, orange: bool)
    ensures var r := Render(h, initial, orange);
      && Count(r, TemperatureCall) == Hours(h)
      && Count(r, HourTickCall) == Hours(h)
      && Count(r, GazzDonationsCall) == Hours(h)
      && Count(r, GrassrootsDonationsCall) == Hours(h)
      && Count(r, PopulationCall) == Hours(h)
      && Count(r, ApprovalCall) == Hours(h)
      && Count(r, RegenerateTempsCall) == RegenerationHours(h)
      && Count(r, BuyGeneratorsCall) == Days(h)
      && Count(r, GeneratorDonationsCall) == Days(h)
      && Count(r, EnergyDonationsCall) == Decisions(h) + Days(h)
  {
    TallyByOperation(h);
    RenderCount(h, initial, orange, TemperatureCall);
    RenderCount(h, initial, orange, HourTickCall);
    RenderCount(h, initial, orange, GazzDonationsCall);
    RenderCount(h, initial, orange, GrassrootsDonationsCall);
    RenderCount(h, initial, orange, PopulationCall);
    RenderCount(h, initial, orange, ApprovalCall);
    RenderCount(h, initial, orange, RegenerateTempsCall);
    RenderCount(h, initial, orange, BuyGeneratorsCall);
    RenderCount(h, initial, orange, GeneratorDonationsCall);
    RenderCount(h, initial, orange, EnergyDonationsCall);
  }

  /** The log of any history keeps the tick protocol. */
  lemma {:induction false} RenderThreaded(h: seq<Event>, initial: bool, orange: bool)
    ensures Threaded(Render(h, initial, orange))
  {
    if h != [] {
      var p, e := h[..|h| - 1], h[|h| - 1];
      var w := WinterizedAfter(p, initial);
      RenderThreaded(p, initial, orange);
      if e.Hour? {
        HourlyCallsThreaded(e.hour, e.answers, orange);
      } else if e.Day? {
        DailyCallsThreaded(e.purchases, w, orange);
      }
      ThreadedAppend(Render(p, initial, orange), CallsOf(e, w, orange));
    }
  }

  lemma CallsOfOnlyFaction(e: Event, w: bool, orange: bool)
    ensures OnlyFaction(CallsOf(e, w, orange), orange)
  {
    if e.Hour? {
      var s := CallsOf(e, w, orange);
      var k := if e.hour == RegenerationHour then 1 else 0;
      forall j | 0 <= j < |s| ensures s[j].ForFaction(orange) {
        assert j < k || j - k in {0, 1, 2, 3, 4, 5};
      }
    }
  }

  lemma OnlyFactionAppend(a: seq<Call>, b: seq<Call>, f: bool)
    requires OnlyFaction(a, f) && OnlyFaction(b, f)
    ensures OnlyFaction(a + b, f)
  {
    forall i | 0 <= i < |a + b| ensures (a + b)[i].ForFaction(f) {
      if i < |a| {
        assert (a + b)[i] == a[i];
      } else {
        assert (a + b)[i] == b[i - |a|];
      }
    }
  }

  /** Every faction argument in the log of any history is the faction in power. */
  lemma {:induction false} RenderOnlyFaction(h: seq<Event>, initial: bool, orange: bool)
    ensures OnlyFaction(Render(h, initial, orange), orange)
  {
    if h != [] {
      var p, e := h[..|h| - 1], h[|h| - 1];
      var w := WinterizedAfter(p, initial);
      RenderOnlyFaction(p, initial, orange);
      CallsOfOnlyFaction(e, w, orange);
      OnlyFactionAppend(Render(p, initial, orange), CallsOf(e, w, orange), orange);
    }
  }

  /** The winterization flag a log sets: the flag of its last decision call to the
      donation ledger, or `initial` when it has none. */
  function Policy(s: seq<Call>, initial: bool): bool {
    if s == [] then initial
    else if s[|s| - 1].ApplyEnergyDonations? && s[|s| - 1].receiver == Donations
    then s[|s| - 1].winterized
    else Policy(s[..|s| - 1], initial)
  }

  predicate SetsNoPolicy(s: seq<Call>) {
    forall i :: 0 <= i < |s| ==> !(s[i].ApplyEnergyDonations? && s[i].receiver == Donations)
  }

  lemma {:induction false} PolicyAppend(a: seq<Call>, b: seq<Call>, initial: bool)
    ensures Policy(a + b, initial) == Policy(b, Policy(a, initial))
  {
    if b == [] {
      assert a + b == a;
    } else {
      assert (a + b)[..|a + b| - 1] == a + b[..|b| - 1];
      PolicyAppend(a, b[..|b| - 1], initial);
    }
  }

  lemma {:induction false} PolicyUnset(s: seq<Call>, initial: bool)
    requires SetsNoPolicy(s)
    ensures Policy(s, initial) == initial
  {
    if s != [] {
      PolicyUnset(s[..|s| - 1], initial);
    }
  }

  /** The flag the log of a history sets is the history's `gridWinterized`. */
  lemma {:induction false} RenderPolicy(h: seq<Event>, initial: bool, orange: bool)
    ensures Policy(Render(h, initial, orange), initial) == WinterizedAfter(h, initial)
  {
    if h != [] {
      var p, e := h[..|h| - 1], h[|h| - 1];
      var w := WinterizedAfter(p, initial);
      RenderPolicy(p, initial, orange);
      PolicyAppend(Render(p, initial, orange), CallsOf(e, w, orange), initial);
      var s := CallsOf(e, w, orange);
      CallsOfCount(e, w, orange, EnergyDonationsCall);
      CountZero(CallsOf(e, w, orange), EnergyDonationsCall);
      if !e.Skipped? && !e.Winterized? {
        PolicyUnset(s, w);
      }
    }
  }

  /** Every energy donation made to the simulation in `log` passes the flag that
      the decision calls before it set. */
  predicate DailyFlagsCurrent(log: seq<Call>, initial: bool) {
    forall i :: 0 <= i < |log| && log[i].ApplyEnergyDonations? && log[i].receiver == Simulation
      ==> log[i].winterized == Policy(log[..i], initial)
  }

  /** Each daily energy donation in the log of any history passes the winterization
      flag in force at that point: the one the preceding decision call set. */
  lemma {:induction false} RenderDailyFlagIsCurrent(h: seq<Event>, initial: bool, orange: bool)
    ensures DailyFlagsCurrent(Render(h, initial, orange), initial)
  {
    if h != [] {
      var p, e := h[..|h| - 1], h[|h| - 1];
      var w := WinterizedAfter(p, initial);
      RenderDailyFlagIsCurrent(p, initial, orange);
      var a: seq<Call>, b: seq<Call> := Render(p, initial, orange), CallsOf(e, w, orange);
      var r := a + b;
      assert DailyFlagsCurrent(a, initial);
      CallsOfCount(e, w, orange, EnergyDonationsCall);
      CountZero(CallsOf(e, w, orange), EnergyDonationsCall);
      forall i | 0 <= i < |r| && r[i].ApplyEnergyDonations? && r[i].receiver == Simulation
        ensures r[i].winterized == Policy(r[..i], initial)
      {
        if i < |a| {
          assert r[i] == a[i] && r[..i] == a[..i];
        } else {
          var j := i - |a|;
          assert r[i] == b[j];
          assert e.Day? && j == 2;
          assert r[..i] == a + b[..2];
          PolicyAppend(a, b[..2], initial);
          RenderPolicy(p, initial, orange);
          assert Policy(a, initial) == w;
          assert SetsNoPolicy(b[..2]);
          PolicyUnset(b[..2], Policy(a, initial));
          assert Policy(r[..i], initial) == w;
          assert b[2].winterized == w;
        }
      }
    }
  }
}
