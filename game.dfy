/** The game orchestrator: the winterization decision, starting and stopping the
    clock, the hourly and daily updates and the rotation of governors. Each step
    issues its collaborator calls in a fixed order; they are appended to `log`. */
module Orchestration {
  import opened Calls
  import opened Ticks
  import opened History
  import opened Governors

  /** The holder of the game's clock and storm. Of the clock only whether its
      driver is armed is modelled; the storm has no state of its own here. */
  class GameState {
    var clockRunning: bool

    constructor ()
      ensures !clockRunning
    {
      clockRunning := false;
    }
  }

  class Game {
    /** The number of names in the list of governors. */
    const governorCount: nat
    /** The simulation's winterization flag before the player decides. */
    const initialWinterized: bool
    const gameState: GameState

    var orangeGovernor: bool
    var currentGovernorIndex: nat
    /** The simulation's `gridWinterized` flag. */
    var gridWinterized: bool
    /** The collaborator calls issued so far, in order. */
    var log: seq<Call>
    /** The operations performed so far. */
    ghost var history: seq<Event>

    /** The game's state is the one its history of operations produces. */
    ghost predicate Valid()
      reads this, gameState
    {
      && orangeGovernor
      && currentGovernorIndex == GovernorIndexAfter(Resignations(history), governorCount)
      && gridWinterized == WinterizedAfter(history, initialWinterized)
      && gameState.clockRunning == ClockRunningAfter(history)
      && log == Render(history, initialWinterized, orangeGovernor)
    }

    constructor (governorCount: nat, initialWinterized: bool)
      ensures Valid() && fresh(gameState)
      ensures this.governorCount == governorCount && this.initialWinterized == initialWinterized
      ensures orangeGovernor && currentGovernorIndex == 0 && gridWinterized == initialWinterized
      ensures !gameState.clockRunning && log == [] && history == []
    {
      this.governorCount := governorCount;
      this.initialWinterized := initialWinterized;
      gameState := new GameState();
      orangeGovernor := true;
      currentGovernorIndex := 0;
      gridWinterized := initialWinterized;
      log := [];
      history := [];
    }

    /** Issues collaborator call `c`. */
    method Issue(c: Call)
      modifies this`log
      ensures log == old(log) + [c]
    {
      log := log + [c];
    }

    /** The player declines to winterize the grid. */
    method SkipWinterization()
      requires Valid()
      modifies this`gridWinterized, this`log, this`history
      ensures Valid()
      ensures !gridWinterized
      ensures log == old(log) + [ApplyEnergyDonations(Donations, false, orangeGovernor)]
      ensures history == old(history) + [Skipped]
    {
      Extend(history, Skipped, initialWinterized, orangeGovernor);
      gridWinterized := false;
      Issue(ApplyEnergyDonations(Donations, false, orangeGovernor));
      history := history + [Skipped];
    }

    /** The player winterizes the grid. */
    method Winterize()
      requires Valid()
      modifies this`gridWinterized, this`log, this`history
      ensures Valid()
      ensures gridWinterized
      ensures log == old(log) + [ApplyEnergyDonations(Donations, true, orangeGovernor)]
      ensures history == old(history) + [Winterized]
    {
      Extend(history, Winterized, initialWinterized, orangeGovernor);
      gridWinterized := true;
      Issue(ApplyEnergyDonations(Donations, true, orangeGovernor));
      history := history + [Winterized];
    }

    /** The player acknowledges a dialog: the clock starts (again), without any
        collaborator call and without touching the policy or the governor. */
    method ContinueGame()
      requires Valid()
      modifies this`history, gameState`clockRunning
      ensures Valid()
      ensures gameState.clockRunning
      ensures log == old(log) && gridWinterized == old(gridWinterized)
      ensures currentGovernorIndex == old(currentGovernorIndex)
      ensures history == old(history) + [Continued]
    {
      Extend(history, Continued, initialWinterized, orangeGovernor);
      gameState.clockRunning := true;
      history := history + [Continued];
    }

    /** The clock reached a new hour `hour`; `answers` are what the storm and the
        simulation return to the queries of this update. */
    method HourlyUpdate(hour: int, answers: HourAnswers)
      requires Valid()
      modifies this`log, this`history
      ensures Valid()
      ensures log == old(log) + HourlyCalls(hour, answers, orangeGovernor)
      ensures history == old(history) + [Hour(hour, answers)]
    {
      ghost var before := log;
      if hour == RegenerationHour {
        Issue(RegenerateTemps);
      }
      var temperature := answers.temperature;
      Issue(CalculateTemperatureAtHour(hour, temperature));
      var hourlyGazzUsage := answers.usage;
      Issue(HourTick(temperature, orangeGovernor, hourlyGazzUsage));
      Issue(ApplyGazzDonations(hourlyGazzUsage, orangeGovernor));
      var population := answers.population;
      Issue(GetPurplePopulation(population));
      var approval := answers.approval;
      Issue(GetAvgPurpleApprovalRating(approval));
      Issue(ApplyPurpleGrassrootsDonations(population, approval));
      HourlyCallsOneByOne(before, hour, answers, orangeGovernor);
      Extend(history, Hour(hour, answers), initialWinterized, orangeGovernor);
      history := history + [Hour(hour, answers)];
    }

    /** The clock reached a new day; `buyGenerators` answers `generatorPurchases`. */
    method DailyUpdate(generatorPurchases: Purchases)
      requires Valid()
      modifies this`log, this`history
      ensures Valid()
      ensures log == old(log) + [ BuyGenerators(generatorPurchases),
                                  ApplyGeneratorDonations(generatorPurchases, orangeGovernor),
                                  ApplyEnergyDonations(Simulation, gridWinterized, orangeGovernor) ]
      ensures history == old(history) + [Day(generatorPurchases)]
    {
      ghost var before := log;
      Issue(BuyGenerators(generatorPurchases));
      Issue(ApplyGeneratorDonations(generatorPurchases, orangeGovernor));
      Issue(ApplyEnergyDonations(Simulation, gridWinterized, orangeGovernor));
      DailyCallsOneByOne(before, generatorPurchases, gridWinterized, orangeGovernor);
      Extend(history, Day(generatorPurchases), initialWinterized, orangeGovernor);
      history := history + [Day(generatorPurchases)];
    }

    /** The governor resigns: the clock stops and the next governor in the list takes
        office; the policy and the call log stay as they are. */
    method ResignGovernor()
      requires Valid()
      modifies this`currentGovernorIndex, this`history, gameState`clockRunning
      ensures Valid()
      ensures !gameState.clockRunning
      ensures currentGovernorIndex == NextGovernorIndex(old(currentGovernorIndex), governorCount)
      ensures log == old(log) && gridWinterized == old(gridWinterized)
      ensures history == old(history) + [Resigned]
    {
      Extend(history, Resigned, initialWinterized, orangeGovernor);
      gameState.clockRunning := false;
      currentGovernorIndex := currentGovernorIndex + 1;
      if currentGovernorIndex >= governorCount {
        currentGovernorIndex := 0;
      }
      history := history + [Resigned];
    }

    /** The governor index stays within the list, and after `n` resignations it is
        `n` modulo the length of the list. */
    lemma GovernorIndexInRange()
      requires Valid()
      ensures governorCount > 0 ==> currentGovernorIndex < governorCount
      ensures governorCount > 0 ==> currentGovernorIndex == Resignations(history) % governorCount
      ensures governorCount == 0 ==> currentGovernorIndex == 0
    {
      if governorCount > 0 {
        GovernorIndexAfterIsModulo(Resignations(history), governorCount);
      }
    }

    /** The call log keeps the tick protocol, passes only the faction in power, and
        every daily energy donation in it passes the policy in force; the policy the
        log sets is `gridWinterized`. */
    lemma LogFollowsProtocol()
      requires Valid()
      ensures Threaded(log)
      ensures OnlyFaction(log, true)
      ensures DailyFlagsCurrent(log, initialWinterized)
      ensures Policy(log, initialWinterized) == gridWinterized
    {
      RenderThreaded(history, initialWinterized, orangeGovernor);
      RenderOnlyFaction(history, initialWinterized, orangeGovernor);
      RenderDailyFlagIsCurrent(history, initialWinterized, orangeGovernor);
      RenderPolicy(history, initialWinterized, orangeGovernor);
    }

    /** The call log holds exactly the calls of the updates and decisions made. */
    lemma LogCounts()
      requires Valid()
      ensures forall k :: Count(log, k) == Tally(history, k)
      ensures Count(log, TemperatureCall) == Hours(history)
      ensures Count(log, HourTickCall) == Hours(history)
      ensures Count(log, GazzDonationsCall) == Hours(history)
      ensures Count(log, GrassrootsDonationsCall) == Hours(history)
      ensures Count(log, PopulationCall) == Hours(history)
      ensures Count(log, ApprovalCall) == Hours(history)
      ensures Count(log, RegenerateTempsCall) == RegenerationHours(history)
      ensures Count(log, BuyGeneratorsCall) == Days(history)
      ensures Count(log, GeneratorDonationsCall) == Days(history)
      ensures Count(log, EnergyDonationsCall) == Decisions(history) + Days(history)
    {
      forall k ensures Count(log, k) == Tally(history, k) {
        RenderCount(history, initialWinterized, orangeGovernor, k);
      }
      TallyByOperation(history);
    }
  }

  /** A session as the game plays it: a decision, a few ticks, a resignation. */
  method Session(nine: HourAnswers, ten: HourAnswers, purchases: Purchases)
  {
    var game := new Game(3, false);
    game.SkipWinterization();
    game.ContinueGame();
    assert !game.gridWinterized && game.gameState.clockRunning;
    game.HourlyUpdate(9, nine);
    game.HourlyUpdate(10, ten);
    game.DailyUpdate(purchases);
    assert game.log[|game.log| - 1] == ApplyEnergyDonations(Simulation, false, true);
    game.ResignGovernor();
    assert !game.gameState.clockRunning && game.currentGovernorIndex == 1;
    game.ContinueGame();
    assert game.gameState.clockRunning && game.currentGovernorIndex == 1;
    game.ResignGovernor();
    game.ResignGovernor();
    assert game.currentGovernorIndex == 0;
  }
}
