/** The calls the game issues into its collaborators (the simulation, its donation
    ledger and the storm), each recorded with the arguments it is passed and, for a
    query, the value it answers. A run of the game is described by the sequence of
    these calls in the order they are issued. */
module Calls {

  /** Values that the collaborators compute in floating point. They are opaque in
      this model: nothing here computes with them, they are only passed along. */
  type Temperature = real
  type Usage = real
  type Approval = real
  type Population = int
  type Purchases = int

  /** The object that receives an `applyEnergyDonations` call: the donation ledger
      (`simulation.donations`) or the simulation object itself. */
  datatype Receiver = Donations | Simulation

  /** One collaborator call. `orange` is the faction-in-power argument. */
  datatype Call =
    | ApplyEnergyDonations(receiver: Receiver, winterized: bool, orange: bool)
    | RegenerateTemps
    | CalculateTemperatureAtHour(hour: int, temperature: Temperature)
    | HourTick(temperature: Temperature, orange: bool, usage: Usage)
    | ApplyGazzDonations(usage: Usage, orange: bool)
    | GetPurplePopulation(population: Population)
    | GetAvgPurpleApprovalRating(approval: Approval)
    | ApplyPurpleGrassrootsDonations(population: Population, approval: Approval)
    | BuyGenerators(purchases: Purchases)
    | ApplyGeneratorDonations(purchases: Purchases, orange: bool)
  {
    /** The call's kind, forgetting its arguments. */
    function Kind(): CallKind {
      match this
      case ApplyEnergyDonations(_, _, _) => EnergyDonationsCall
      case RegenerateTemps => RegenerateTempsCall
      case CalculateTemperatureAtHour(_, _) => TemperatureCall
      case HourTick(_, _, _) => HourTickCall
      case ApplyGazzDonations(_, _) => GazzDonationsCall
      case GetPurplePopulation(_) => PopulationCall
      case GetAvgPurpleApprovalRating(_) => ApprovalCall
      case ApplyPurpleGrassrootsDonations(_, _) => GrassrootsDonationsCall
      case BuyGenerators(_) => BuyGeneratorsCall
      case ApplyGeneratorDonations(_, _) => GeneratorDonationsCall
    }

    /** The call passes faction `f` as its faction argument, or takes none. */
    predicate ForFaction(f: bool) {
      match this
      case ApplyEnergyDonations(_, _, o) => o == f
      case HourTick(_, o, _) => o == f
      case ApplyGazzDonations(_, o) => o == f
      case ApplyGeneratorDonations(_, o) => o == f
      case _ => true
    }
  }

  datatype CallKind =
    | EnergyDonationsCall
    | RegenerateTempsCall
    | TemperatureCall
    | HourTickCall
    | GazzDonationsCall
    | PopulationCall
    | ApprovalCall
    | GrassrootsDonationsCall
    | BuyGeneratorsCall
    | GeneratorDonationsCall

  /** The number of calls of kind `k` in `log`. */
  function Count(log: seq<Call>, k: CallKind): (n: nat)
    ensures n <= |log|
  {
    if log == [] then 0
    else (if log[0].Kind() == k then 1 else 0) + Count(log[1..], k)
  }

  lemma {:induction false} CountAppend(a: seq<Call>, b: seq<Call>, k: CallKind)
    ensures Count(a + b, k) == Count(a, k) + Count(b, k)
  {
    if a == [] {
      assert a + b == b;
    } else {
      assert (a + b)[1..] == a[1..] + b;
      CountAppend(a[1..], b, k);
    }
  }

  lemma CountTriple(x: Call, y: Call, z: Call, k: CallKind)
    ensures Count([x, y, z], k)
      == (if x.Kind() == k then 1 else 0) + (if y.Kind() == k then 1 else 0) + (if z.Kind() == k then 1 else 0)
  {
    assert [x, y, z] == [x] + [y] + [z];
    CountAppend([x] + [y], [z], k);
    CountAppend([x], [y], k);
    assert [x][1..] == [] && [y][1..] == [] && [z][1..] == [];
  }

  /** A log without calls of kind `k` counts none of them, and conversely. */
  lemma {:induction false} CountZero(log: seq<Call>, k: CallKind)
    ensures Count(log, k) == 0 <==> forall i :: 0 <= i < |log| ==> log[i].Kind() != k
  {
    if log != [] {
      CountZero(log[1..], k);
      assert forall i :: 0 < i < |log| ==> log[i] == log[1..][i - 1];
    }
  }

  /** Every call in `log` that takes a faction argument passes `f`. */
  predicate OnlyFaction(log: seq<Call>, f: bool) {
    forall i :: 0 <= i < |log| ==> log[i].ForFaction(f)
  }
}
