/**
 Properties of the tracker: every operation keeps the zero-together invariant, the
 stored state in step with memory, and the history free of case-insensitive duplicates;
 two doses at one instant fold like a single dose of their sum.
 */
module TrackerProperties {
  import opened Decay
  import opened DataRepository
  import opened HistoryProperties
  import opened CaffeineTracker

  /** The calls the screen makes into the view model, each carrying the clock it reads. */
  datatype Event =
    | AddDose(amount: int, now: int)
    | TickAt(now: int)
    | Restart
    | ResetTracker
    | AddSource(name: string, amount: int, now: int)
    | UpdateSource(oldSource: Source, newName: string, newAmount: int)
    | RemoveSource(source: Source)

  /** `System.currentTimeMillis()` is positive wherever the event reads it. */
  predicate ClockPositive(e: Event) {
    match e
    case AddDose(_, now) => now > 0
    case TickAt(now) => now > 0
    case AddSource(_, _, now) => now > 0
    case _ => true
  }

  function Step(vm: ViewModel, e: Event, decay: DecayFn): ViewModel
    requires IsDecay(decay)
  {
    match e
    case AddDose(amount, now) => AddCaffeine(vm, amount, now, decay)
    case TickAt(now) => Tick(vm, now, decay)
    case Restart => Start(vm)
    case ResetTracker => Reset(vm)
    case AddSource(name, amount, now) => AddCaffeineSource(vm, name, amount, now, decay)
    case UpdateSource(oldSource, newName, newAmount) => UpdateCaffeineSource(vm, oldSource, newName, newAmount).0
    case RemoveSource(source) => RemoveCaffeineSource(vm, source)
  }

  function Run(vm: ViewModel, events: seq<Event>, decay: DecayFn): ViewModel
    requires IsDecay(decay)
    decreases |events|
  {
    if |events| == 0 then vm else Run(Step(vm, events[0], decay), events[1..], decay)
  }

  // ---------------------------------------------------------------------------
  // One operation at a time

  lemma AddCaffeinePreservesInvariant(vm: ViewModel, amount: int, now: int, decay: DecayFn)
    requires IsDecay(decay) && Invariant(vm) && now > 0
    ensures Invariant(AddCaffeine(vm, amount, now, decay))
  {
  }

  lemma TickPreservesInvariant(vm: ViewModel, now: int, decay: DecayFn)
    requires IsDecay(decay) && Invariant(vm)
    ensures Invariant(Tick(vm, now, decay))
  {
  }

  lemma StartPreservesInvariant(vm: ViewModel)
    requires Invariant(vm)
    ensures Invariant(Start(vm))
  {
  }

  lemma AddCaffeineSourcePreservesInvariant(vm: ViewModel, name: string, amount: int, now: int, decay: DecayFn)
    requires IsDecay(decay) && Invariant(vm) && now > 0
    ensures Invariant(AddCaffeineSource(vm, name, amount, now, decay))
  {
    AddPreservesUnique(HistoryList(vm.prefs), Source(name, amount));
  }

  lemma UpdateCaffeineSourcePreservesInvariant(vm: ViewModel, oldSource: Source, newName: string, newAmount: int)
    requires Invariant(vm)
    ensures Invariant(UpdateCaffeineSource(vm, oldSource, newName, newAmount).0)
  {
    UpdatePreservesUnique(HistoryList(vm.prefs), oldSource, newName, newAmount);
  }

  lemma RemoveCaffeineSourcePreservesInvariant(vm: ViewModel, source: Source)
    requires Invariant(vm)
    ensures Invariant(RemoveCaffeineSource(vm, source))
  {
    RemovePreservesUnique(HistoryList(vm.prefs), source);
  }

  lemma StepPreservesInvariant(vm: ViewModel, e: Event, decay: DecayFn)
    requires IsDecay(decay) && Invariant(vm) && ClockPositive(e)
    ensures Invariant(Step(vm, e, decay))
  {
    match e
    case AddDose(amount, now) => AddCaffeinePreservesInvariant(vm, amount, now, decay);
    case TickAt(now) => TickPreservesInvariant(vm, now, decay);
    case Restart => StartPreservesInvariant(vm);
    case ResetTracker =>
    case AddSource(name, amount, now) => AddCaffeineSourcePreservesInvariant(vm, name, amount, now, decay);
    case UpdateSource(oldSource, newName, newAmount) =>
      UpdateCaffeineSourcePreservesInvariant(vm, oldSource, newName, newAmount);
    case RemoveSource(source) => RemoveCaffeineSourcePreservesInvariant(vm, source);
  }

  /** Any sequence of calls keeps the invariant. */
  lemma {:induction false} RunPreservesInvariant(vm: ViewModel, events: seq<Event>, decay: DecayFn)
    requires IsDecay(decay) && Invariant(vm)
    requires forall i | 0 <= i < |events| :: ClockPositive(events[i])
    ensures Invariant(Run(vm, events, decay))
    decreases |events|
  {
    if |events| > 0 {
      StepPreservesInvariant(vm, events[0], decay);
      RunPreservesInvariant(Step(vm, events[0], decay), events[1..], decay);
    }
  }

  /**
   From launch over any stored preferences with a duplicate-free history, after any
   sequence of calls: the initial amount is zero exactly when the time is, the stored
   caffeine state reads back as the in-memory pair, and the history is still duplicate-free.
   */
  lemma SessionKeepsZeroTogether(prefs: Prefs, events: seq<Event>, decay: DecayFn)
    requires IsDecay(decay) && NamesUnique(HistoryList(prefs))
    requires forall i | 0 <= i < |events| :: ClockPositive(events[i])
    ensures var vm := Run(Launch(prefs), events, decay);
      && (vm.tracker.initialMg == 0.0 <==> vm.tracker.lastIngestionMillis == 0)
      && CaffeineState(vm.prefs) == (vm.tracker.initialMg, vm.tracker.lastIngestionMillis)
      && NamesUnique(HistoryList(vm.prefs))
  {
    RunPreservesInvariant(Launch(prefs), events, decay);
  }

  // ---------------------------------------------------------------------------
  // Dose folding

  /** Two doses at the same instant fold into the same state as one dose of their sum. */
  lemma AddCaffeineAdditive(vm: ViewModel, a: int, b: int, now: int, decay: DecayFn)
    requires IsDecay(decay)
    requires a > 0 && b > 0 && now > 0
    ensures AddCaffeine(AddCaffeine(vm, a, now, decay), b, now, decay) == AddCaffeine(vm, a + b, now, decay)
  {
    var once := AddCaffeine(vm, a, now, decay);
    assert Remainder(once.tracker, now, decay) == once.tracker.initialMg;
  }

  /** A dose restarts nothing: the restart after `addCaffeine` leaves its state as it is. */
  lemma RestartAfterAddCaffeine(vm: ViewModel, amount: int, now: int, decay: DecayFn)
    requires IsDecay(decay) && amount > 0 && now != 0
    ensures Start(AddCaffeine(vm, amount, now, decay)) == AddCaffeine(vm, amount, now, decay)
  {
  }
}
