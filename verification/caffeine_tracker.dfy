/**
 The live caffeine tracker of `CaffeineTrackerViewModel`: a collapsed decay state
 (initial mg, last ingestion time, displayed mg) next to the preference store, with
 each coroutine body modelled as one atomic step and the clock passed in as `now`.
 */
module CaffeineTracker {
  import opened Text
  import opened Decay
  import opened DataRepository

  /** `_initialCaffeineMg`, `_lastIngestionTimeMillis` and `_displayedCaffeineMg`. */
  datatype Tracker = Tracker(initialMg: real, lastIngestionMillis: int, displayedMg: real)

  /** The view model's in-memory tracker together with the persisted preferences. */
  datatype ViewModel = ViewModel(tracker: Tracker, prefs: Prefs)

  /** The tracker with no caffeine: every field zero. */
  const Cleared := Tracker(0.0, 0, 0.0)

  /**
   The tracker invariant: the initial amount and the time are zero together, neither is
   negative, and the display is either 0 or at least the 1 mg floor.
   */
  ghost predicate Consistent(t: Tracker) {
    && (t.initialMg == 0.0 <==> t.lastIngestionMillis == 0)
    && t.initialMg >= 0.0
    && t.lastIngestionMillis >= 0
    && (t.displayedMg == 0.0 || t.displayedMg >= 1.0)
  }

  /** The stored caffeine state reads back as the in-memory pair. */
  ghost predicate Synced(vm: ViewModel) {
    CaffeineState(vm.prefs) == (vm.tracker.initialMg, vm.tracker.lastIngestionMillis)
  }

  /** Everything every operation preserves. */
  ghost predicate Invariant(vm: ViewModel) {
    && Consistent(vm.tracker)
    && Synced(vm)
    && NamesUnique(HistoryList(vm.prefs))
  }

  // ---------------------------------------------------------------------------
  // Loading and the decay loop

  /** `loadAndStart` up to the restart: adopt the saved state only when both parts are positive. */
  function Load(vm: ViewModel): (r: ViewModel)
    ensures r.prefs == vm.prefs
    ensures r.tracker.initialMg != 0.0 <==>
      CaffeineState(vm.prefs).0 > 0.0 && CaffeineState(vm.prefs).1 > 0
    ensures r.tracker.initialMg != 0.0 ==>
      && (r.tracker.initialMg, r.tracker.lastIngestionMillis) == CaffeineState(vm.prefs)
      && r.tracker.displayedMg == vm.tracker.displayedMg
    ensures r.tracker.initialMg == 0.0 ==> r.tracker == Cleared
  {
    var (savedMg, savedTime) := CaffeineState(vm.prefs);
    if savedMg > 0.0 && savedTime > 0 then
      vm.(tracker := vm.tracker.(initialMg := savedMg, lastIngestionMillis := savedTime))
    else
      vm.(tracker := Cleared)
  }

  /**
   The guard at the head of `startOrRestartDecayCalculation`: with no caffeine, show 0,
   clear the stored state and do not start the loop.
   */
  function Start(vm: ViewModel): (r: ViewModel)
    ensures vm.tracker.initialMg == 0.0 || vm.tracker.lastIngestionMillis == 0 ==>
      && r.tracker == vm.tracker.(displayedMg := 0.0)
      && CaffeineState(r.prefs) == (0.0, 0)
      && r.prefs.historyList == vm.prefs.historyList
    ensures vm.tracker.initialMg != 0.0 && vm.tracker.lastIngestionMillis != 0 ==> r == vm
  {
    if vm.tracker.initialMg == 0.0 || vm.tracker.lastIngestionMillis == 0 then
      ViewModel(vm.tracker.(displayedMg := 0.0), ClearCaffeineState(vm.prefs))
    else vm
  }

  /** View-model construction: a cleared tracker, then `loadAndStart` over the stored preferences. */
  function Launch(prefs: Prefs): (r: ViewModel)
    ensures Consistent(r.tracker) && Synced(r)
    ensures r.prefs.historyList == prefs.historyList
    ensures CaffeineState(prefs).0 > 0.0 && CaffeineState(prefs).1 > 0 ==>
      r.tracker == Tracker(CaffeineState(prefs).0, CaffeineState(prefs).1, 0.0) && r.prefs == prefs
    ensures !(CaffeineState(prefs).0 > 0.0 && CaffeineState(prefs).1 > 0) ==> r.tracker == Cleared
  {
    Start(Load(ViewModel(Cleared, prefs)))
  }

  /**
   One iteration of the decay loop at clock `now`: show the decayed level, floored at
   1 mg; when it floors to 0, zero the state and clear what is stored.
   */
  function Tick(vm: ViewModel, now: int, decay: DecayFn): (r: ViewModel)
    requires IsDecay(decay)
    ensures r.prefs.historyList == vm.prefs.historyList
    ensures vm.tracker.initialMg == 0.0 ==>
      && r.tracker == vm.tracker.(displayedMg := 0.0)
      && CaffeineState(r.prefs) == (0.0, 0)
    ensures vm.tracker.initialMg != 0.0 ==>
      r.tracker.displayedMg
        == FloorLevel(vm.tracker.initialMg * decay(ClampElapsed(now, vm.tracker.lastIngestionMillis)))
    ensures vm.tracker.initialMg != 0.0 && now <= vm.tracker.lastIngestionMillis ==>
      r.tracker.displayedMg == FloorLevel(vm.tracker.initialMg)
    ensures vm.tracker.initialMg > 0.0 ==> r.tracker.displayedMg <= vm.tracker.initialMg
    ensures r.tracker.displayedMg == 0.0 || r.tracker.displayedMg >= 1.0
    ensures r.tracker.displayedMg == 0.0 ==>
      r.tracker == Cleared || (vm.tracker.initialMg == 0.0 && r.tracker == vm.tracker.(displayedMg := 0.0))
    ensures r.tracker.displayedMg == 0.0 ==> CaffeineState(r.prefs) == (0.0, 0)
    ensures r.tracker.displayedMg != 0.0 ==>
      r.tracker == vm.tracker.(displayedMg := r.tracker.displayedMg) && r.prefs == vm.prefs
  {
    var t := vm.tracker;
    if t.initialMg == 0.0 then
      ViewModel(t.(displayedMg := 0.0), ClearCaffeineState(vm.prefs))
    else
      var elapsed := ClampElapsed(now, t.lastIngestionMillis);
      assert t.initialMg > 0.0 ==> t.initialMg * decay(elapsed) <= t.initialMg by {
        if t.initialMg > 0.0 { DecayedWithin(t.initialMg, decay(elapsed)); }
      }
      var shown := FloorLevel(t.initialMg * decay(elapsed));
      if shown == 0.0 then ViewModel(Cleared, ClearCaffeineState(vm.prefs))
      else vm.(tracker := t.(displayedMg := shown))
  }

  // ---------------------------------------------------------------------------
  // Doses

  /**
   The part of the previous dose still present at `now` in `addCaffeine`: counted only
   when both the amount and the time are positive, undecayed when no time has passed,
   and dropped when under 0.5 mg.
   */
  function Remainder(t: Tracker, now: int, decay: DecayFn): (r: real)
    requires IsDecay(decay)
    ensures !(t.initialMg > 0.0 && t.lastIngestionMillis > 0) ==> r == 0.0
    ensures r == 0.0 || 0.5 <= r
    ensures 0.0 <= r <= if t.initialMg > 0.0 then t.initialMg else 0.0
    ensures t.lastIngestionMillis > 0 && now <= t.lastIngestionMillis ==>
      r == if t.initialMg < 0.5 then 0.0 else t.initialMg
    ensures t.initialMg > 0.0 && t.lastIngestionMillis > 0 && now > t.lastIngestionMillis ==>
      var decayed := t.initialMg * decay(now - t.lastIngestionMillis);
      (r == 0.0 <==> decayed < 0.5) && (r != 0.0 ==> r == decayed)
  {
    if !(t.initialMg > 0.0 && t.lastIngestionMillis > 0) then 0.0
    else if now - t.lastIngestionMillis > 0 then
      var decayed := t.initialMg * decay(now - t.lastIngestionMillis);
      DecayedWithin(t.initialMg, decay(now - t.lastIngestionMillis));
      if decayed < 0.5 then 0.0 else decayed
    else if t.initialMg < 0.5 then 0.0
    else t.initialMg
  }

  /** `addCaffeine`: fold a positive dose into the remainder and restart the clock at `now`. */
  function AddCaffeine(vm: ViewModel, amount: int, now: int, decay: DecayFn): (r: ViewModel)
    requires IsDecay(decay)
    ensures amount <= 0 ==> r == vm
    ensures amount > 0 ==>
      && r.tracker.initialMg == Remainder(vm.tracker, now, decay) + amount as real
      && r.tracker.displayedMg == r.tracker.initialMg
      && r.tracker.initialMg >= amount as real
      && r.tracker.lastIngestionMillis == now
      && CaffeineState(r.prefs) == (r.tracker.initialMg, now)
      && r.prefs.historyList == vm.prefs.historyList
  {
    if amount <= 0 then vm
    else
      var total := Remainder(vm.tracker, now, decay) + amount as real;
      ViewModel(Tracker(total, now, total), SaveCaffeineState(vm.prefs, total, now))
  }

  /** `resetCaffeineTracker`: zero all three fields and clear the stored state. */
  function Reset(vm: ViewModel): (r: ViewModel)
    ensures r.tracker == Cleared
    ensures CaffeineState(r.prefs) == (0.0, 0)
    ensures r.prefs.historyList == vm.prefs.historyList
  {
    ViewModel(Cleared, ClearCaffeineState(vm.prefs))
  }

  // ---------------------------------------------------------------------------
  // Source operations

  /**
   `addCaffeineSource`: a blank name or non-positive amount does nothing; otherwise the
   source is added to the history (a no-op on a duplicate name) and its dose is always taken.
   */
  function AddCaffeineSource(vm: ViewModel, name: string, amount: int, now: int, decay: DecayFn): (r: ViewModel)
    requires IsDecay(decay)
    ensures IsBlank(name) || amount <= 0 ==> r == vm
    ensures !IsBlank(name) && amount > 0 ==>
      && HistoryList(r.prefs) == AddToList(HistoryList(vm.prefs), Source(name, amount))
      && r.tracker == AddCaffeine(vm, amount, now, decay).tracker
      && r.tracker.initialMg >= amount as real
      && r.tracker.lastIngestionMillis == now
  {
    if IsBlank(name) || amount <= 0 then vm
    else
      var added := vm.(prefs := AddHistoryItem(vm.prefs, Source(name, amount)));
      AddCaffeine(added, amount, now, decay)
  }

  /**
   `updateCaffeineSource`: a blank name or non-positive amount is refused with false and
   nothing changes; otherwise the history update decides.
   */
  function UpdateCaffeineSource(vm: ViewModel, oldSource: Source, newName: string, newAmount: int): (r: (ViewModel, bool))
    ensures IsBlank(newName) || newAmount <= 0 ==> r == (vm, false)
    ensures !IsBlank(newName) && newAmount > 0 ==>
      var u := UpdateInList(HistoryList(vm.prefs), oldSource, newName, newAmount);
      r.1 == u.ok && HistoryList(r.0.prefs) == u.list
    ensures !r.1 ==> r.0 == vm
    ensures r.0.tracker == vm.tracker && CaffeineState(r.0.prefs) == CaffeineState(vm.prefs)
  {
    if IsBlank(newName) || newAmount <= 0 then (vm, false)
    else
      var (prefs, ok) := UpdateHistoryItem(vm.prefs, oldSource, newName, newAmount);
      (vm.(prefs := prefs), ok)
  }

  /** `removeCaffeineSource`: remove every entry matching the name ignoring case. */
  function RemoveCaffeineSource(vm: ViewModel, source: Source): (r: ViewModel)
    ensures HistoryList(r.prefs) == RemoveFromList(HistoryList(vm.prefs), source)
    ensures r.tracker == vm.tracker && CaffeineState(r.prefs) == CaffeineState(vm.prefs)
  {
    vm.(prefs := RemoveHistoryItem(vm.prefs, source))
  }
}
