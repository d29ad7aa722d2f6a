/**
 The persisted preferences of the app and the edits `DataRepository` makes to them.

 The preference store is a record of optional keys: an absent key reads back as the
 default the repository supplies (0 mg, time 0, the empty history list). The history
 list is held decoded; its JSON encoding is not modelled.
 */
module DataRepository {
  import opened Wrappers
  import opened Text

  /** A reusable caffeine source, e.g. ("Coffee", 95). */
  datatype Source = Source(name: string, amount: int)

  /** The preference keys this model reads and writes. */
  datatype Prefs = Prefs(
    initialCaffeineMg: Option<real>,
    lastIngestionTimeMillis: Option<int>,
    historyList: Option<seq<Source>>)

  /** Outcome of an update: whether it happened, and the list afterwards. */
  datatype Updated = Updated(ok: bool, list: seq<Source>)

  // ---------------------------------------------------------------------------
  // Names and the uniqueness invariant

  /** Some entry of `list` has `name`, ignoring case. */
  predicate HasName(list: seq<Source>, name: string) {
    exists i | 0 <= i < |list| :: EqIgnoreCase(list[i].name, name)
  }

  /** No two entries have names equal ignoring case. */
  ghost predicate NamesUnique(list: seq<Source>) {
    forall i, j | 0 <= i < j < |list| :: !EqIgnoreCase(list[i].name, list[j].name)
  }

  /**
   `indexOfFirst { it.name == name }`: the first position whose name equals `name`
   exactly (case-sensitively), or -1.
   */
  function IndexOfFirst(list: seq<Source>, name: string): (r: int)
    ensures -1 <= r < |list|
    ensures r >= 0 ==> list[r].name == name
    ensures r >= 0 ==> forall j | 0 <= j < r :: list[j].name != name
    ensures r == -1 <==> forall j | 0 <= j < |list| :: list[j].name != name
  {
    if |list| == 0 then -1
    else if list[0].name == name then 0
    else
      var k := IndexOfFirst(list[1..], name);
      if k == -1 then -1 else k + 1
  }

  // ---------------------------------------------------------------------------
  // List edits (the body of each `dataStore.edit` block)

  /** Prepend `source` unless its name is already present ignoring case. */
  function AddToList(list: seq<Source>, source: Source): (r: seq<Source>)
    ensures HasName(list, source.name) ==> r == list
    ensures !HasName(list, source.name) ==>
      |r| == |list| + 1 && r[0] == source && forall i | 0 <= i < |list| :: r[i + 1] == list[i]
    ensures HasName(r, source.name)
  {
    if HasName(list, source.name) then list else [source] + list
  }

  /** Insert `source` at `index` when its name is new and `0 <= index <= |list|`. */
  function InsertIntoList(list: seq<Source>, index: int, source: Source): (r: seq<Source>)
    ensures HasName(list, source.name) || index < 0 || index > |list| ==> r == list
    ensures !HasName(list, source.name) && 0 <= index <= |list| ==>
      && |r| == |list| + 1
      && r[index] == source
      && r[..index] == list[..index]
      && r[index + 1..] == list[index..]
  {
    if HasName(list, source.name) then list
    else if 0 <= index <= |list| then list[..index] + [source] + list[index..]
    else list
  }

  /** `removeAll { it.name.equals(source.name, ignoreCase = true) }`. */
  function RemoveFromList(list: seq<Source>, source: Source): (r: seq<Source>)
    ensures |r| <= |list|
    ensures !HasName(r, source.name)
    ensures forall x | x in r :: x in list
    ensures forall x | x in list && !EqIgnoreCase(x.name, source.name) :: x in r
  {
    if |list| == 0 then []
    else
      var rest := RemoveFromList(list[1..], source);
      if EqIgnoreCase(list[0].name, source.name) then rest else [list[0]] + rest
  }

  /** Some entry other than `oldName` (compared exactly) already has `newName` ignoring case. */
  predicate NameTaken(list: seq<Source>, oldName: string, newName: string) {
    exists i | 0 <= i < |list| :: EqIgnoreCase(list[i].name, newName) && list[i].name != oldName
  }

  /**
   Rename/re-amount the first entry named exactly `oldSource.name`, unless `newName`
   collides ignoring case with a different entry; reports whether the list changed.
   */
  function UpdateInList(list: seq<Source>, oldSource: Source, newName: string, newAmount: int): (r: Updated)
    ensures !r.ok ==> r.list == list
    ensures r.ok <==>
      !NameTaken(list, oldSource.name, newName) && exists i | 0 <= i < |list| :: list[i].name == oldSource.name
    ensures r.ok ==> exists k | 0 <= k < |list| ::
      && list[k].name == oldSource.name
      && (forall j | 0 <= j < k :: list[j].name != oldSource.name)
      && r.list == list[k := Source(newName, newAmount)]
  {
    if NameTaken(list, oldSource.name, newName) then Updated(false, list)
    else
      var k := IndexOfFirst(list, oldSource.name);
      if k == -1 then Updated(false, list)
      else Updated(true, list[k := Source(newName, newAmount)])
  }

  // ---------------------------------------------------------------------------
  // The preference store

  /** The store as read back: every key at its default. */
  const EmptyPrefs := Prefs(None, None, None)

  /** `historyListFlow`: the stored list, or the empty list when the key is absent. */
  function HistoryList(p: Prefs): (r: seq<Source>)
    ensures p.historyList.None? ==> r == []
    ensures p.historyList.Some? ==> r == p.historyList.value
  {
    p.historyList.GetOr([])
  }

  /** `caffeineStateFlow`: the stored (mg, time) pair, each defaulting to 0. */
  function CaffeineState(p: Prefs): (r: (real, int))
    ensures p.initialCaffeineMg.None? ==> r.0 == 0.0
    ensures p.lastIngestionTimeMillis.None? ==> r.1 == 0
    ensures p.initialCaffeineMg.Some? ==> r.0 == p.initialCaffeineMg.value
    ensures p.lastIngestionTimeMillis.Some? ==> r.1 == p.lastIngestionTimeMillis.value
  {
    (p.initialCaffeineMg.GetOr(0.0), p.lastIngestionTimeMillis.GetOr(0))
  }

  /** `saveCaffeineState`: write both caffeine keys; the history is untouched. */
  function SaveCaffeineState(p: Prefs, initialMg: real, lastIngestionTimeMillis: int): (r: Prefs)
    ensures CaffeineState(r) == (initialMg, lastIngestionTimeMillis)
    ensures r.historyList == p.historyList
  {
    p.(initialCaffeineMg := Some(initialMg), lastIngestionTimeMillis := Some(lastIngestionTimeMillis))
  }

  /** `clearCaffeineState`: remove both caffeine keys, so they read back as (0, 0). */
  function ClearCaffeineState(p: Prefs): (r: Prefs)
    ensures CaffeineState(r) == (0.0, 0)
    ensures r.historyList == p.historyList
  {
    p.(initialCaffeineMg := None, lastIngestionTimeMillis := None)
  }

  /** `addHistoryItem`: writes the list back only when the source was added. */
  function AddHistoryItem(p: Prefs, source: Source): (r: Prefs)
    ensures HistoryList(r) == AddToList(HistoryList(p), source)
    ensures p.historyList.None? ==> HistoryList(r) == [source]
    ensures CaffeineState(r) == CaffeineState(p)
  {
    var current := HistoryList(p);
    if !HasName(current, source.name) then p.(historyList := Some([source] + current)) else p
  }

  /** `insertHistoryItem`: writes the list back only when the source was inserted. */
  function InsertHistoryItem(p: Prefs, index: int, source: Source): (r: Prefs)
    ensures HistoryList(r) == InsertIntoList(HistoryList(p), index, source)
    ensures p.historyList.None? && index == 0 ==> HistoryList(r) == [source]
    ensures CaffeineState(r) == CaffeineState(p)
  {
    var current := HistoryList(p);
    if !HasName(current, source.name) && 0 <= index <= |current| then
      p.(historyList := Some(current[..index] + [source] + current[index..]))
    else p
  }

  /** `removeHistoryItem`: always writes the filtered list back. */
  function RemoveHistoryItem(p: Prefs, source: Source): (r: Prefs)
    ensures HistoryList(r) == RemoveFromList(HistoryList(p), source)
    ensures r.historyList.Some?
    ensures p.historyList.None? ==> HistoryList(r) == []
    ensures CaffeineState(r) == CaffeineState(p)
  {
    p.(historyList := Some(RemoveFromList(HistoryList(p), source)))
  }

  /** `updateHistoryItem`: writes the list back and returns true only on success. */
  function UpdateHistoryItem(p: Prefs, oldSource: Source, newName: string, newAmount: int): (r: (Prefs, bool))
    ensures var u := UpdateInList(HistoryList(p), oldSource, newName, newAmount);
      r.1 == u.ok && HistoryList(r.0) == u.list
    ensures !r.1 ==> r.0 == p
    ensures p.historyList.None? ==> !r.1
    ensures CaffeineState(r.0) == CaffeineState(p)
  {
    var u := UpdateInList(HistoryList(p), oldSource, newName, newAmount);
    if u.ok then (p.(historyList := Some(u.list)), true) else (p, false)
  }
}
