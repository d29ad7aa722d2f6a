/**
 Properties of the history-list edits: the case-insensitive uniqueness invariant,
 order-preserving removal, and the round trips between the edits.
 */
module HistoryProperties {
  import opened Text
  import opened DataRepository

  // ---------------------------------------------------------------------------
  // Uniqueness is preserved by every edit

  lemma AddPreservesUnique(list: seq<Source>, source: Source)
    requires NamesUnique(list)
    ensures NamesUnique(AddToList(list, source))
  {
    var r := AddToList(list, source);
    if !HasName(list, source.name) {
      forall i, j | 0 <= i < j < |r|
        ensures !EqIgnoreCase(r[i].name, r[j].name)
      {
        if i == 0 {
          assert r[j] == list[j - 1];
          EqIgnoreCaseSymmetric(list[j - 1].name, source.name);
        } else {
          assert r[i] == list[i - 1] && r[j] == list[j - 1];
        }
      }
    }
  }

  lemma InsertPreservesUnique(list: seq<Source>, index: int, source: Source)
    requires NamesUnique(list)
    ensures NamesUnique(InsertIntoList(list, index, source))
  {
    var r := InsertIntoList(list, index, source);
    if !HasName(list, source.name) && 0 <= index <= |list| {
      // Each position of r other than `index` holds an entry of list, in order.
      forall i, j | 0 <= i < j < |r|
        ensures !EqIgnoreCase(r[i].name, r[j].name)
      {
        var i' := if i < index then i else i - 1;
        var j' := if j < index then j else j - 1;
        assert i != index ==> r[i] == list[i'];
        assert j != index ==> r[j] == list[j'];
        if i == index {
          EqIgnoreCaseSymmetric(list[j'].name, source.name);
        } else if j == index {
        } else {
          assert i' < j';
        }
      }
    }
  }

  lemma {:induction false} RemovePreservesUnique(list: seq<Source>, source: Source)
    requires NamesUnique(list)
    ensures NamesUnique(RemoveFromList(list, source))
    decreases |list|
  {
    if |list| > 0 {
      var tail := list[1..];
      assert NamesUnique(tail) by {
        forall i, j | 0 <= i < j < |tail|
          ensures !EqIgnoreCase(tail[i].name, tail[j].name)
        {
          assert tail[i] == list[i + 1] && tail[j] == list[j + 1];
        }
      }
      RemovePreservesUnique(tail, source);
      var rest := RemoveFromList(tail, source);
      if !EqIgnoreCase(list[0].name, source.name) {
        var r := [list[0]] + rest;
        forall i, j | 0 <= i < j < |r|
          ensures !EqIgnoreCase(r[i].name, r[j].name)
        {
          if i == 0 {
            assert r[j] in tail;
            var k :| 0 <= k < |tail| && tail[k] == r[j];
            assert list[k + 1] == r[j];
          } else {
            assert r[i] == rest[i - 1] && r[j] == rest[j - 1];
          }
        }
      }
    }
  }

  /** When `newName` is not taken, any entry matching it ignoring case is named `oldName`. */
  lemma NotTakenSameName(list: seq<Source>, oldName: string, newName: string, j: int)
    requires !NameTaken(list, oldName, newName)
    requires 0 <= j < |list|
    ensures EqIgnoreCase(list[j].name, newName) ==> list[j].name == oldName
  {
  }

  lemma UpdatePreservesUnique(list: seq<Source>, oldSource: Source, newName: string, newAmount: int)
    requires NamesUnique(list)
    ensures NamesUnique(UpdateInList(list, oldSource, newName, newAmount).list)
  {
    var u := UpdateInList(list, oldSource, newName, newAmount);
    if u.ok {
      var k := IndexOfFirst(list, oldSource.name);
      assert u.list == list[k := Source(newName, newAmount)];
      forall i, j | 0 <= i < j < |u.list|
        ensures !EqIgnoreCase(u.list[i].name, u.list[j].name)
      {
        // An entry matching newName would have to be named exactly oldSource.name,
        // and so would clash with entry k.
        if i == k {
          NotTakenSameName(list, oldSource.name, newName, j);
          EqIgnoreCaseSymmetric(list[j].name, newName);
          assert !EqIgnoreCase(list[k].name, list[j].name);
        } else if j == k {
          NotTakenSameName(list, oldSource.name, newName, i);
          assert !EqIgnoreCase(list[i].name, list[k].name);
        }
      }
    }
  }

  // ---------------------------------------------------------------------------
  // Removal keeps the rest in order, and is idempotent

  /** Removal distributes over concatenation: the kept entries stay in their order. */
  lemma {:induction false} RemoveConcat(a: seq<Source>, b: seq<Source>, source: Source)
    ensures RemoveFromList(a + b, source) == RemoveFromList(a, source) + RemoveFromList(b, source)
    decreases |a|
  {
    if |a| == 0 {
      assert a + b == b;
    } else {
      var ab := a + b;
      assert ab[0] == a[0] && ab[1..] == a[1..] + b;
      RemoveConcat(a[1..], b, source);
      var restA, restB := RemoveFromList(a[1..], source), RemoveFromList(b, source);
      assert RemoveFromList(ab, source) ==
        if EqIgnoreCase(a[0].name, source.name) then restA + restB else [a[0]] + (restA + restB);
      assert [a[0]] + (restA + restB) == ([a[0]] + restA) + restB;
    }
  }

  /** A one-entry list loses its entry exactly when the names match ignoring case. */
  lemma RemoveSingle(x: Source, source: Source)
    ensures RemoveFromList([x], source) == if EqIgnoreCase(x.name, source.name) then [] else [x]
  {
    assert [x][1..] == [];
  }

  /** A list with no matching name is left unchanged. */
  lemma {:induction false} RemoveAbsent(list: seq<Source>, source: Source)
    requires !HasName(list, source.name)
    ensures RemoveFromList(list, source) == list
    decreases |list|
  {
    if |list| > 0 {
      assert !HasName(list[1..], source.name) by {
        forall i | 0 <= i < |list[1..]|
          ensures !EqIgnoreCase(list[1..][i].name, source.name)
        {
          assert list[1..][i] == list[i + 1];
        }
      }
      RemoveAbsent(list[1..], source);
      assert !EqIgnoreCase(list[0].name, source.name);
      assert [list[0]] + list[1..] == list;
    }
  }

  lemma RemoveIdempotent(list: seq<Source>, source: Source)
    ensures RemoveFromList(RemoveFromList(list, source), source) == RemoveFromList(list, source)
  {
    RemoveAbsent(RemoveFromList(list, source), source);
  }

  // ---------------------------------------------------------------------------
  // Round trips

  /** Removing a freshly added source gives back the list before the add. */
  lemma RemoveAfterAdd(list: seq<Source>, source: Source)
    requires !HasName(list, source.name)
    ensures RemoveFromList(AddToList(list, source), source) == list
  {
    EqIgnoreCaseReflexive(source.name, source.name);
    RemoveConcat([source], list, source);
    RemoveSingle(source, source);
    RemoveAbsent(list, source);
  }

  /** A slice of a list without a name has no such name either. */
  lemma NoNameInSlice(list: seq<Source>, lo: int, hi: int, name: string)
    requires 0 <= lo <= hi <= |list|
    requires !HasName(list, name)
    ensures !HasName(list[lo..hi], name)
  {
    forall i | 0 <= i < hi - lo
      ensures !EqIgnoreCase(list[lo..hi][i].name, name)
    {
      assert list[lo..hi][i] == list[lo + i];
    }
  }

  /** Removing a freshly inserted source gives back the list before the insert. */
  lemma RemoveAfterInsert(list: seq<Source>, index: int, source: Source)
    requires !HasName(list, source.name) && 0 <= index <= |list|
    ensures RemoveFromList(InsertIntoList(list, index, source), source) == list
  {
    var a, b := list[..index], list[index..];
    assert InsertIntoList(list, index, source) == a + ([source] + b);
    NoNameInSlice(list, 0, index, source.name);
    NoNameInSlice(list, index, |list|, source.name);
    RemoveAbsent(a, source);
    RemoveAbsent(b, source);
    RemoveAfterAdd(b, source);
    assert RemoveFromList([source] + b, source) == b by {
      assert AddToList(b, source) == [source] + b;
    }
    RemoveConcat(a, [source] + b, source);
    assert a + b == list;
  }

  /** Renaming only the letter case of an existing entry is never refused as a collision. */
  lemma UpdateCaseOnlyRename(list: seq<Source>, k: int, newName: string, newAmount: int)
    requires NamesUnique(list)
    requires 0 <= k < |list|
    requires EqIgnoreCase(newName, list[k].name)
    ensures UpdateInList(list, list[k], newName, newAmount).ok
  {
    var oldName := list[k].name;
    forall i | 0 <= i < |list| && i != k
      ensures !EqIgnoreCase(list[i].name, newName)
    {
      EqIgnoreCaseTransitive(list[i].name, newName, oldName);
      if i > k {
        EqIgnoreCaseSymmetric(list[i].name, oldName);
      }
    }
    assert !NameTaken(list, oldName, newName);
  }

  /** After a successful update, no entry but the replaced one matches the old name. */
  lemma OldNameFreeAfterUpdate(list: seq<Source>, k: int, newName: string, newAmount: int)
    requires NamesUnique(list)
    requires 0 <= k < |list|
    ensures !NameTaken(list[k := Source(newName, newAmount)], newName, list[k].name)
  {
    var mid := list[k := Source(newName, newAmount)];
    forall i | 0 <= i < |mid| && i != k
      ensures !EqIgnoreCase(mid[i].name, list[k].name)
    {
      if i > k {
        EqIgnoreCaseSymmetric(list[k].name, list[i].name);
      }
    }
  }

  /** After a successful update, the replaced entry is the first one named `newName` exactly. */
  lemma ReplacedIsFirstWithNewName(list: seq<Source>, oldSource: Source, newName: string, newAmount: int)
    requires !NameTaken(list, oldSource.name, newName)
    requires 0 <= IndexOfFirst(list, oldSource.name)
    ensures var k := IndexOfFirst(list, oldSource.name);
      IndexOfFirst(list[k := Source(newName, newAmount)], newName) == k
  {
    var k := IndexOfFirst(list, oldSource.name);
    var mid := list[k := Source(newName, newAmount)];
    forall j | 0 <= j < k
      ensures mid[j].name != newName
    {
      NotTakenSameName(list, oldSource.name, newName, j);
      EqIgnoreCaseReflexive(list[j].name, list[j].name);
    }
  }

  /** A successful update is undone by updating back to the replaced entry's name and amount. */
  lemma UpdateRoundTrip(list: seq<Source>, oldSource: Source, newName: string, newAmount: int)
    requires NamesUnique(list)
    requires UpdateInList(list, oldSource, newName, newAmount).ok
    ensures var k := IndexOfFirst(list, oldSource.name);
      0 <= k < |list| &&
      UpdateInList(UpdateInList(list, oldSource, newName, newAmount).list,
                   Source(newName, newAmount), list[k].name, list[k].amount)
        == Updated(true, list)
  {
    var k := IndexOfFirst(list, oldSource.name);
    var mid := list[k := Source(newName, newAmount)];
    assert UpdateInList(list, oldSource, newName, newAmount).list == mid;
    OldNameFreeAfterUpdate(list, k, newName, newAmount);
    ReplacedIsFirstWithNewName(list, oldSource, newName, newAmount);
    assert mid[k := Source(list[k].name, list[k].amount)] == list;
  }

  // ---------------------------------------------------------------------------
  // Worked examples

  /** Adding ("Coffee", 95) then ("coffee", 50) keeps just the first entry. */
  lemma ExampleAddDuplicate()
    ensures AddToList(AddToList([], Source("Coffee", 95)), Source("coffee", 50)) == [Source("Coffee", 95)]
  {
    var l := AddToList([], Source("Coffee", 95));
    assert l == [Source("Coffee", 95)];
    assert EqIgnoreCase(l[0].name, "coffee");
  }

  /** In ["Tea", "Coffee"], renaming "Tea" to "Coffee" is refused and changes nothing. */
  lemma ExampleUpdateCollision(newAmount: int)
    ensures var list := [Source("Tea", 40), Source("Coffee", 95)];
      UpdateInList(list, Source("Tea", 40), "Coffee", newAmount) == Updated(false, list)
  {
    var list := [Source("Tea", 40), Source("Coffee", 95)];
    assert EqIgnoreCase(list[1].name, "Coffee") && list[1].name != "Tea";
  }
}
