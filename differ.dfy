/** Which rows of the freshly scraped inventory are new: the rows whose id does not
    occur in the previously recorded snapshot (pnp-scraper-notifier.js:142-144). */
module Differ {
  import opened Inventory

  /** `previous.some(p => p.id === id)`: some recorded row carries this id. */
  function HasId(previous: Snapshot, id: string): (found: bool)
    ensures found <==> id in Ids(previous)
  {
    if previous == [] then false
    else previous[0].id == id || HasId(previous[1..], id)
  }

  /** `current.filter(e => !previous.some(p => p.id === e.id))`, scanning `current`
      from the front as `filter` does. */
  function NewEntries(current: Snapshot, previous: Snapshot): (added: Snapshot)
    ensures |added| <= |current|
    ensures forall e :: e in added ==> e in current && e.id !in Ids(previous)
  {
    if current == [] then []
    else
      var kept := if HasId(previous, current[0].id) then [] else [current[0]];
      kept + NewEntries(current[1..], previous)
  }

  /** `sub` can be obtained from `s` by deleting elements, keeping the order of the rest. */
  predicate IsSubsequence<T(==)>(sub: seq<T>, s: seq<T>)
    decreases |s|
  {
    sub == [] ||
    (s != [] &&
     ((sub[0] == s[0] && IsSubsequence(sub[1..], s[1..])) || IsSubsequence(sub, s[1..])))
  }

  /** A row is new exactly when it is in the current snapshot and its id is
      unknown to the previous one. */
  lemma {:induction false} NewEntriesMembership(current: Snapshot, previous: Snapshot, e: Item)
    ensures e in NewEntries(current, previous) <==> e in current && e.id !in Ids(previous)
  {
    if current != [] {
      NewEntriesMembership(current[1..], previous, e);
      assert current == [current[0]] + current[1..];
    }
  }

  /** No row is duplicated or lost: a row with an unknown id occurs as often in
      the result as in the current snapshot, a row with a known id not at all. */
  lemma {:induction false} NewEntriesMultiplicity(current: Snapshot, previous: Snapshot, e: Item)
    ensures multiset(NewEntries(current, previous))[e]
         == if e.id in Ids(previous) then 0 else multiset(current)[e]
  {
    if current != [] {
      NewEntriesMultiplicity(current[1..], previous, e);
      assert current == [current[0]] + current[1..];
      var kept := if HasId(previous, current[0].id) then [] else [current[0]];
      assert NewEntries(current, previous) == kept + NewEntries(current[1..], previous);
    }
  }

  /** The new rows keep the order in which the current snapshot lists them. */
  lemma {:induction false} NewEntriesIsSubsequence(current: Snapshot, previous: Snapshot)
    ensures IsSubsequence(NewEntries(current, previous), current)
  {
    if current != [] {
      NewEntriesIsSubsequence(current[1..], previous);
      var added := NewEntries(current, previous);
      if !HasId(previous, current[0].id) {
        assert added[0] == current[0] && added[1..] == NewEntries(current[1..], previous);
      } else {
        assert added == NewEntries(current[1..], previous);
      }
    }
  }

  /** Only the ids of the previous snapshot matter, not its other fields or order. */
  lemma {:induction false} OnlyIdsMatter(current: Snapshot, previous1: Snapshot, previous2: Snapshot)
    requires Ids(previous1) == Ids(previous2)
    ensures NewEntries(current, previous1) == NewEntries(current, previous2)
  {
    if current != [] {
      OnlyIdsMatter(current[1..], previous1, previous2);
    }
  }

  /** First run: against an empty record every current row is new. */
  lemma {:induction false} EmptyPreviousKeepsAll(current: Snapshot)
    ensures NewEntries(current, []) == current
  {
    if current != [] {
      EmptyPreviousKeepsAll(current[1..]);
      assert !HasId([], current[0].id);
    }
  }

  /** There is nothing new exactly when every current id is already recorded. */
  lemma NothingNewIffKnown(current: Snapshot, previous: Snapshot)
    ensures NewEntries(current, previous) == [] <==> Ids(current) <= Ids(previous)
  {
    var added := NewEntries(current, previous);
    if added == [] {
      forall id | id in Ids(current) ensures id in Ids(previous) {
        var e :| e in current && e.id == id;
        NewEntriesMembership(current, previous, e);
      }
    } else {
      NewEntriesMembership(current, previous, added[0]);
      assert added[0].id in Ids(current);
    }
  }

  /** Diffing a snapshot against itself finds nothing new. */
  lemma SelfDiffIsEmpty(s: Snapshot)
    ensures NewEntries(s, s) == []
  {
    NothingNewIffKnown(s, s);
  }
}
