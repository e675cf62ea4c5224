/**
 * The set of saved file names: a map from values to the empty struct whose
 * Insert and Remove report whether they changed membership.
 */
module Sets {

  /** The new key set and the reported change when `v` is inserted into `m`. */
  function InsertInto<T>(m: map<T, ()>, v: T): (map<T, ()>, bool)
  {
    if v in m then (m, false) else (m[v := ()], true)
  }

  /** The new key set and the reported change when `v` is removed from `m`. */
  function RemoveFrom<T>(m: map<T, ()>, v: T): (map<T, ()>, bool)
  {
    if v !in m then (m, false) else (m - {v}, true)
  }

  class Set<T(==)> {
    var items: map<T, ()>

    /** The values in the set. */
    ghost function Elements(): set<T>
      reads this
    {
      items.Keys
    }

    /** NewSet: an empty set. */
    constructor ()
      ensures Elements() == {}
    {
      items := map[];
    }

    method Contains(value: T) returns (present: bool)
      ensures present <==> value in Elements()
    {
      present := value in items;
    }

    method Insert(value: T) returns (inserted: bool)
      modifies this
      ensures (items, inserted) == InsertInto(old(items), value)
      ensures Elements() == old(Elements()) + {value}
    {
      var present := Contains(value);
      if present {
        return false;
      }
      items := items[value := ()];
      return true;
    }

    method Remove(value: T) returns (removed: bool)
      modifies this
      ensures (items, removed) == RemoveFrom(old(items), value)
      ensures Elements() == old(Elements()) - {value}
    {
      var present := Contains(value);
      if !present {
        return false;
      }
      items := items - {value};
      return true;
    }
  }

  // ---------------------------------------------------------------------------
  // Properties

  /** Insert reports a change exactly when the value was absent, and the value is present afterwards. */
  lemma InsertReportsChange<T>(m: map<T, ()>, v: T)
    ensures InsertInto(m, v).1 <==> v !in m
    ensures InsertInto(m, v).0.Keys == m.Keys + {v}
  {
  }

  /** Inserting a present value changes nothing. */
  lemma InsertPresentUnchanged<T>(m: map<T, ()>, v: T)
    requires v in m
    ensures InsertInto(m, v) == (m, false)
  {
  }

  /** Remove reports a change exactly when the value was present, and the value is absent afterwards. */
  lemma RemoveReportsChange<T>(m: map<T, ()>, v: T)
    ensures RemoveFrom(m, v).1 <==> v in m
    ensures RemoveFrom(m, v).0.Keys == m.Keys - {v}
  {
  }

  /** Neither operation changes whether any other value is a member. */
  lemma OthersUnchanged<T>(m: map<T, ()>, v: T, w: T)
    requires w != v
    ensures w in InsertInto(m, v).0 <==> w in m
    ensures w in RemoveFrom(m, v).0 <==> w in m
  {
  }

  /** Removing a freshly inserted value restores the set, and both report the change. */
  lemma InsertThenRemove<T>(m: map<T, ()>, v: T)
    requires v !in m
    ensures RemoveFrom(InsertInto(m, v).0, v) == (m, true)
  {
    assert m[v := ()] - {v} == m;
  }

  /** Re-inserting a just removed value restores the set. */
  lemma RemoveThenInsert<T>(m: map<T, ()>, v: T)
    requires v in m
    ensures InsertInto(RemoveFrom(m, v).0, v) == (m, true)
  {
    var r := (m - {v})[v := ()];
    assert r.Keys == m.Keys;
    assert forall w :: w in r ==> r[w] == m[w];
    assert r == m;
    assert v !in RemoveFrom(m, v).0;
  }

  /**
   * The oracle part of the set tests: a new set lacks 0, the first insertion
   * of 0 reports a change, after it the set has 0, and the second reports none.
   */
  method InsertOracle() returns (before: bool, first: bool, after: bool, second: bool)
    ensures !before && first && after && !second
  {
    var s := new Set<int>();
    before := s.Contains(0);
    first := s.Insert(0);
    after := s.Contains(0);
    second := s.Insert(0);
  }
}
