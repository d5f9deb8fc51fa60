/**
 * The conditioned count tables of the probability tracker
 * (src/metdetection/meter/lpcfg/MetricalLpcfgProbabilityTracker.java): a map from a
 * conditioning key to a table that maps each observed event to its count. The three maps of
 * the tracker share this shape, so the updates they make are defined here once, generically,
 * as values: a Java `put` or `remove` on a conditioned table becomes the construction of the
 * updated table, stored back under its key.
 */
module CountTables {

  /** The count of `e` under `k`; an absent table or event counts 0 (the source's `null`). */
  function Count<K, E>(m: map<K, map<E, int>>, k: K, e: E): (c: int)
    ensures c != 0 ==> k in m && e in m[k] && c == m[k][e]
  {
    if k in m && e in m[k] then m[k][e] else 0
  }

  /** The stored-counts invariant: no conditioned table is empty and no stored count is <= 0. */
  predicate Positive<K, E>(m: map<K, map<E, int>>)
  {
    (forall k :: k in m ==> m[k] != map[])
    && (forall k, e :: k in m && e in m[k] ==> m[k][e] > 0)
  }

  /** One `add...` on one table: the table is created if missing, and the count of `e` is
   *  `oldCount + 1`, or 1 when there was none. */
  function Bumped<K, E>(m: map<K, map<E, int>>, k: K, e: E): (r: map<K, map<E, int>>)
    ensures r.Keys == m.Keys + {k}
    ensures Count(r, k, e) == Count(m, k, e) + 1
    ensures forall k2, e2 :: k2 in r && e2 in r[k2] && (k2 != k || e2 != e) ==>
      k2 in m && e2 in m[k2] && r[k2][e2] == m[k2][e2]
    ensures forall k2, e2 :: k2 in m && e2 in m[k2] ==> k2 in r && e2 in r[k2]
  {
    var table := if k in m then m[k] else map[];
    var newCount := if e in table then table[e] + 1 else 1;
    m[k := table[e := newCount]]
  }

  /** One successful `remove...` on one table: the count of `e` goes down by one; a count that
   *  reaches 0 is deleted, and so is a table that becomes empty. */
  function Dropped<K, E>(m: map<K, map<E, int>>, k: K, e: E): (r: map<K, map<E, int>>)
    requires k in m && e in m[k]
    ensures Count(r, k, e) == Count(m, k, e) - 1 || (Count(m, k, e) == 1 && Count(r, k, e) == 0)
    ensures r.Keys <= m.Keys
    ensures forall k2 :: k2 in m && k2 != k ==> k2 in r && r[k2] == m[k2]
  {
    var table := m[k];
    var newCount := table[e] - 1;
    if newCount != 0 then m[k := table[e := newCount]]
    else
      var rest := table - {e};
      if rest == map[] then m - {k} else m[k := rest]
  }

  /** For stored counts (all positive) `Dropped` is exactly one fewer of `e` under `k`. */
  lemma DroppedCount<K, E>(m: map<K, map<E, int>>, k: K, e: E, k2: K, e2: E)
    requires Positive(m) && k in m && e in m[k]
    ensures Count(Dropped(m, k, e), k2, e2) == Count(m, k2, e2) - (if k2 == k && e2 == e then 1 else 0)
  {
    var r := Dropped(m, k, e);
    if k2 == k && e2 != e && e2 in m[k] {
      assert m[k][e] != 1 ==> r[k] == m[k][e := m[k][e] - 1];
      assert e2 in m[k] - {e};
    }
  }

  lemma BumpedPositive<K, E>(m: map<K, map<E, int>>, k: K, e: E)
    requires Positive(m)
    ensures Positive(Bumped(m, k, e))
  {
    var r := Bumped(m, k, e);
    forall k2 | k2 in r
      ensures r[k2] != map[]
    {
      if k2 == k {
        assert e in r[k];
      }
    }
  }

  lemma DroppedPositive<K, E>(m: map<K, map<E, int>>, k: K, e: E)
    requires Positive(m) && k in m && e in m[k]
    ensures Positive(Dropped(m, k, e))
  {
  }

  /** On stored counts, removing what was just added restores the maps exactly. */
  lemma DroppedBumped<K, E>(m: map<K, map<E, int>>, k: K, e: E)
    requires Positive(m)
    ensures Dropped(Bumped(m, k, e), k, e) == m
  {
    var b := Bumped(m, k, e);
    var r := Dropped(b, k, e);
    if k in m {
      if e in m[k] {
        assert r[k] == m[k];
      } else {
        assert b[k] == m[k][e := 1];
        assert b[k] - {e} == m[k];
      }
    } else {
      assert b[k] - {e} == map[];
    }
  }

  /**
   * `add...` with a back-off key: one more of `e` under each key. When the two keys are the
   * same table both writes store the same `oldCount + 1`, which is one increment, not two.
   */
  function AddTwoTier<K, E>(m: map<K, map<E, int>>, key: K, backoffKey: K, e: E)
    : (r: map<K, map<E, int>>)
    ensures r.Keys == m.Keys + {key, backoffKey}
    ensures key != backoffKey ==>
      Count(r, key, e) == Count(m, key, e) + 1 && Count(r, backoffKey, e) == Count(m, backoffKey, e) + 1
    ensures key == backoffKey ==> Count(r, key, e) == Count(m, key, e) + 1
  {
    if key == backoffKey then Bumped(m, key, e) else Bumped(Bumped(m, key, e), backoffKey, e)
  }

  /** The outcome of a `remove...`: the maps afterwards, and whether the call returned normally
   *  (`false` when it threw the not-found exception). */
  datatype Removal<K, E> = Removal(tables: map<K, map<E, int>>, ok: bool)

  /**
   * `remove...` with a back-off key. It throws, changing nothing, when the primary table, the
   * back-off table or the primary event is missing. Otherwise it drops the primary count and
   * only then reads the back-off count from the back-off table as it now is, so a missing
   * back-off event throws after the primary count has already gone down.
   */
  function RemoveTwoTier<K, E>(m: map<K, map<E, int>>, key: K, backoffKey: K, e: E)
    : (r: Removal<K, E>)
    ensures key !in m || backoffKey !in m || e !in m[key] ==> r == Removal(m, false)
    ensures key in m && backoffKey in m && e in m[key] ==>
      var afterMain := Dropped(m, key, e);
      if backoffKey in afterMain && e in afterMain[backoffKey]
      then r == Removal(Dropped(afterMain, backoffKey, e), true)
      else r == Removal(afterMain, false)
  {
    if key !in m || backoffKey !in m || e !in m[key] then Removal(m, false)
    else
      var afterMain := Dropped(m, key, e);
      // The back-off table object is the one fetched before the primary update; when the keys
      // coincide it is the primary table itself, emptied if `Dropped` deleted it.
      var backoffTable := if backoffKey in afterMain then afterMain[backoffKey] else map[];
      if e !in backoffTable then Removal(afterMain, false)
      else Removal(Dropped(afterMain, backoffKey, e), true)
  }

  /** Stored counts stay positive through an add. */
  lemma AddTwoTierPositive<K, E>(m: map<K, map<E, int>>, key: K, backoffKey: K, e: E)
    requires Positive(m)
    ensures Positive(AddTwoTier(m, key, backoffKey, e))
  {
    BumpedPositive(m, key, e);
    if key != backoffKey {
      BumpedPositive(Bumped(m, key, e), backoffKey, e);
    }
  }

  /** Stored counts stay positive through a remove, whether it returns or throws. */
  lemma RemoveTwoTierPositive<K, E>(m: map<K, map<E, int>>, key: K, backoffKey: K, e: E)
    requires Positive(m)
    ensures Positive(RemoveTwoTier(m, key, backoffKey, e).tables)
  {
    if key in m && backoffKey in m && e in m[key] {
      DroppedPositive(m, key, e);
      var afterMain := Dropped(m, key, e);
      if backoffKey in afterMain && e in afterMain[backoffKey] {
        DroppedPositive(afterMain, backoffKey, e);
      }
    }
  }

  /** With distinct keys, a remove right after an add of the same event returns normally and
   *  restores the maps exactly. */
  lemma RemoveAfterAdd<K, E>(m: map<K, map<E, int>>, key: K, backoffKey: K, e: E)
    requires Positive(m) && key != backoffKey
    ensures RemoveTwoTier(AddTwoTier(m, key, backoffKey, e), key, backoffKey, e) == Removal(m, true)
  {
    var b1 := Bumped(m, key, e);
    var b2 := Bumped(b1, backoffKey, e);
    BumpedPositive(m, key, e);
    BumpedPositive(b1, backoffKey, e);
    var afterMain := Dropped(b2, key, e);
    assert afterMain == Bumped(Dropped(b1, key, e), backoffKey, e) by {
      BumpedDroppedCommute(b1, key, e, backoffKey, e);
    }
    DroppedBumped(m, key, e);
    assert backoffKey in afterMain && e in afterMain[backoffKey];
    DroppedBumped(m, backoffKey, e);
  }

  /** `Bumped` is exactly one more of `e` under `k`. */
  lemma BumpedCount<K, E>(m: map<K, map<E, int>>, k: K, e: E, k2: K, e2: E)
    ensures Count(Bumped(m, k, e), k2, e2) == Count(m, k2, e2) + (if k2 == k && e2 == e then 1 else 0)
  {
    if k2 != k || e2 != e {
      var r := Bumped(m, k, e);
      if k2 in m && e2 in m[k2] {
        assert k2 in r && e2 in r[k2];
      }
    }
  }

  /** Stored counts are determined by their `Count`s. */
  lemma PositiveExtensional<K, E>(a: map<K, map<E, int>>, b: map<K, map<E, int>>)
    requires Positive(a) && Positive(b)
    requires forall k, e :: Count(a, k, e) == Count(b, k, e)
    ensures a == b
  {
    forall k | k in a
      ensures k in b && a[k] == b[k]
    {
      var e :| e in a[k];
      assert Count(a, k, e) > 0;
      assert Count(b, k, e) != 0;
      forall e2 | e2 in a[k]
        ensures e2 in b[k] && a[k][e2] == b[k][e2]
      {
        assert Count(a, k, e2) != 0;
      }
      forall e2 | e2 in b[k]
        ensures e2 in a[k]
      {
        assert Count(b, k, e2) != 0;
      }
    }
    forall k | k in b
      ensures k in a
    {
      var e :| e in b[k];
      assert Count(b, k, e) != 0;
    }
  }

  /** On stored counts an add and a remove of any two events commute. */
  lemma BumpedDroppedCommute<K, E>(m: map<K, map<E, int>>, k1: K, e1: E, k2: K, e2: E)
    requires Positive(m) && k1 in m && e1 in m[k1]
    ensures var b := Bumped(m, k2, e2); k1 in b && e1 in b[k1]
    ensures Dropped(Bumped(m, k2, e2), k1, e1) == Bumped(Dropped(m, k1, e1), k2, e2)
  {
    var b := Bumped(m, k2, e2);
    var d := Dropped(m, k1, e1);
    BumpedPositive(m, k2, e2);
    DroppedPositive(m, k1, e1);
    assert k1 in b && e1 in b[k1];
    DroppedPositive(b, k1, e1);
    BumpedPositive(d, k2, e2);
    forall k, e
      ensures Count(Dropped(b, k1, e1), k, e) == Count(Bumped(d, k2, e2), k, e)
    {
      DroppedCount(b, k1, e1, k, e);
      BumpedCount(m, k2, e2, k, e);
      BumpedCount(d, k2, e2, k, e);
      DroppedCount(m, k1, e1, k, e);
    }
    PositiveExtensional(Dropped(b, k1, e1), Bumped(d, k2, e2));
  }

  /** 1 when `(k2, e2)` is the entry `(k, e)`, else 0. */
  ghost function Hit<K, E>(k: K, e: E, k2: K, e2: E): int
  {
    if k2 == k && e2 == e then 1 else 0
  }

  /** With distinct keys, an add is one more of `e` under each key. */
  lemma AddTwoTierCount<K, E>(m: map<K, map<E, int>>, key: K, backoffKey: K, e: E, k2: K, e2: E)
    requires key != backoffKey
    ensures Count(AddTwoTier(m, key, backoffKey, e), k2, e2)
            == Count(m, k2, e2) + Hit(key, e, k2, e2) + Hit(backoffKey, e, k2, e2)
  {
    BumpedCount(m, key, e, k2, e2);
    BumpedCount(Bumped(m, key, e), backoffKey, e, k2, e2);
  }

  /** With distinct keys and both counts stored, a remove returns normally and is one fewer of
   *  `e` under each key. */
  lemma RemoveTwoTierPresent<K, E>(m: map<K, map<E, int>>, key: K, backoffKey: K, e: E)
    requires Positive(m) && key != backoffKey && Count(m, key, e) > 0 && Count(m, backoffKey, e) > 0
    ensures RemoveTwoTier(m, key, backoffKey, e).ok
    ensures Positive(RemoveTwoTier(m, key, backoffKey, e).tables)
    ensures forall k2, e2 ::
      Count(RemoveTwoTier(m, key, backoffKey, e).tables, k2, e2)
      == Count(m, k2, e2) - Hit(key, e, k2, e2) - Hit(backoffKey, e, k2, e2)
  {
    var afterMain := Dropped(m, key, e);
    DroppedPositive(m, key, e);
    assert backoffKey in afterMain && e in afterMain[backoffKey];
    RemoveTwoTierPositive(m, key, backoffKey, e);
    forall k2, e2
      ensures Count(RemoveTwoTier(m, key, backoffKey, e).tables, k2, e2)
              == Count(m, k2, e2) - Hit(key, e, k2, e2) - Hit(backoffKey, e, k2, e2)
    {
      DroppedCount(m, key, e, k2, e2);
      DroppedCount(afterMain, backoffKey, e, k2, e2);
    }
  }

  /** An add never takes away a stored count. */
  lemma AddTwoTierKeeps<K, E>(m: map<K, map<E, int>>, key: K, backoffKey: K, e: E, k2: K, e2: E)
    ensures Count(AddTwoTier(m, key, backoffKey, e), k2, e2) >= Count(m, k2, e2)
  {
    BumpedCount(m, key, e, k2, e2);
    BumpedCount(Bumped(m, key, e), backoffKey, e, k2, e2);
  }

  /** On stored counts, with distinct keys in each, a two-tier remove of a stored event commutes
   *  with a two-tier add of any event. */
  lemma TwoTierCommute<K, E>(m: map<K, map<E, int>>, k1: K, b1: K, e1: E, k2: K, b2: K, e2: E)
    requires Positive(m) && k1 != b1 && k2 != b2
    requires Count(m, k1, e1) > 0 && Count(m, b1, e1) > 0
    ensures RemoveTwoTier(m, k1, b1, e1).ok
    ensures RemoveTwoTier(AddTwoTier(m, k2, b2, e2), k1, b1, e1)
            == Removal(AddTwoTier(RemoveTwoTier(m, k1, b1, e1).tables, k2, b2, e2), true)
  {
    var a := AddTwoTier(m, k2, b2, e2);
    AddTwoTierPositive(m, k2, b2, e2);
    AddTwoTierKeeps(m, k2, b2, e2, k1, e1);
    AddTwoTierKeeps(m, k2, b2, e2, b1, e1);
    RemoveTwoTierPresent(a, k1, b1, e1);
    RemoveTwoTierPresent(m, k1, b1, e1);
    var l := RemoveTwoTier(a, k1, b1, e1).tables;
    var d := RemoveTwoTier(m, k1, b1, e1).tables;
    var r := AddTwoTier(d, k2, b2, e2);
    AddTwoTierPositive(d, k2, b2, e2);
    forall k, e
      ensures Count(l, k, e) == Count(r, k, e)
    {
      AddTwoTierCount(m, k2, b2, e2, k, e);
      AddTwoTierCount(d, k2, b2, e2, k, e);
    }
    PositiveExtensional(l, r);
  }

  /** When the two keys are one table, an add increments once but a remove decrements twice,
   *  so a remove right after the first add of an event throws. */
  lemma SharedKeyRemoveAfterAdd<K, E>(key: K, e: E)
    ensures AddTwoTier(map[], key, key, e) == map[key := map[e := 1]]
    ensures !RemoveTwoTier(AddTwoTier(map[], key, key, e), key, key, e).ok
  {
    var a := AddTwoTier(map[], key, key, e);
    assert a == map[key := map[e := 1]];
    assert Dropped(a, key, e) == map[] by {
      assert a[key] - {e} == map[];
    }
  }

  /** A remove whose back-off event is missing throws, with the primary count already
   *  decremented. */
  lemma RemoveThrowsAfterUpdate<K, E>(m: map<K, map<E, int>>, key: K, backoffKey: K, e: E)
    requires Positive(m) && key != backoffKey
    requires key in m && e in m[key] && backoffKey in m && e !in m[backoffKey]
    ensures !RemoveTwoTier(m, key, backoffKey, e).ok
    ensures RemoveTwoTier(m, key, backoffKey, e).tables == Dropped(m, key, e) != m
  {
    var r := Dropped(m, key, e);
    if Count(r, key, e) == 0 {
      assert Count(m, key, e) != 0;
    } else {
      assert Count(r, key, e) != Count(m, key, e);
    }
  }

  /** `addMeasureHead`/`removeMeasureHead`: a single table, no back-off. */
  function RemoveOneTier<K, E>(m: map<K, map<E, int>>, key: K, e: E): (r: Removal<K, E>)
    ensures r.ok <==> key in m && e in m[key]
    ensures !r.ok ==> r.tables == m
  {
    if key !in m || e !in m[key] then Removal(m, false) else Removal(Dropped(m, key, e), true)
  }

  lemma RemoveOneTierAfterAdd<K, E>(m: map<K, map<E, int>>, key: K, e: E)
    requires Positive(m)
    ensures RemoveOneTier(Bumped(m, key, e), key, e) == Removal(m, true)
  {
    DroppedBumped(m, key, e);
  }

  // ---------------------------------------------------------------------------
  // The updates step by step, as the tracker's methods make them

  /** `addMeasureHead`: fetch or create the table, then store `oldCount + 1` (or 1). */
  method AddOne<K, E>(m: map<K, map<E, int>>, key: K, e: E) returns (r: map<K, map<E, int>>)
    ensures r == Bumped(m, key, e)
  {
    r := m;
    var conditioned: map<E, int>;
    if key in r {
      conditioned := r[key];
    } else {
      conditioned := map[];
      r := r[key := conditioned];
    }
    var newCount := 1;
    if e in conditioned {
      newCount := conditioned[e] + 1;
    }
    r := r[key := conditioned[e := newCount]];
  }

  /** `removeMeasureHead`: throws (`ok` false, nothing changed) when the table or the event is
   *  missing; otherwise decrements, pruning a zero count and then an empty table. */
  method RemoveOne<K, E>(m: map<K, map<E, int>>, key: K, e: E) returns (r: map<K, map<E, int>>, ok: bool)
    ensures Removal(r, ok) == RemoveOneTier(m, key, e)
  {
    r, ok := m, false;
    if key !in r {
      return;
    }
    var conditioned := r[key];
    if e !in conditioned {
      return;
    }
    r := Decremented(r, key, conditioned, e);
    ok := true;
  }

  /** The decrement of one present count in the table `conditioned` stored under `key`. */
  method Decremented<K, E>(m: map<K, map<E, int>>, key: K, conditioned: map<E, int>, e: E)
    returns (r: map<K, map<E, int>>)
    requires key in m && m[key] == conditioned && e in conditioned
    ensures r == Dropped(m, key, e)
  {
    var newCount := conditioned[e] - 1;
    if newCount != 0 {
      r := m[key := conditioned[e := newCount]];
    } else {
      var rest := conditioned - {e};
      if rest == map[] {
        r := m - {key};
      } else {
        r := m[key := rest];
      }
    }
  }

  /**
   * `addTransition`/`addHead`: fetch or create the primary table, then the back-off table, read
   * both old counts, then write both new counts. When the keys coincide the two tables are one
   * object, and the second write stores the same `oldCount + 1` as the first.
   */
  method AddBoth<K, E>(m: map<K, map<E, int>>, key: K, backoffKey: K, e: E)
    returns (r: map<K, map<E, int>>)
    ensures r == AddTwoTier(m, key, backoffKey, e)
  {
    r := m;
    var conditioned: map<E, int>;
    if key in r {
      conditioned := r[key];
    } else {
      conditioned := map[];
      r := r[key := conditioned];
    }
    var backoffConditioned: map<E, int>;
    if backoffKey in r {
      backoffConditioned := r[backoffKey];
    } else {
      backoffConditioned := map[];
      r := r[backoffKey := backoffConditioned];
    }
    var newCount := 1;
    if e in conditioned {
      newCount := conditioned[e] + 1;
    }
    var newCountBackoff := 1;
    if e in backoffConditioned {
      newCountBackoff := backoffConditioned[e] + 1;
    }
    ghost var created := r;
    r := r[key := conditioned[e := newCount]];
    if backoffKey == key {
      backoffConditioned := r[key];
    }
    r := r[backoffKey := backoffConditioned[e := newCountBackoff]];
    assert r == Written(created, key, backoffKey, e);
    AddTwoTierWritten(m, created, key, backoffKey, e);
  }

  /** The table stored under `k`, or a new empty one. */
  function TableOf<K, E>(m: map<K, map<E, int>>, k: K): map<E, int>
  {
    if k in m then m[k] else map[]
  }

  /** The two writes of `addTransition`/`addHead` after both tables exist in `m`, the
   *  back-off table being the primary one when the keys coincide. */
  function Written<K, E>(m: map<K, map<E, int>>, key: K, backoffKey: K, e: E): map<K, map<E, int>>
  {
    var c, b := TableOf(m, key), TableOf(m, backoffKey);
    var once := m[key := c[e := Count(m, key, e) + 1]];
    var b' := if backoffKey == key then once[key] else b;
    once[backoffKey := b'[e := Count(m, backoffKey, e) + 1]]
  }

  /** Creating the missing tables first and then writing both counts is `AddTwoTier`. */
  lemma AddTwoTierWritten<K, E>(m: map<K, map<E, int>>, created: map<K, map<E, int>>, key: K, backoffKey: K, e: E)
    requires created.Keys == m.Keys + {key, backoffKey}
    requires forall k :: k in created ==> created[k] == TableOf(m, k)
    ensures Written(created, key, backoffKey, e) == AddTwoTier(m, key, backoffKey, e)
  {
    if key == backoffKey {
      WrittenShared(m, created, key, e);
    } else {
      WrittenApart(m, created, key, backoffKey, e);
    }
  }

  /** `AddTwoTierWritten` when both keys name one table. */
  lemma WrittenShared<K, E>(m: map<K, map<E, int>>, created: map<K, map<E, int>>, key: K, e: E)
    requires created.Keys == m.Keys + {key}
    requires forall k :: k in created ==> created[k] == TableOf(m, k)
    ensures Written(created, key, key, e) == Bumped(m, key, e)
  {
    var c := TableOf(m, key);
    assert TableOf(created, key) == c;
    assert Count(created, key, e) == Count(m, key, e);
    var x := c[e := Count(m, key, e) + 1];
    assert x[e := Count(m, key, e) + 1] == x;
    assert Written(created, key, key, e) == created[key := x][key := x];
    assert forall j :: j in m ==> created[j] == m[j];
    SameWrites(m, created, key, key, x, x);
  }

  /** `AddTwoTierWritten` when the keys name two tables. */
  lemma WrittenApart<K, E>(m: map<K, map<E, int>>, created: map<K, map<E, int>>, key: K, backoffKey: K, e: E)
    requires key != backoffKey
    requires created.Keys == m.Keys + {key, backoffKey}
    requires forall k :: k in created ==> created[k] == TableOf(m, k)
    ensures Written(created, key, backoffKey, e) == Bumped(Bumped(m, key, e), backoffKey, e)
  {
    var c, b := TableOf(m, key), TableOf(m, backoffKey);
    assert TableOf(created, key) == c && TableOf(created, backoffKey) == b;
    assert Count(created, key, e) == Count(m, key, e) && Count(created, backoffKey, e) == Count(m, backoffKey, e);
    var x := c[e := Count(m, key, e) + 1];
    var y := b[e := Count(m, backoffKey, e) + 1];
    var once := m[key := x];
    assert Bumped(m, key, e) == once;
    assert TableOf(once, backoffKey) == b && Count(once, backoffKey, e) == Count(m, backoffKey, e);
    assert Bumped(once, backoffKey, e) == once[backoffKey := y];
    assert Written(created, key, backoffKey, e) == created[key := x][backoffKey := y];
    assert forall j :: j in m ==> created[j] == m[j];
    SameWrites(m, created, key, backoffKey, x, y);
  }

  /** Maps that differ only in the tables under `key` and `backoffKey` agree once both are written. */
  lemma SameWrites<K, E>(m: map<K, map<E, int>>, created: map<K, map<E, int>>, key: K, backoffKey: K,
                         x: map<E, int>, y: map<E, int>)
    requires created.Keys == m.Keys + {key, backoffKey}
    requires forall j :: j in m ==> created[j] == m[j]
    ensures created[key := x][backoffKey := y] == m[key := x][backoffKey := y]
  {
  }

  /**
   * `removeTransition`/`removeHead`: the three lookups that may throw before any change, the
   * primary decrement, then the back-off lookup (on the same table object when the keys
   * coincide) that may throw after it, and the back-off decrement.
   */
  method RemoveBoth<K, E>(m: map<K, map<E, int>>, key: K, backoffKey: K, e: E)
    returns (r: map<K, map<E, int>>, ok: bool)
    ensures Removal(r, ok) == RemoveTwoTier(m, key, backoffKey, e)
  {
    r, ok := m, false;
    if key !in r {
      return;
    }
    var conditioned := r[key];
    if backoffKey !in r {
      return;
    }
    var backoffConditioned := r[backoffKey];
    if e !in conditioned {
      return;
    }
    r := Decremented(r, key, conditioned, e);
    if backoffKey == key {
      backoffConditioned := if key in r then r[key] else map[];
    }
    if e !in backoffConditioned {
      return;
    }
    r := Decremented(r, backoffKey, backoffConditioned, e);
    ok := true;
  }

  /**
   * `getTransitionProbability`/`getHeadProbability`: the smoothed log-probability of `e`
   * under the primary table, plus that under the back-off table when the primary count is 0.
   * A missing table contributes nothing. `logSmoothed(table, count)` stands for
   * `Math.log` of the Good-Turing estimate of `count` in `table`.
   */
  function TwoTierLogProbability<K, E>(m: map<K, map<E, int>>, key: K, backoffKey: K, e: E,
                                       logSmoothed: (map<E, int>, int) -> real): (p: real)
    ensures key !in m && backoffKey !in m ==> p == 0.0
    ensures Count(m, key, e) != 0 ==> p == logSmoothed(m[key], Count(m, key, e))
    ensures key in m && Count(m, key, e) == 0 && backoffKey !in m ==> p == logSmoothed(m[key], 0)
    ensures key !in m && backoffKey in m ==>
      p == logSmoothed(m[backoffKey], Count(m, backoffKey, e))
    ensures key in m && Count(m, key, e) == 0 && backoffKey in m ==>
      p == logSmoothed(m[key], 0) + logSmoothed(m[backoffKey], Count(m, backoffKey, e))
  {
    var main := if key in m then logSmoothed(m[key], Count(m, key, e)) else 0.0;
    if Count(m, key, e) == 0 && backoffKey in m
    then main + logSmoothed(m[backoffKey], Count(m, backoffKey, e))
    else main
  }

  /** `getMeasureHeadProbability`: 0.0 when the table is missing, otherwise the smoothed
   *  log-probability of the event's count there. */
  function OneTierLogProbability<K, E>(m: map<K, map<E, int>>, key: K, e: E,
                                       logSmoothed: (map<E, int>, int) -> real): (p: real)
    ensures key !in m ==> p == 0.0
    ensures key in m ==> p == logSmoothed(m[key], Count(m, key, e))
  {
    if key !in m then 0.0 else logSmoothed(m[key], Count(m, key, e))
  }
}
