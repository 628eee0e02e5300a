/**
 Reading a whole storage map page by page
 (tools/snapshot_info.py:121-151).
 */
module StoragePaging {
  import opened Common

  const BATCH_SIZE: nat := 1000

  /** The entries of a storage map, in the node's key order. */
  type Stored<K, V> = seq<(K, V)>

  datatype Page<K, V> = Page(records: seq<(K, V)>, lastKey: Option<K>)

  ghost predicate DistinctKeys<K, V>(stored: Stored<K, V>)
  {
    forall i, j :: 0 <= i < j < |stored| ==> stored[i].0 != stored[j].0
  }

  // ----- what the node answers

  /** The number of entries up to and including the one with the key. */
  function After<K(==), V>(stored: Stored<K, V>, key: K): (n: nat)
    ensures n <= |stored|
  {
    if stored == [] then 0
    else if stored[|stored| - 1].0 == key then |stored|
    else After(stored[..|stored| - 1], key)
  }

  lemma {:induction false} AfterItsKey<K, V>(stored: Stored<K, V>, i: nat)
    requires DistinctKeys(stored) && i < |stored|
    ensures After(stored, stored[i].0) == i + 1
  {
    if i < |stored| - 1 {
      AfterItsKey(stored[..|stored| - 1], i);
    }
  }

  /** query_map: the entries that follow the start key, at most a page of them. */
  function QueryMap<K(==), V>(stored: Stored<K, V>, startKey: Option<K>, size: nat): Page<K, V>
  {
    var from := match startKey case None => 0 case Some(key) => After(stored, key);
    var to := if from + size <= |stored| then from + size else |stored|;
    Page(stored[from..to], if from < to then Some(stored[to - 1].0) else None)
  }

  // ----- what is collected

  /** The dictionary after writing every entry in order under its printed key. */
  ghost function Collected<K, V>(entries: Stored<K, V>, show: K -> string): map<string, V>
  {
    if entries == [] then map[]
    else
      var e := entries[|entries| - 1];
      Collected(entries[..|entries| - 1], show)[show(e.0) := e.1]
  }

  /** The cursor after `read` entries: the key of the last of them. */
  ghost predicate CursorAt<K, V>(stored: Stored<K, V>, startKey: Option<K>, read: nat)
  {
    && read <= |stored|
    && match startKey case None => read == 0 case Some(key) => read > 0 && key == stored[read - 1].0
  }

  lemma PageAtCursor<K, V>(stored: Stored<K, V>, startKey: Option<K>, read: nat, size: nat)
    requires DistinctKeys(stored) && CursorAt(stored, startKey, read) && size > 0
    ensures var page := QueryMap(stored, startKey, size);
            var to := if read + size <= |stored| then read + size else |stored|;
            page.records == stored[read..to] && (|page.records| == size ==> CursorAt(stored, page.lastKey, to))
  {
    if read > 0 { AfterItsKey(stored, read - 1); }
  }

  method AddPage<K, V>(
      before: map<string, V>, ghost stored: Stored<K, V>, ghost read: nat, records: seq<(K, V)>, show: K -> string)
    returns (out: map<string, V>)
    requires read + |records| <= |stored| && records == stored[read..read + |records|]
    requires before == Collected(stored[..read], show)
    ensures out == Collected(stored[..read + |records|], show)
  {
    out := before;
    for i := 0 to |records|
      invariant out == Collected(stored[..read + i], show)
    {
      assert stored[..read + i + 1][..read + i] == stored[..read + i];
      assert records[i] == stored[read + i];
      out := out[show(records[i].0) := records[i].1];
    }
  }

  /** query_storage: a plain value is returned as it is; a map is read page by page. */
  method QueryStorage<K(==), V>(plain: Option<V>, stored: Stored<K, V>, show: K -> string)
    returns (value: Option<V>, out: map<string, V>, pages: nat)
    requires DistinctKeys(stored)
    ensures value == plain
    ensures plain.None? ==> out == Collected(stored, show) && pages == |stored| / 1000 + 1
    ensures plain.Some? ==> out == map[] && pages == 0
  {
    hide QueryMap, Collected, DistinctKeys;
    value, out, pages := plain, map[], 0;
    if plain.Some? { return; }
    var startKey: Option<K> := None;
    ghost var read := 0;
    CollectedNothing(stored, show);
    while true
      invariant read == pages * BATCH_SIZE && CursorAt(stored, startKey, read)
      invariant out == Collected(stored[..read], show)
      decreases |stored| - read
    {
      PageAtCursor(stored, startKey, read, BATCH_SIZE);
      var page := QueryMap(stored, startKey, BATCH_SIZE);
      out := AddPage(out, stored, read, page.records, show);
      pages := pages + 1;
      if |page.records| < BATCH_SIZE {
        assert stored[..|stored|] == stored;
        break;
      }
      startKey := page.lastKey;
      read := read + BATCH_SIZE;
    }
  }

  lemma CollectedNothing<K, V>(stored: Stored<K, V>, show: K -> string)
    ensures Collected(stored[..0], show) == map[]
  {
  }

  // ----- completeness

  ghost predicate PrintsDistinctly<K, V>(stored: Stored<K, V>, show: K -> string)
  {
    forall i, j :: 0 <= i < j < |stored| ==> show(stored[i].0) != show(stored[j].0)
  }

  /** The i-th entry is the last with its printed key. */
  ghost predicate LastNamed<K, V>(stored: Stored<K, V>, show: K -> string, i: int, name: string)
  {
    && 0 <= i < |stored| && show(stored[i].0) == name
    && forall j :: i < j < |stored| ==> show(stored[j].0) != name
  }

  lemma LastNamedStays<K, V>(stored: Stored<K, V>, show: K -> string, i: int, name: string)
    requires stored != [] && show(stored[|stored| - 1].0) != name
    requires LastNamed(stored[..|stored| - 1], show, i, name)
    ensures LastNamed(stored, show, i, name) && stored[i] == stored[..|stored| - 1][i]
  {
    var init := stored[..|stored| - 1];
    forall j | i < j < |stored|
      ensures show(stored[j].0) != name
    {
      if j < |stored| - 1 { assert show(init[j].0) != name; }
    }
  }

  lemma {:induction false} CollectedLast<K, V>(stored: Stored<K, V>, show: K -> string)
    ensures forall name :: name in Collected(stored, show) ==>
              exists i :: LastNamed(stored, show, i, name) && stored[i].1 == Collected(stored, show)[name]
    ensures forall i :: 0 <= i < |stored| ==> show(stored[i].0) in Collected(stored, show)
    ensures |Collected(stored, show)| <= |stored|
  {
    if stored != [] {
      var n := |stored| - 1;
      var init := stored[..n];
      CollectedLast(init, show);
      forall name | name in Collected(stored, show)
        ensures exists i :: LastNamed(stored, show, i, name) && stored[i].1 == Collected(stored, show)[name]
      {
        if name == show(stored[n].0) {
          assert LastNamed(stored, show, n, name);
        } else {
          var i :| LastNamed(init, show, i, name) && init[i].1 == Collected(init, show)[name];
          LastNamedStays(stored, show, i, name);
        }
      }
      assert forall i :: 0 <= i < n ==> init[i] == stored[i];
    }
  }

  /** The result has every printed key, with the value of the last entry that prints it, and no other. */
  lemma CollectedWasStored<K, V>(stored: Stored<K, V>, show: K -> string)
    ensures forall name :: name in Collected(stored, show) ==>
              exists i ::
                && 0 <= i < |stored| && show(stored[i].0) == name && stored[i].1 == Collected(stored, show)[name]
                && forall j :: i < j < |stored| ==> show(stored[j].0) != name
    ensures forall i :: 0 <= i < |stored| ==> show(stored[i].0) in Collected(stored, show)
    ensures |Collected(stored, show)| <= |stored|
  {
    hide Collected;
    CollectedLast(stored, show);
    forall name | name in Collected(stored, show)
      ensures exists i ::
                && 0 <= i < |stored| && show(stored[i].0) == name && stored[i].1 == Collected(stored, show)[name]
                && forall j :: i < j < |stored| ==> show(stored[j].0) != name
    {
      var i :| LastNamed(stored, show, i, name) && stored[i].1 == Collected(stored, show)[name];
    }
  }

  /** Every entry is in the result, one name each, exactly when the keys print distinctly. */
  lemma {:induction false} NoEntryLostIff<K, V>(stored: Stored<K, V>, show: K -> string)
    ensures |Collected(stored, show)| == |stored| <==> PrintsDistinctly(stored, show)
    ensures PrintsDistinctly(stored, show) ==>
              forall i :: 0 <= i < |stored| ==>
                && show(stored[i].0) in Collected(stored, show)
                && Collected(stored, show)[show(stored[i].0)] == stored[i].1
  {
    CollectedWasStored(stored, show);
    if stored != [] {
      var n := |stored| - 1;
      var init, name := stored[..n], show(stored[n].0);
      NoEntryLostIff(init, show);
      CollectedWasStored(init, show);
      assert PrintsDistinctly(stored, show) <==>
             PrintsDistinctly(init, show) && name !in Collected(init, show) by {
        LastNameIsNewIff(stored, show);
      }
      if PrintsDistinctly(stored, show) {
        forall i | 0 <= i < |stored|
          ensures Collected(stored, show)[show(stored[i].0)] == stored[i].1
        {
          if i < n { assert init[i] == stored[i]; }
        }
      }
    }
  }

  lemma LastNameIsNewIff<K, V>(stored: Stored<K, V>, show: K -> string)
    requires stored != []
    ensures var init := stored[..|stored| - 1];
            PrintsDistinctly(stored, show) <==>
            PrintsDistinctly(init, show) && show(stored[|stored| - 1].0) !in Collected(init, show)
  {
    var n := |stored| - 1;
    var init, name := stored[..n], show(stored[n].0);
    CollectedWasStored(init, show);
    assert forall i :: 0 <= i < n ==> init[i] == stored[i];
    if name in Collected(init, show) {
      var i :| 0 <= i < n && show(init[i].0) == name;
      assert show(stored[i].0) == show(stored[n].0);
    }
    if PrintsDistinctly(init, show) && name !in Collected(init, show) {
      forall i, j | 0 <= i < j < |stored|
        ensures show(stored[i].0) != show(stored[j].0)
      {
        if j < n {
          assert show(init[i].0) != show(init[j].0);
        } else {
          assert show(init[i].0) in Collected(init, show);
        }
      }
    }
  }
}
