/** The translation cache: a JavaScript `Map` used as an ordered map whose
    insertion order is recency order, bounded by `maxCacheEntries`, loaded
    from and saved to userscript storage.

    `Lru` is the abstract value (the keys oldest first, and the stored
    values); `TranslationCache` is the mutable cache the script keeps in a
    module-level variable. */
module LruCache {
  import opened Text

  /** The keys of the map in insertion order, oldest first, and what each
      key maps to. */
  datatype Lru = Lru(keys: seq<string>, values: map<string, string>)

  const Empty := Lru([], map[])

  predicate Distinct(s: seq<string>) {
    forall i, j :: 0 <= i < j < |s| ==> s[i] != s[j]
  }

  /** An ordered map: each key once, and the keys are those of the values. */
  ghost predicate WellFormed(c: Lru) {
    Distinct(c.keys) && (forall k :: k in c.values <==> k in c.keys)
  }

  /** `s` without `k`, the others in order. */
  function Remove(s: seq<string>, k: string): (r: seq<string>)
    ensures |r| <= |s|
  {
    if s == [] then []
    else if s[0] == k then Remove(s[1..], k)
    else [s[0]] + Remove(s[1..], k)
  }

  /** What `Remove` keeps: every other element, each once if they were. */
  lemma {:induction false} RemoveFacts(s: seq<string>, k: string)
    ensures forall x :: x in Remove(s, k) <==> x in s && x != k
    ensures k !in s ==> Remove(s, k) == s
    ensures Distinct(s) ==> Distinct(Remove(s, k))
    ensures Distinct(s) && k in s ==> |Remove(s, k)| == |s| - 1
    decreases |s|
  {
    if s != [] {
      RemoveFacts(s[1..], k);
      assert Distinct(s) ==> s[0] !in s[1..] && Distinct(s[1..]);
      if s[0] != k {
        var rest := Remove(s[1..], k);
        assert forall x :: x in [s[0]] + rest <==> x == s[0] || x in rest;
        DistinctCons(s[0], rest);
      }
      assert k in s && s[0] != k ==> k in s[1..];
    }
  }

  lemma DistinctCons(x: string, r: seq<string>)
    ensures Distinct(r) && x !in r ==> Distinct([x] + r)
  {
    if Distinct(r) && x !in r {
      var s := [x] + r;
      forall i, j | 0 <= i < j < |s|
        ensures s[i] != s[j]
      {
        assert s[j] == r[j - 1];
        if i > 0 { assert s[i] == r[i - 1]; }
      }
    }
  }

  /** `Map.prototype.delete`. */
  function Delete(c: Lru, k: string): (r: Lru)
    requires WellFormed(c)
    ensures WellFormed(r)
    ensures k in c.values ==> |r.keys| == |c.keys| - 1
  {
    RemoveFacts(c.keys, k);
    Lru(Remove(c.keys, k), c.values - {k})
  }

  /** `Map.prototype.set`: a new key goes to the newest end; a key already
      present keeps its place and takes the new value. */
  function Insert(c: Lru, k: string, v: string): (r: Lru)
    requires WellFormed(c)
    ensures WellFormed(r)
  {
    if k in c.values then Lru(c.keys, c.values[k := v])
    else
      var r := Lru(c.keys + [k], c.values[k := v]);
      assert forall x :: x in r.keys <==> x in c.keys || x == k;
      r
  }

  /** The `while (map.size > maxEntries)` loop that deletes the first key,
      stopped once the map is empty (see the finding in `TrimAsWritten`). */
  function TrimTo(c: Lru, n: int): (r: Lru)
    requires WellFormed(c)
    ensures WellFormed(r)
    decreases |c.keys|
  {
    if |c.keys| > n && c.keys != [] then
      RemoveHead(c);
      TrimTo(Delete(c, c.keys[0]), n)
    else c
  }

  /** `r` holds the `m` newest entries of `c`: its keys are the last `m`
      keys of `c`, in order, each with the value it has in `c`. */
  ghost predicate NewestOf(r: Lru, c: Lru, m: nat)
    requires m <= |c.keys|
  {
    r.keys == c.keys[|c.keys| - m..]
    && forall k :: k in r.values ==> k in c.values && r.values[k] == c.values[k]
  }

  /** How many entries a map of `size` entries keeps under limit `n`. */
  function Kept(size: nat, n: int): (m: nat)
    ensures m <= size && m <= Max(n, 0)
    ensures m == size || m == Max(n, 0)
  {
    Min(size, Max(n, 0))
  }

  /** `getFromCache`: the value for `k`, or the empty string; a hit deletes
      the key and sets it again, which makes it the newest. */
  function Lookup(c: Lru, k: string): (r: (string, Lru))
    requires WellFormed(c)
    ensures WellFormed(r.1)
  {
    if k in c.values then (c.values[k], Insert(Delete(c, k), k, c.values[k])) else ("", c)
  }

  /** `setCache`: delete the key if present, set it, trim to the limit. */
  function Put(c: Lru, k: string, v: string, n: int): (r: Lru)
    requires WellFormed(c)
    ensures WellFormed(r)
  {
    TrimTo(Insert(Delete(c, k), k, v), n)
  }

  /** `Object.fromEntries(cache.entries())`: the entries oldest first. */
  function Pairs(c: Lru): (r: seq<(string, string)>)
    requires WellFormed(c)
    ensures |r| == |c.keys|
    ensures forall i :: 0 <= i < |r| ==> r[i] == (c.keys[i], c.values[c.keys[i]])
  {
    seq(|c.keys|, i requires 0 <= i < |c.keys| => (c.keys[i], c.values[c.keys[i]]))
  }

  /** `new Map(entries)`: the entries are set one after another, so a
      repeated key keeps its first place and its last value. */
  function FromPairs(pairs: seq<(string, string)>): (r: Lru)
    ensures WellFormed(r)
    decreases |pairs|
  {
    if pairs == [] then Empty
    else
      var last := pairs[|pairs| - 1];
      Insert(FromPairs(pairs[..|pairs| - 1]), last.0, last.1)
  }

  /** What storage holds under the cache key: nothing (or a falsy parse
      result), text that is not JSON, or a saved object's entries in order. */
  datatype Stored = Absent | Unparsable | Entries(pairs: seq<(string, string)>)

  /** `loadCache`. */
  function LoadSpec(stored: Stored, n: int): (r: Lru)
    ensures WellFormed(r)
  {
    match stored
    case Entries(pairs) => TrimTo(FromPairs(pairs), n)
    case _ => Empty
  }

  // ---------------------------------------------------------------- lemmas

  /** Removing the oldest key leaves the other keys in order. */
  lemma RemoveHead(c: Lru)
    requires WellFormed(c) && c.keys != []
    ensures Remove(c.keys, c.keys[0]) == c.keys[1..]
  {
    assert c.keys[0] !in c.keys[1..];
    RemoveFacts(c.keys[1..], c.keys[0]);
  }

  lemma {:induction false} DistinctCard(s: seq<string>)
    requires Distinct(s)
    ensures |set x | x in s| == |s|
    decreases |s|
  {
    if s != [] {
      assert Distinct(s[1..]);
      DistinctCard(s[1..]);
      assert (set x | x in s) == (set x | x in s[1..]) + {s[0]};
      assert s[0] !in s[1..];
    }
  }

  /** The map's `size` is the number of keys. */
  lemma SizeIsKeyCount(c: Lru)
    requires WellFormed(c)
    ensures |c.values| == |c.keys|
  {
    DistinctCard(c.keys);
    assert c.values.Keys == set x | x in c.keys;
  }

  /** Trimming keeps exactly the newest `max(n, 0)` entries, in their order,
      with their values. */
  lemma {:induction false} TrimKeepsNewest(c: Lru, n: int)
    requires WellFormed(c)
    ensures NewestOf(TrimTo(c, n), c, Kept(|c.keys|, n))
    decreases |c.keys|
  {
    if |c.keys| > n && c.keys != [] {
      RemoveHead(c);
      var d := Delete(c, c.keys[0]);
      TrimKeepsNewest(d, n);
      var m := Kept(|d.keys|, n);
      assert m == Kept(|c.keys|, n);
      assert d.keys[|d.keys| - m..] == c.keys[|c.keys| - m..];
    } else {
      assert c.keys[0..] == c.keys;
    }
  }

  /** The size bound: at most `max(n, 0)` entries survive, and a map that
      fits is left alone. */
  lemma TrimBound(c: Lru, n: int)
    requires WellFormed(c)
    ensures |TrimTo(c, n).values| <= Max(n, 0)
    ensures |c.values| <= n ==> TrimTo(c, n) == c
  {
    TrimKeepsNewest(c, n);
    SizeIsKeyCount(c);
    SizeIsKeyCount(TrimTo(c, n));
  }

  /** Moving a key to the newest end. */
  function Touch(c: Lru, k: string): (r: Lru)
    requires WellFormed(c)
  {
    Lru(Remove(c.keys, k) + [k], c.values)
  }

  /** Deleting a key and setting it again moves it to the newest end. */
  lemma DeleteThenInsert(c: Lru, k: string, v: string)
    requires WellFormed(c)
    ensures Insert(Delete(c, k), k, v) == Lru(Remove(c.keys, k) + [k], c.values[k := v])
  {
    var d := Delete(c, k);
    assert d.values[k := v] == c.values[k := v];
  }

  /** `set` keeps the newest entries of the old ones with the key moved to
      the end and given the new value. */
  lemma PutIsNewest(c: Lru, k: string, v: string, n: int)
    requires WellFormed(c)
    ensures var moved := Lru(Remove(c.keys, k) + [k], c.values[k := v]);
      WellFormed(moved) && NewestOf(Put(c, k, v, n), moved, Kept(|moved.keys|, n))
  {
    DeleteThenInsert(c, k, v);
    TrimKeepsNewest(Insert(Delete(c, k), k, v), n);
  }

  /** After `set` with a positive limit the key is the newest entry and
      holds the new value; at most `max(n, 0)` entries remain. */
  lemma PutNewest(c: Lru, k: string, v: string, n: int)
    requires WellFormed(c)
    ensures |Put(c, k, v, n).values| <= Max(n, 0)
    ensures var r := Put(c, k, v, n);
      n >= 1 ==> r.keys != [] && r.keys[|r.keys| - 1] == k && k in r.values && r.values[k] == v
  {
    TrimBound(Insert(Delete(c, k), k, v), n);
    PutIsNewest(c, k, v, n);
    var moved := Lru(Remove(c.keys, k) + [k], c.values[k := v]);
    var r := Put(c, k, v, n);
    if n >= 1 {
      assert r.keys[|r.keys| - 1] == moved.keys[|moved.keys| - 1];
    }
  }

  /** Every other entry that survives `set` is an old entry, unchanged. */
  lemma PutKeepsOthers(c: Lru, k: string, v: string, n: int)
    requires WellFormed(c)
    ensures var r := Put(c, k, v, n);
      forall x :: x in r.values && x != k ==> x in c.values && r.values[x] == c.values[x]
  {
    PutIsNewest(c, k, v, n);
  }

  /** A hit returns the stored value and only moves that key to the newest
      end: the key set and every value stay as they were. */
  lemma LookupHit(c: Lru, k: string)
    requires WellFormed(c) && k in c.values
    ensures Lookup(c, k) == (c.values[k], Touch(c, k))
    ensures Lookup(c, k).1.values == c.values
    ensures |Lookup(c, k).1.keys| == |c.keys|
  {
    var d := Delete(c, k);
    assert d.values[k := c.values[k]] == c.values;
    RemoveFacts(c.keys, k);
  }

  /** A miss returns the empty string and leaves the cache as it was. */
  lemma LookupMiss(c: Lru, k: string)
    requires WellFormed(c) && k !in c.values
    ensures Lookup(c, k) == ("", c)
  {
  }

  /** `set` on a map with room left only moves the key to the newest end. */
  lemma PutFits(c: Lru, k: string, v: string, n: int)
    requires WellFormed(c) && |Remove(c.keys, k)| < n
    ensures Put(c, k, v, n) == Lru(Remove(c.keys, k) + [k], c.values[k := v])
  {
    DeleteThenInsert(c, k, v);
    var moved := Insert(Delete(c, k), k, v);
    SizeIsKeyCount(moved);
    TrimBound(moved, n);
  }

  /** Capacity 2: setting A, B and C in turn leaves exactly B and C. */
  lemma CapacityTwo(a: string, b: string, cKey: string, x: string, y: string, z: string)
    requires a != b && b != cKey && a != cKey
    ensures Put(Put(Put(Empty, a, x, 2), b, y, 2), cKey, z, 2) == Lru([b, cKey], map[b := y, cKey := z])
  {
    PutFits(Empty, a, x, 2);
    var one := Lru([a], map[a := x]);
    assert Put(Empty, a, x, 2) == one;
    assert Remove([a], b) == [a];
    PutFits(one, b, y, 2);
    var two := Lru([a, b], map[a := x, b := y]);
    assert Put(one, b, y, 2) == two;
    ThirdEvictsFirst(a, b, cKey, x, y, z);
  }

  lemma ThirdEvictsFirst(a: string, b: string, cKey: string, x: string, y: string, z: string)
    requires a != b && b != cKey && a != cKey
    ensures Put(Lru([a, b], map[a := x, b := y]), cKey, z, 2) == Lru([b, cKey], map[b := y, cKey := z])
  {
    ThirdAppended(a, b, cKey, x, y, z);
    FirstEvicted(a, b, cKey, x, y, z);
  }

  lemma ThirdAppended(a: string, b: string, cKey: string, x: string, y: string, z: string)
    requires a != b && b != cKey && a != cKey
    ensures var two := Lru([a, b], map[a := x, b := y]);
      WellFormed(two) && Insert(Delete(two, cKey), cKey, z) == Lru([a, b, cKey], map[a := x, b := y, cKey := z])
  {
    var two := Lru([a, b], map[a := x, b := y]);
    assert Remove([a, b], cKey) == [a, b];
    DeleteThenInsert(two, cKey, z);
  }

  lemma FirstEvicted(a: string, b: string, cKey: string, x: string, y: string, z: string)
    requires a != b && b != cKey && a != cKey
    ensures var three := Lru([a, b, cKey], map[a := x, b := y, cKey := z]);
      WellFormed(three) && TrimTo(three, 2) == Lru([b, cKey], map[b := y, cKey := z])
  {
    var three := Lru([a, b, cKey], map[a := x, b := y, cKey := z]);
    var left := Lru([b, cKey], map[b := y, cKey := z]);
    RemoveHead(three);
    assert three.values - {a} == left.values;
    assert Delete(three, a) == left;
  }

  /** Loading pairs with distinct keys rebuilds them in the same order. */
  lemma {:induction false} FromDistinctPairs(pairs: seq<(string, string)>)
    requires forall i, j :: 0 <= i < j < |pairs| ==> pairs[i].0 != pairs[j].0
    ensures |FromPairs(pairs).keys| == |pairs|
    ensures forall i :: 0 <= i < |pairs| ==>
      FromPairs(pairs).keys[i] == pairs[i].0 && FromPairs(pairs).values[pairs[i].0] == pairs[i].1
    decreases |pairs|
  {
    if pairs != [] {
      var prefix := pairs[..|pairs| - 1];
      var last := pairs[|pairs| - 1];
      FromDistinctPairs(prefix);
      var f := FromPairs(prefix);
      assert last.0 !in f.keys by {
        forall i | 0 <= i < |f.keys|
          ensures f.keys[i] != last.0
        {
          assert prefix[i] == pairs[i];
        }
      }
      var r := FromPairs(pairs);
      assert r == Lru(f.keys + [last.0], f.values[last.0 := last.1]);
      forall i | 0 <= i < |pairs|
        ensures r.keys[i] == pairs[i].0 && r.values[pairs[i].0] == pairs[i].1
      {
        if i < |prefix| {
          assert prefix[i] == pairs[i];
          assert f.keys[i] in f.keys;
        }
      }
    }
  }

  /** Saving the entries and loading them again gives the cache back,
      trimmed to the limit in force at load time. */
  lemma SaveThenLoad(c: Lru, n: int)
    requires WellFormed(c)
    ensures LoadSpec(Entries(Pairs(c)), n) == TrimTo(c, n)
  {
    var p := Pairs(c);
    FromDistinctPairs(p);
    var f := FromPairs(p);
    assert f.keys == c.keys;
    forall k | k in c.values
      ensures f.values[k] == c.values[k]
    {
      var i :| 0 <= i < |c.keys| && c.keys[i] == k;
      assert p[i].0 == k;
    }
    assert f.values == c.values;
  }

  /** Missing or unparsable storage loads as an empty cache. */
  lemma LoadNothing(n: int)
    ensures LoadSpec(Absent, n) == Empty && LoadSpec(Unparsable, n) == Empty
  {
  }

  // ------------------------------------------------------- as-written loop

  /** One turn of the body of the source's trimming loop: delete the first
      key, which on an empty map is `delete(undefined)` and changes nothing. */
  function DeleteFirstAsWritten(c: Lru): (r: Lru)
    requires WellFormed(c)
    ensures WellFormed(r)
    ensures c.keys == [] ==> r == c
  {
    if c.keys == [] then c else Delete(c, c.keys[0])
  }

  /** The state after `steps` turns of the loop as written, or sooner if
      its guard `size > maxEntries` fails. */
  function TrimAsWritten(c: Lru, n: int, steps: nat): (r: Lru)
    requires WellFormed(c)
    ensures WellFormed(r)
    decreases steps
  {
    if steps == 0 || !(|c.values| > n) then c
    else TrimAsWritten(DeleteFirstAsWritten(c), n, steps - 1)
  }

  /** With a negative limit the guard still holds after any number of
      turns, starting from any cache, and from the turn the map is empty
      on nothing changes: the loop never exits. */
  lemma {:induction false} TrimAsWrittenNeverExits(c: Lru, n: int, steps: nat)
    requires WellFormed(c) && n < 0
    ensures |TrimAsWritten(c, n, steps).values| > n
    ensures steps >= |c.keys| ==> TrimAsWritten(c, n, steps).keys == []
    decreases steps
  {
    if steps > 0 {
      var d := DeleteFirstAsWritten(c);
      assert c.keys != [] ==> d.keys == c.keys[1..] by {
        if c.keys != [] { RemoveHead(c); }
      }
      TrimAsWrittenNeverExits(d, n, steps - 1);
    }
  }

  /** The corrected loop, which also stops at the empty map, always ends
      and leaves no entry for a negative limit. */
  lemma TrimToNegative(c: Lru, n: int)
    requires WellFormed(c) && n < 0
    ensures TrimTo(c, n).keys == [] && |TrimTo(c, n).values| == 0
  {
    TrimKeepsNewest(c, n);
    SizeIsKeyCount(TrimTo(c, n));
  }

  // ---------------------------------------------------------- mutable cache

  /** The cache object: the ordered map, what storage last received, and
      whether a save is scheduled (the debounce timer of `persistCacheSoon`). */
  class TranslationCache {
    var keys: seq<string>
    var values: map<string, string>
    var saved: Stored
    var saveScheduled: bool

    function Contents(): Lru
      reads this
    {
      Lru(keys, values)
    }

    ghost predicate Valid()
      reads this
    {
      WellFormed(Contents())
    }

    /** `loadCache(maxEntries)`: the stored entries, in order, trimmed. */
    constructor Load(stored: Stored, maxEntries: int)
      ensures Valid()
      ensures Contents() == LoadSpec(stored, maxEntries)
      ensures saved == stored && !saveScheduled
    {
      var start := match stored
        case Entries(pairs) => FromPairs(pairs)
        case _ => Empty;
      keys := start.keys;
      values := start.values;
      saved := stored;
      saveScheduled := false;
      new;
      Trim(maxEntries);
    }

    /** `trimCacheToLimit`: delete the oldest key while the map is over
        the limit and not empty. */
    method Trim(maxEntries: int)
      requires Valid()
      modifies this
      ensures Valid()
      ensures Contents() == TrimTo(old(Contents()), maxEntries)
      ensures saved == old(saved) && saveScheduled == old(saveScheduled)
    {
      while |values| > maxEntries && keys != []
        invariant Valid()
        invariant TrimTo(Contents(), maxEntries) == TrimTo(old(Contents()), maxEntries)
        invariant saved == old(saved) && saveScheduled == old(saveScheduled)
        decreases |keys|
      {
        SizeIsKeyCount(Contents());
        RemoveHead(Contents());
        var oldest := keys[0];
        keys := keys[1..];
        values := values - {oldest};
      }
      SizeIsKeyCount(Contents());
    }

    /** `getFromCache`. */
    method Get(key: string) returns (value: string)
      requires Valid()
      modifies this
      ensures Valid()
      ensures (value, Contents()) == Lookup(old(Contents()), key)
      ensures saved == old(saved) && saveScheduled == old(saveScheduled)
    {
      if key !in values {
        return "";
      }
      value := values[key];
      DeleteThenInsert(Contents(), key, value);
      keys := Remove(keys, key);
      values := values - {key};
      keys := keys + [key];
      values := values[key := value];
    }

    /** `persistCacheSoon`: a save is (re)scheduled. */
    method ScheduleSave()
      modifies this
      ensures keys == old(keys) && values == old(values) && saved == old(saved)
      ensures saveScheduled
    {
      saveScheduled := true;
    }

    /** The debounce timer firing: storage receives the entries in order. */
    method SaveNow()
      requires Valid() && saveScheduled
      modifies this
      ensures Valid() && Contents() == old(Contents())
      ensures saved == Entries(Pairs(Contents())) && !saveScheduled
    {
      saveScheduled := false;
      saved := Entries(Pairs(Contents()));
    }

    /** `setCache`. */
    method Set(key: string, value: string, maxEntries: int)
      requires Valid()
      modifies this
      ensures Valid()
      ensures Contents() == Put(old(Contents()), key, value, maxEntries)
      ensures saved == old(saved) && saveScheduled
    {
      RemoveFacts(keys, key);
      if key in values {
        keys := Remove(keys, key);
        values := values - {key};
      }
      assert values == old(values) - {key};
      assert Contents() == Delete(old(Contents()), key);
      keys := keys + [key];
      values := values[key := value];
      Trim(maxEntries);
      ScheduleSave();
    }

    /** `resetCache`: the map is cleared and storage receives `{}` at once;
        a save already scheduled stays scheduled. */
    method Reset()
      modifies this
      ensures Valid() && Contents() == Empty
      ensures saved == Entries([]) && saveScheduled == old(saveScheduled)
    {
      keys := [];
      values := map[];
      saved := Entries([]);
    }
  }

  /** What a save followed by a reload gives, stated on the object. */
  lemma ReloadAfterSave(c: Lru, n: int)
    requires WellFormed(c) && |c.values| <= n
    ensures LoadSpec(Entries(Pairs(c)), n) == c
  {
    SaveThenLoad(c, n);
    TrimBound(c, n);
  }
}
