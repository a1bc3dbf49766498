/**
 The byte-budgeted in-process cache of cache/memorycache.go.

 `MemState` is the value of a `memoryCache` (its limits, its map and its running byte
 count) and `SetState`, `DelState` and `Trim` say what each operation makes of it; the
 class `MemoryCache` is the cache itself, whose methods update its fields in place and
 are proved to produce exactly those states. The invariant of the source's accounting is
 `Consistent`: `memoryUsage` is the sum of the data lengths of the stored objects.
 */
module Memory {
  import opened Wrappers
  import opened Text
  import opened CacheObject

  // ---------------------------------------------------------------------------------
  // Sizes of maps. Summing the objects of a map needs the keys in some fixed order;
  // the lexicographic order picks the next key deterministically.
  // ---------------------------------------------------------------------------------

  /** Lexicographic order on keys. */
  predicate LexLe(a: string, b: string)
    decreases |a|
  {
    |a| == 0 || (|b| > 0 && (a[0] < b[0] || (a[0] == b[0] && LexLe(a[1..], b[1..]))))
  }

  lemma {:induction false} LexTotal(a: string, b: string)
    ensures LexLe(a, b) || LexLe(b, a)
    decreases |a|
  {
    if |a| > 0 && |b| > 0 && a[0] == b[0] {
      LexTotal(a[1..], b[1..]);
    }
  }

  lemma {:induction false} LexAntisymmetric(a: string, b: string)
    requires LexLe(a, b) && LexLe(b, a)
    ensures a == b
    decreases |a|
  {
    if |a| > 0 {
      LexAntisymmetric(a[1..], b[1..]);
    }
  }

  lemma {:induction false} LexTransitive(a: string, b: string, c: string)
    requires LexLe(a, b) && LexLe(b, c)
    ensures LexLe(a, c)
    decreases |a|
  {
    if |a| > 0 && a[0] == b[0] && b[0] == c[0] {
      LexTransitive(a[1..], b[1..], c[1..]);
    }
  }

  /** `k` is the least key of `keys`. */
  predicate IsLeast(k: string, keys: set<string>)
  {
    k in keys && forall j {:trigger LexLe(k, j)} :: j in keys ==> LexLe(k, j)
  }

  lemma {:induction false} LeastExists(keys: set<string>)
    requires keys != {}
    ensures exists k :: IsLeast(k, keys)
    decreases |keys|
  {
    var x :| x in keys;
    if keys == {x} {
      LexTotal(x, x);
      assert IsLeast(x, keys);
    } else {
      LeastExists(keys - {x});
      var m :| IsLeast(m, keys - {x});
      LexTotal(x, m);
      if LexLe(x, m) {
        forall j | j in keys ensures LexLe(x, j) {
          if j != x { LexTransitive(x, m, j); } else { LexTotal(x, x); }
        }
        assert IsLeast(x, keys);
      } else {
        assert IsLeast(m, keys);
      }
    }
  }

  /** The least key of a non-empty key set. */
  function MinKey(keys: set<string>): (k: string)
    requires keys != {}
    ensures IsLeast(k, keys)
  {
    LeastExists(keys);
    assert forall a, b :: IsLeast(a, keys) && IsLeast(b, keys) ==> a == b by {
      forall a, b | IsLeast(a, keys) && IsLeast(b, keys) ensures a == b {
        LexAntisymmetric(a, b);
      }
    }
    var k :| IsLeast(k, keys);
    k
  }

  /** The sum of the data lengths of the objects of `m`. */
  function TotalSize(m: map<string, Object>): nat
    decreases |m|
  {
    if |m| == 0 then 0
    else
      var k := MinKey(m.Keys);
      assert |m - {k}| == |m| - 1 by { assert (m - {k}).Keys == m.Keys - {k}; }
      |m[k].data| + TotalSize(m - {k})
  }

  /** Removing any one key takes exactly that object's length off the total. */
  lemma {:induction false} TotalSizeRemove(m: map<string, Object>, k: string)
    requires k in m
    ensures TotalSize(m) == |m[k].data| + TotalSize(m - {k})
    decreases |m|
  {
    assert |m| > 0 by { assert k in m.Keys; }
    var j := MinKey(m.Keys);
    if j != k {
      assert |m - {j}| < |m| by { assert (m - {j}).Keys == m.Keys - {j}; }
      assert |m - {k}| < |m| by { assert (m - {k}).Keys == m.Keys - {k}; }
      TotalSizeRemove(m - {j}, k);
      TotalSizeRemove(m - {k}, j);
      assert m - {j} - {k} == m - {k} - {j};
    }
  }

  /** The entries of `m` whose keys are in `keys`. */
  function Restrict(m: map<string, Object>, keys: set<string>): map<string, Object>
  {
    map k | k in m && k in keys :: m[k]
  }

  /** The total of a map is the total of the part on `keys` plus the total of the rest. */
  lemma {:induction false} TotalSizeSplit(m: map<string, Object>, keys: set<string>)
    ensures TotalSize(m) == TotalSize(Restrict(m, keys)) + TotalSize(m - keys)
    decreases |m|
  {
    if |m| == 0 {
      assert Restrict(m, keys) == map[];
      assert m - keys == map[];
    } else {
      var k :| k in m;
      assert |m - {k}| < |m| by { assert (m - {k}).Keys == m.Keys - {k}; }
      TotalSizeSplit(m - {k}, keys);
      TotalSizeRemove(m, k);
      if k in keys {
        SplitStepInside(m, keys, k);
      } else {
        SplitStepOutside(m, keys, k);
      }
    }
  }

  /** Removing a key of `keys` takes its length off the part on `keys` only. */
  lemma SplitStepInside(m: map<string, Object>, keys: set<string>, k: string)
    requires k in m && k in keys
    ensures TotalSize(Restrict(m, keys)) == |m[k].data| + TotalSize(Restrict(m - {k}, keys))
    ensures TotalSize(m - keys) == TotalSize((m - {k}) - keys)
  {
    assert k in Restrict(m, keys) && Restrict(m, keys)[k] == m[k];
    TotalSizeRemove(Restrict(m, keys), k);
    assert Restrict(m, keys) - {k} == Restrict(m - {k}, keys);
    assert m - keys == (m - {k}) - keys;
  }

  /** Removing a key outside `keys` takes its length off the rest only. */
  lemma SplitStepOutside(m: map<string, Object>, keys: set<string>, k: string)
    requires k in m && k !in keys
    ensures TotalSize(Restrict(m, keys)) == TotalSize(Restrict(m - {k}, keys))
    ensures TotalSize(m - keys) == |m[k].data| + TotalSize((m - {k}) - keys)
  {
    assert Restrict(m, keys) == Restrict(m - {k}, keys);
    assert k in m - keys;
    TotalSizeRemove(m - keys, k);
    assert (m - keys) - {k} == (m - {k}) - keys;
  }

  // ---------------------------------------------------------------------------------
  // The value of a memoryCache and what each operation makes of it
  // ---------------------------------------------------------------------------------

  /** The fields of `memoryCache` (memorycache.go:10-16), without its lock. */
  datatype MemState = MemState(memoryLimit: int, objectLimit: int,
                               objects: map<string, Object>, memoryUsage: int)

  /** The accounting invariant: the byte count is the sum of the stored lengths. */
  predicate Consistent(s: MemState)
  {
    s.memoryUsage == TotalSize(s.objects)
  }

  /** The stored bytes are within the memory budget. */
  predicate WithinBudget(s: MemState)
  {
    s.memoryUsage <= s.memoryLimit
  }

  /** No stored object is longer than the per-object limit (0 = no limit). */
  predicate WithinObjectLimit(s: MemState)
  {
    s.objectLimit != 0 ==> forall k :: k in s.objects ==> |s.objects[k].data| <= s.objectLimit
  }

  /** `NewMemoryCache(memoryLimit, objectLimit)`: an empty cache with those limits. */
  function New(memoryLimit: int, objectLimit: int): (s: MemState)
    ensures s.objects == map[] && s.memoryUsage == 0
    ensures s.memoryLimit == memoryLimit && s.objectLimit == objectLimit
    ensures Consistent(s) && WithinObjectLimit(s)
  {
    MemState(memoryLimit, objectLimit, map[], 0)
  }

  /** `item` is over the object limit, so `Set` will not keep it. */
  predicate Oversized(s: MemState, item: Object): (b: bool)
    ensures s.objectLimit == 0 ==> !b
    ensures s.objectLimit != 0 ==> (b <==> |item.data| > s.objectLimit)
  {
    s.objectLimit != 0 && |item.data| > s.objectLimit
  }

  /** The byte count once the old entry for `path`, if any, is taken off. */
  function UsageWithout(s: MemState, path: string): int
  {
    if path in s.objects then s.memoryUsage - |s.objects[path].data| else s.memoryUsage
  }

  /** Storing `item` at `path` would take the byte count over the budget. */
  predicate Overflows(s: MemState, path: string, item: Object): (b: bool)
    ensures Consistent(s) ==> (b <==> TotalSize(s.objects[path := item]) > s.memoryLimit)
  {
    TotalSizeWithout(s.objects, path);
    TotalSizeInsert(s.objects, path, item);
    UsageWithout(s, path) + |item.data| > s.memoryLimit
  }

  /** `trim`: drop every object and reset the byte count. */
  function Trimmed(s: MemState): (r: MemState)
    ensures r.objects == map[] && r.memoryUsage == 0 && Consistent(r)
    ensures r.memoryLimit == s.memoryLimit && r.objectLimit == s.objectLimit
  {
    s.(objects := map[], memoryUsage := 0)
  }

  /**
   `Set(path, item)`: the old entry's length comes off the count; an oversized item is
   not stored and its key is removed; otherwise the cache is trimmed when the item would
   take the count over the budget, and the item is stored and counted.
   */
  function SetState(s: MemState, path: string, item: Object): (r: MemState)
    ensures r.memoryLimit == s.memoryLimit && r.objectLimit == s.objectLimit
    ensures Oversized(s, item) ==> r.objects == s.objects - {path}
    ensures !Oversized(s, item) && Overflows(s, path, item) ==> r.objects == map[path := item]
    ensures !Oversized(s, item) && !Overflows(s, path, item) ==> r.objects == s.objects[path := item]
    ensures !Oversized(s, item) && |item.data| <= s.memoryLimit ==> WithinBudget(r)
    ensures Oversized(s, item) ==> r.memoryUsage <= s.memoryUsage
  {
    var counted := s.(memoryUsage := UsageWithout(s, path));
    if Oversized(s, item) then
      counted.(objects := counted.objects - {path})
    else
      var room := if counted.memoryUsage + |item.data| > counted.memoryLimit then Trimmed(counted) else counted;
      room.(objects := room.objects[path := item], memoryUsage := room.memoryUsage + |item.data|)
  }

  /** `Get(path, nil)` on the cache: the stored object, if any. */
  function Lookup(s: MemState, path: string): (r: Option<Object>)
    ensures r.Some? <==> path in s.objects
    ensures r.Some? ==> r.value == s.objects[path]
  {
    if path in s.objects then Some(s.objects[path]) else None
  }

  /** The key ends in "*" and `Del` removes everything under its prefix. */
  predicate IsWildcard(path: string)
  {
    HasSuffix(path, "*")
  }

  /** The prefix a wildcard key stands for: everything before its trailing "*". */
  function Prefix(path: string): (p: string)
    requires IsWildcard(path)
    ensures path == p + "*"
  {
    assert path == path[..|path| - 1] + [path[|path| - 1]];
    path[..|path| - 1]
  }

  /** The keys of `objects` that start with `prefix`. */
  function MatchingKeys(objects: map<string, Object>, prefix: string): (keys: set<string>)
    ensures forall k :: k in keys <==> k in objects && HasPrefix(k, prefix)
  {
    set k | k in objects && HasPrefix(k, prefix)
  }

  /**
   `Del(path)`: with a trailing "*", every key with the prefix before the "*" is removed;
   otherwise just `path`. The count goes down by the removed lengths.
   */
  function DelState(s: MemState, path: string): (r: MemState)
    ensures r.memoryLimit == s.memoryLimit && r.objectLimit == s.objectLimit
    ensures IsWildcard(path) ==> forall k :: k in r.objects <==> k in s.objects && !HasPrefix(k, Prefix(path))
    ensures !IsWildcard(path) ==> r.objects == s.objects - {path}
    ensures forall k :: k in r.objects ==> k in s.objects && r.objects[k] == s.objects[k]
    ensures path !in r.objects
  {
    if IsWildcard(path) then
      var removed := MatchingKeys(s.objects, Prefix(path));
      assert HasPrefix(path, Prefix(path));
      s.(objects := s.objects - removed, memoryUsage := s.memoryUsage - TotalSize(Restrict(s.objects, removed)))
    else
      s.(objects := s.objects - {path}, memoryUsage := UsageWithout(s, path))
  }

  // ---------------------------------------------------------------------------------
  // Properties of the operations
  // ---------------------------------------------------------------------------------

  /** Taking a key out of a map takes its length, if it is there, off the total. */
  lemma TotalSizeWithout(m: map<string, Object>, k: string)
    ensures TotalSize(m - {k}) == if k in m then TotalSize(m) - |m[k].data| else TotalSize(m)
  {
    if k in m {
      TotalSizeRemove(m, k);
    } else {
      assert m - {k} == m;
    }
  }

  /** Storing `v` at `k` makes the total that of the other entries plus `v`'s length. */
  lemma TotalSizeInsert(m: map<string, Object>, k: string, v: Object)
    ensures TotalSize(m[k := v]) == |v.data| + TotalSize(m - {k})
  {
    TotalSizeRemove(m[k := v], k);
    assert m[k := v] - {k} == m - {k};
  }

  /** Removing keys never increases the total. */
  lemma TotalSizeShrinks(m: map<string, Object>, keys: set<string>)
    ensures TotalSize(m - keys) <= TotalSize(m)
  {
    TotalSizeSplit(m, keys);
  }

  /** `Set` keeps the byte count equal to the sum of the stored lengths. */
  lemma {:induction false} SetKeepsConsistent(s: MemState, path: string, item: Object)
    requires Consistent(s)
    ensures Consistent(SetState(s, path, item))
  {
    var r := SetState(s, path, item);
    TotalSizeWithout(s.objects, path);
    assert UsageWithout(s, path) == TotalSize(s.objects - {path});
    if Oversized(s, item) {
      assert r.memoryUsage == UsageWithout(s, path);
    } else if Overflows(s, path, item) {
      var none: map<string, Object> := map[];
      TotalSizeInsert(none, path, item);
      assert none - {path} == none;
      assert r.memoryUsage == |item.data|;
    } else {
      TotalSizeInsert(s.objects, path, item);
      assert r.memoryUsage == UsageWithout(s, path) + |item.data|;
    }
  }

  /** `Del` keeps the byte count equal to the sum of the stored lengths. */
  lemma {:induction false} DelKeepsConsistent(s: MemState, path: string)
    requires Consistent(s)
    ensures Consistent(DelState(s, path))
  {
    if IsWildcard(path) {
      TotalSizeSplit(s.objects, MatchingKeys(s.objects, Prefix(path)));
    } else {
      TotalSizeWithout(s.objects, path);
    }
  }

  /**
   A consistent cache within its budget stays within it after `Set` of an object no
   longer than the budget, and after any `Del`; both keep every stored object within
   the object limit.
   */
  lemma {:induction false} OperationsKeepLimits(s: MemState, path: string, item: Object)
    requires Consistent(s) && WithinBudget(s) && WithinObjectLimit(s)
    ensures |item.data| <= s.memoryLimit ==> WithinBudget(SetState(s, path, item))
    ensures WithinObjectLimit(SetState(s, path, item))
    ensures WithinBudget(DelState(s, path)) && WithinObjectLimit(DelState(s, path))
  {
    var d := DelState(s, path);
    DelKeepsConsistent(s, path);
    if IsWildcard(path) {
      var removed := MatchingKeys(s.objects, Prefix(path));
      assert d.objects == s.objects - removed;
      TotalSizeShrinks(s.objects, removed);
    } else {
      TotalSizeShrinks(s.objects, {path});
    }
    var r := SetState(s, path, item);
    if Oversized(s, item) {
      SetKeepsConsistent(s, path, item);
      TotalSizeShrinks(s.objects, {path});
    }
  }

  /** An object within the object limit is returned by the next `Get` after its `Set`. */
  lemma {:induction false} SetThenGet(s: MemState, path: string, item: Object)
    requires !Oversized(s, item)
    ensures Lookup(SetState(s, path, item), path) == Some(item)
  {
  }

  /**
   The object-limit test of memorycache_test.go: with limit L, an object of length L is
   kept, and one of length L + 1 is refused and also displaces the key's old object.
   */
  lemma {:induction false} ObjectLimitBoundary(s: MemState, path: string, atLimit: Object, overLimit: Object)
    requires s.objectLimit > 0
    requires |atLimit.data| == s.objectLimit && |overLimit.data| == s.objectLimit + 1
    ensures Lookup(SetState(s, path, atLimit), path) == Some(atLimit)
    ensures Lookup(SetState(SetState(s, path, atLimit), path, overLimit), path) == None
  {
    SetThenGet(s, path, atLimit);
  }

  /** A prefix `Del` removes exactly the keys under the prefix and keeps every other entry. */
  lemma {:induction false} WildcardDelExact(s: MemState, prefix: string, k: string)
    ensures var r := DelState(s, prefix + "*");
            Lookup(r, k) == if HasPrefix(k, prefix) then None else Lookup(s, k)
  {
    var path := prefix + "*";
    HasSuffixAppend(prefix, "*");
    assert path[..|path| - 1] == prefix;
  }

  /** An exact `Del` of an absent key changes nothing. */
  lemma {:induction false} DelAbsentKey(s: MemState, path: string)
    requires !IsWildcard(path) && path !in s.objects
    ensures DelState(s, path) == s
  {
    assert s.objects - {path} == s.objects;
  }

  // ---------------------------------------------------------------------------------
  // The cache object
  // ---------------------------------------------------------------------------------

  /** One step of the wildcard loop: dropping a matching pending key from the map. */
  lemma DropPending(original: map<string, Object>, removed: set<string>, pending: set<string>, key: string)
    requires key in pending && key in removed && key in original
    ensures key in original - (removed - pending)
    ensures (original - (removed - pending)) - {key} == original - (removed - (pending - {key}))
  {
  }

  /**
   The loop of the wildcard `Del` over a map and its byte count: every key is visited
   once, and a key under `prefix` is deleted and its length taken off the count.
   */
  method RemoveMatching(objects: map<string, Object>, usage: int, prefix: string)
      returns (remaining: map<string, Object>, remainingUsage: int)
    requires usage == TotalSize(objects)
    ensures remaining == objects - MatchingKeys(objects, prefix)
    ensures remainingUsage == TotalSize(remaining)
  {
    ghost var removed := MatchingKeys(objects, prefix);
    remaining, remainingUsage := objects, usage;
    var pending := objects.Keys;
    while pending != {}
      invariant forall k :: k in pending ==> k in objects
      invariant remaining == objects - (removed - pending)
      invariant remainingUsage == TotalSize(remaining)
      decreases |pending|
    {
      var key :| key in pending;
      if HasPrefix(key, prefix) {
        DropPending(objects, removed, pending, key);
        TotalSizeRemove(remaining, key);
        remainingUsage := remainingUsage - |remaining[key].data|;
        remaining := remaining - {key};
      } else {
        assert removed - pending == removed - (pending - {key});
      }
      pending := pending - {key};
    }
    assert removed - pending == removed;
  }

  /** A filler handed a consistent memory cache leaves it consistent. */
  ghost predicate KeepsConsistent(filler: Filler<MemState>)
    requires filler.Filler?
  {
    forall s: MemState, path: string :: Consistent(s) ==> Consistent(filler.fill(s, path).0)
  }

  /** `memoryCache`; the lock of the source is left out (every method is sequential). */
  class MemoryCache {
    var memoryLimit: int
    var objectLimit: int
    var objects: map<string, Object>
    var memoryUsage: int

    function State(): MemState
      reads this
    {
      MemState(memoryLimit, objectLimit, objects, memoryUsage)
    }

    predicate Valid()
      reads this
    {
      Consistent(State())
    }

    /** `NewMemoryCache(memoryLimit, objectLimit)`. */
    constructor (memoryLimit: int, objectLimit: int)
      ensures Valid() && State() == New(memoryLimit, objectLimit)
    {
      this.memoryLimit := memoryLimit;
      this.objectLimit := objectLimit;
      objects := map[];
      memoryUsage := 0;
    }

    /** `Set(path, item, writeThrough)`; it never reports an error. */
    method Set(path: string, item: Object, writeThrough: bool) returns (err: Option<Error>)
      requires Valid()
      modifies this
      ensures Valid() && State() == SetState(old(State()), path, item)
      ensures err == None
    {
      SetKeepsConsistent(State(), path, item);
      ghost var counted := State().(memoryUsage := UsageWithout(State(), path));
      if path in objects {
        memoryUsage := memoryUsage - |objects[path].data|;
      }
      assert State() == counted;
      if objectLimit != 0 && |item.data| > objectLimit {
        objects := objects - {path};
      } else {
        if memoryUsage + |item.data| > memoryLimit {
          Trim();
        }
        assert State() == if counted.memoryUsage + |item.data| > counted.memoryLimit then Trimmed(counted) else counted;
        objects := objects[path := item];
        memoryUsage := memoryUsage + |item.data|;
      }
      err := None;
    }

    /** `Del(path)`: exact, or every key under the prefix before a trailing "*". */
    method Del(path: string)
      requires Valid()
      modifies this
      ensures Valid() && State() == DelState(old(State()), path)
    {
      DelKeepsConsistent(State(), path);
      if IsWildcard(path) {
        DelMatching(Prefix(path));
      } else {
        memoryUsage := UsageWithout(State(), path);
        objects := objects - {path};
      }
    }

    /** The wildcard branch of `Del`: removes every key that starts with `prefix`. */
    method DelMatching(prefix: string)
      requires Valid()
      modifies this
      ensures Valid()
      ensures objects == old(objects) - MatchingKeys(old(objects), prefix)
      ensures memoryLimit == old(memoryLimit) && objectLimit == old(objectLimit)
    {
      objects, memoryUsage := RemoveMatching(objects, memoryUsage, prefix);
    }

    /**
     `Get(path, filler)`: the stored object leaves the cache as it is; on a miss a nil
     filler gives `NotFound`, and otherwise the filler runs on this cache and its
     result is returned unchanged.
     */
    method Get(path: string, filler: Filler<MemState>) returns (item: Result<Object>)
      requires Valid()
      requires filler.Filler? ==> KeepsConsistent(filler)
      modifies this
      ensures Valid()
      ensures path in old(objects) ==> item == Ok(old(objects)[path]) && State() == old(State())
      ensures path !in old(objects) && filler.NoFiller? ==> item == Err(NotFound) && State() == old(State())
      ensures path !in old(objects) && filler.Filler? ==> (State(), item) == filler.fill(old(State()), path)
    {
      if path in objects {
        return Ok(objects[path]);
      }
      match filler
      case NoFiller =>
        item := Err(NotFound);
      case Filler(fill) =>
        var (after, result) := fill(State(), path);
        memoryLimit, objectLimit, objects, memoryUsage := after.memoryLimit, after.objectLimit, after.objects, after.memoryUsage;
        item := result;
    }

    /** `trim`: clears every object. */
    method Trim()
      modifies this
      ensures State() == Trimmed(old(State()))
    {
      objects := map[];
      memoryUsage := 0;
    }
  }
}
