/**
 `SplitSize` of cache/splitcache.go: a list of leaf caches, each with a `MaxSize`, kept
 in ascending `MaxSize` order. `Set` sends an object to the first child whose `MaxSize`
 is strictly larger than the object's length; `Get` asks every child in order and falls
 back to the filler; `Del` is passed to every child.

 A `SplitSize` is a slice of children whose caches are shared references; here it is a
 sequence of values, and each operation returns the sequence with the children it
 changed. `GetSpec`, `SetSpec` and `DelSpec` say what the loops of `Get`, `Set` and
 `Del` produce; the methods are those loops, proved to produce exactly that.
 */
module SplitCache {
  import opened Wrappers
  import opened CacheObject
  import LeafCache

  datatype SplitSizeChild = SplitSizeChild(maxSize: int, cache: LeafCache.Leaf)

  type SplitSize = seq<SplitSizeChild>

  /** `Less(i, j)`: child `i` has the smaller `MaxSize`. */
  predicate Less(c: SplitSize, i: int, j: int)
    requires 0 <= i < |c| && 0 <= j < |c|
  {
    c[i].maxSize < c[j].maxSize
  }

  /** What `sort.Sort` leaves behind: no child is `Less` than one before it. */
  predicate Sorted(c: SplitSize)
  {
    forall i, j :: 0 <= i < j < |c| ==> !Less(c, j, i)
  }

  /** Puts `x` into a sorted list after every child whose `MaxSize` is not larger. */
  function Insert(c: SplitSize, x: SplitSizeChild): (r: SplitSize)
    requires Sorted(c)
    ensures Sorted(r)
    ensures multiset(r) == multiset(c) + multiset{x}
    decreases |c|
  {
    if |c| == 0 then [x]
    else if x.maxSize < c[0].maxSize then
      var r := [x] + c;
      forall i, j | 0 <= i < j < |r|
        ensures !Less(r, j, i)
      {
        if i == 0 {
          assert !Less(c, j - 1, 0);
        } else {
          assert !Less(c, j - 1, i - 1);
        }
      }
      r
    else
      SortedTail(c);
      var rest := Insert(c[1..], x);
      forall k | 0 <= k < |rest|
        ensures c[0].maxSize <= rest[k].maxSize
      {
        assert rest[k] in multiset(rest);
        if rest[k] != x {
          assert rest[k] in multiset(c[1..]);
          var j :| 0 <= j < |c[1..]| && c[1..][j] == rest[k];
          assert !Less(c, j + 1, 0);
        }
      }
      assert c == [c[0]] + c[1..];
      var r := [c[0]] + rest;
      forall i, j | 0 <= i < j < |r|
        ensures !Less(r, j, i)
      {
        if i > 0 {
          assert !Less(rest, j - 1, i - 1);
        }
      }
      r
  }

  lemma SortedTail(c: SplitSize)
    requires Sorted(c) && |c| > 0
    ensures Sorted(c[1..])
  {
    forall i, j | 0 <= i < j < |c| - 1
      ensures !Less(c[1..], j, i)
    {
      assert !Less(c, j + 1, i + 1);
    }
  }

  /** An ascending ordering of `c` by `MaxSize`. */
  function SortChildren(c: SplitSize): (r: SplitSize)
    ensures Sorted(r)
    ensures multiset(r) == multiset(c)
    decreases |c|
  {
    if |c| == 0 then []
    else
      assert c == c[..|c| - 1] + [c[|c| - 1]];
      Insert(SortChildren(c[..|c| - 1]), c[|c| - 1])
  }

  /** `NewSplitSize(children...)`: the children, sorted ascending by `MaxSize`. */
  function NewSplitSize(children: seq<SplitSizeChild>): (c: SplitSize)
    ensures Sorted(c)
    ensures multiset(c) == multiset(children) && |c| == |children|
  {
    var c := SortChildren(children);
    assert |c| == |multiset(c)| == |multiset(children)| == |children|;
    c
  }

  /** `AddChildCache(maxSize, cache)`: the old children and the new one, sorted again. */
  function AddChildCache(c: SplitSize, maxSize: int, cache: LeafCache.Leaf): (r: SplitSize)
    ensures Sorted(r)
    ensures multiset(r) == multiset(c) + multiset{SplitSizeChild(maxSize, cache)}
    ensures |r| == |c| + 1
  {
    NewSplitSize(c + [SplitSizeChild(maxSize, cache)])
  }

  /** The first child, in order, whose `MaxSize` is strictly larger than `size`. */
  function FirstFit(c: SplitSize, size: int): (r: Option<nat>)
    ensures r.Some? ==> r.value < |c| && size < c[r.value].maxSize
    ensures r.Some? ==> forall j :: 0 <= j < r.value ==> c[j].maxSize <= size
    ensures r.None? ==> forall j :: 0 <= j < |c| ==> c[j].maxSize <= size
    decreases |c|
  {
    if |c| == 0 then None
    else if size < c[0].maxSize then Some(0)
    else
      match FirstFit(c[1..], size)
      case None => None
      case Some(k) => Some(k + 1)
  }

  /** The first child, in order, that holds `path`. */
  function FirstHit(c: SplitSize, path: string): (r: Option<nat>)
    ensures r.Some? ==> r.value < |c| && LeafCache.Lookup(c[r.value].cache, path).Some?
    ensures r.Some? ==> forall j :: 0 <= j < r.value ==> LeafCache.Lookup(c[j].cache, path).None?
    ensures r.None? ==> forall j :: 0 <= j < |c| ==> LeafCache.Lookup(c[j].cache, path).None?
    decreases |c|
  {
    if |c| == 0 then None
    else if LeafCache.Lookup(c[0].cache, path).Some? then Some(0)
    else
      match FirstHit(c[1..], path)
      case None => None
      case Some(k) => Some(k + 1)
  }

  /**
   What `Get(path, filler)` returns. With no children the loop never runs and the zero
   object comes back without an error. Otherwise the first child that has the object
   answers; when none has it, the filler is handed the `SplitSize` itself. A nil filler
   is taken to report `NotFound`.
   */
  function GetSpec(c: SplitSize, path: string, filler: Filler<SplitSize>): (r: (SplitSize, Result<Object>))
    ensures filler.NoFiller? && |c| > 0 ==>
              (r.1.Ok? <==> exists j :: 0 <= j < |c| && LeafCache.Lookup(c[j].cache, path).Some?)
    ensures filler.NoFiller? && |c| > 0 && r.1.Ok? ==>
              exists j :: 0 <= j < |c| && LeafCache.Lookup(c[j].cache, path) == Some(r.1.value)
    ensures FirstHit(c, path).Some? || filler.NoFiller? ==> r.0 == c
  {
    if |c| == 0 then (c, Ok(EmptyObject))
    else
      match FirstHit(c, path)
      case Some(i) => (c, Ok(LeafCache.Lookup(c[i].cache, path).value))
      case None =>
        match filler
        case NoFiller => (c, Err(NotFound))
        case Filler(fill) => fill(c, path)
  }

  /**
   What `Set(path, object)` does: the first child whose `MaxSize` is larger than the
   object's length gets the object and its error is returned; if there is none, nothing
   changes and there is no error.
   */
  function SetSpec(c: SplitSize, path: string, obj: Object): (r: (SplitSize, Option<Error>))
    ensures |r.0| == |c|
  {
    match FirstFit(c, |obj.data|)
    case None => (c, None)
    case Some(i) =>
      var (l, err) := LeafCache.Set(c[i].cache, path, obj);
      (c[i := c[i].(cache := l)], err)
  }

  /** What `Del(path)` does: every child deletes `path`. */
  function DelSpec(c: SplitSize, path: string): (r: SplitSize)
    ensures |r| == |c|
  {
    seq(|c|, i requires 0 <= i < |c| => c[i].(cache := LeafCache.Del(c[i].cache, path)))
  }

  /** `Get`: asks each child with a nil filler, stops at the first hit, then the filler. */
  method Get(c: SplitSize, path: string, filler: Filler<SplitSize>) returns (r: SplitSize, item: Result<Object>)
    ensures (r, item) == GetSpec(c, path, filler)
  {
    r, item := c, Ok(EmptyObject);
    var i := 0;
    while i < |c|
      invariant 0 <= i <= |c|
      invariant forall j :: 0 <= j < i ==> LeafCache.Lookup(c[j].cache, path).None?
      invariant item == if i == 0 then Ok(EmptyObject) else Err(NotFound)
    {
      var (_, found) := LeafCache.Get(c[i].cache, path, NoFiller);
      item := found;
      if found.Ok? {
        return;
      }
      i := i + 1;
    }
    // A nil filler would be called through a nil interface; it is taken to keep `NotFound`.
    if item.Err? && filler.Filler? {
      var filled := filler.fill(c, path);
      r, item := filled.0, filled.1;
    }
  }

  /** `Set`: the loop over the children that stops at the first one large enough. */
  method Set(c: SplitSize, path: string, obj: Object) returns (r: SplitSize, err: Option<Error>)
    ensures (r, err) == SetSpec(c, path, obj)
  {
    var objectSize := |obj.data|;
    var i := 0;
    while i < |c|
      invariant 0 <= i <= |c|
      invariant forall j :: 0 <= j < i ==> c[j].maxSize <= objectSize
    {
      if objectSize < c[i].maxSize {
        var (l, e) := LeafCache.Set(c[i].cache, path, obj);
        return c[i := c[i].(cache := l)], e;
      }
      i := i + 1;
    }
    return c, None;
  }

  /** `Del`: every child in turn deletes `path`. */
  method Del(c: SplitSize, path: string) returns (r: SplitSize)
    ensures r == DelSpec(c, path)
  {
    r := c;
    for i := 0 to |c|
      invariant |r| == |c|
      invariant forall j :: 0 <= j < i ==> r[j] == c[j].(cache := LeafCache.Del(c[j].cache, path))
      invariant forall j :: i <= j < |c| ==> r[j] == c[j]
    {
      r := r[i := r[i].(cache := LeafCache.Del(r[i].cache, path))];
    }
  }

  // ---------------------------------------------------------------------------------
  // Properties
  // ---------------------------------------------------------------------------------

  /**
   `Set` changes at most one child: the first one whose `MaxSize` exceeds the object's
   length, which gets the leaf `Set` and whose error is returned. Every other child and
   every `MaxSize` stay as they were; with no such child nothing changes and there is no
   error.
   */
  lemma {:induction false} SetTouchesOneChild(c: SplitSize, path: string, obj: Object, i: int)
    requires 0 <= i < |c| && |obj.data| < c[i].maxSize
    requires forall j :: 0 <= j < i ==> c[j].maxSize <= |obj.data|
    ensures var r := SetSpec(c, path, obj);
            && r.0[i] == SplitSizeChild(c[i].maxSize, LeafCache.Set(c[i].cache, path, obj).0)
            && r.1 == LeafCache.Set(c[i].cache, path, obj).1
            && forall j :: 0 <= j < |c| && j != i ==> r.0[j] == c[j]
  {
    var k := FirstFit(c, |obj.data|);
    assert k == Some(i);
  }

  /** When every `MaxSize` is at most the object's length, `Set` is a no-op without error. */
  lemma {:induction false} SetWithoutRoom(c: SplitSize, path: string, obj: Object)
    requires forall j :: 0 <= j < |c| ==> c[j].maxSize <= |obj.data|
    ensures SetSpec(c, path, obj) == (c, None)
  {
  }

  /**
   `Get` answers from the first child that holds the object, whatever the filler, and
   leaves every child as it was.
   */
  lemma {:induction false} GetFindsFirstHolder(c: SplitSize, path: string, filler: Filler<SplitSize>, i: int)
    requires 0 <= i < |c| && LeafCache.Lookup(c[i].cache, path).Some?
    requires forall j :: 0 <= j < i ==> LeafCache.Lookup(c[j].cache, path).None?
    ensures GetSpec(c, path, filler) == (c, Ok(LeafCache.Lookup(c[i].cache, path).value))
  {
    var k := FirstHit(c, path);
    assert k == Some(i);
  }

  /**
   When no child holds the object, `Get` returns exactly what the filler returns for the
   `SplitSize`, error included; with a nil filler it reports `NotFound`.
   */
  lemma {:induction false} GetMissUsesFiller(c: SplitSize, path: string, filler: Filler<SplitSize>)
    requires |c| > 0
    requires forall j :: 0 <= j < |c| ==> LeafCache.Lookup(c[j].cache, path).None?
    ensures filler.Filler? ==> GetSpec(c, path, filler) == filler.fill(c, path)
    ensures filler.NoFiller? ==> GetSpec(c, path, filler) == (c, Err(NotFound))
  {
  }

  /**
   A `Set` followed by `Get(path, nil)` returns the object when the chosen child keeps it
   and no child before the chosen one holds an older copy of `path`.
   */
  lemma {:induction false} SetThenGet(c: SplitSize, path: string, obj: Object, i: int)
    requires 0 <= i < |c| && |obj.data| < c[i].maxSize
    requires forall j :: 0 <= j < i ==> c[j].maxSize <= |obj.data|
    requires LeafCache.Fits(c[i].cache, obj)
    requires forall j :: 0 <= j < i ==> LeafCache.Lookup(c[j].cache, path).None?
    ensures SetSpec(c, path, obj).1 == None
    ensures GetSpec(SetSpec(c, path, obj).0, path, NoFiller).1 == Ok(obj)
  {
    SetTouchesOneChild(c, path, obj, i);
    LeafCache.SetThenLookup(c[i].cache, path, obj);
    var r := SetSpec(c, path, obj).0;
    GetFindsFirstHolder(r, path, NoFiller, i);
  }

  /**
   A smaller child keeps a stale copy: when `path` is in a child whose `MaxSize` is too
   small for the new object, `Set` writes the new object into a later child, and the
   next `Get` still answers with the old copy from the earlier child.
   */
  lemma {:induction false} StaleCopyShadowsSet(stale: Object, obj: Object, path: string)
    requires 8 <= |obj.data| < 100
    ensures var c := [SplitSizeChild(8, LeafCache.MapCache(map[path := stale], None)),
                      SplitSizeChild(100, LeafCache.MapCache(map[], None))];
            && SetSpec(c, path, obj).1 == None
            && LeafCache.Lookup(SetSpec(c, path, obj).0[1].cache, path) == Some(obj)
            && GetSpec(SetSpec(c, path, obj).0, path, NoFiller).1 == Ok(stale)
  {
    var c := [SplitSizeChild(8, LeafCache.MapCache(map[path := stale], None)),
              SplitSizeChild(100, LeafCache.MapCache(map[], None))];
    SetTouchesOneChild(c, path, obj, 1);
    GetFindsFirstHolder(SetSpec(c, path, obj).0, path, NoFiller, 0);
  }

  /**
   After `Del(path)` no child holds `path`, so a `Get` with a nil filler on a non-empty
   `SplitSize` fails.
   */
  lemma {:induction false} DelClearsEveryChild(c: SplitSize, path: string)
    ensures forall j :: 0 <= j < |c| ==> LeafCache.Lookup(DelSpec(c, path)[j].cache, path).None?
    ensures |c| > 0 ==> GetSpec(DelSpec(c, path), path, NoFiller) == (DelSpec(c, path), Err(NotFound))
  {
    var r := DelSpec(c, path);
    forall j | 0 <= j < |c|
      ensures LeafCache.Lookup(r[j].cache, path).None?
    {
      LeafCache.DelThenLookup(c[j].cache, path);
    }
    if |c| > 0 {
      GetMissUsesFiller(r, path, NoFiller);
    }
  }

  /** With no children, `Get` reports the zero object and no error, whatever the filler. */
  lemma {:induction false} GetOfNoChildren(path: string, filler: Filler<SplitSize>)
    ensures GetSpec([], path, filler) == ([], Ok(EmptyObject))
  {
  }

  /**
   The ordering and threshold as written: a child with `MaxSize` 0 sorts before every
   positive one and never receives an object, and an object exactly as long as a child's
   `MaxSize` does not go to that child.
   */
  lemma {:induction false} ZeroSortsFirstAndThresholdIsStrict(small: LeafCache.Leaf, large: LeafCache.Leaf,
                                                              path: string, obj: Object)
    ensures var c := NewSplitSize([SplitSizeChild(0, large), SplitSizeChild(8, small)]);
            && c == [SplitSizeChild(0, large), SplitSizeChild(8, small)]
            && (|obj.data| >= 8 ==> SetSpec(c, path, obj) == (c, None))
            && (|obj.data| < 8 ==> SetSpec(c, path, obj).0[0] == c[0])
  {
    var want := [SplitSizeChild(0, large), SplitSizeChild(8, small)];
    assert want[..1] == [want[0]] && want[..1][..0] == [];
    assert SortChildren(want[..1]) == [want[0]];
    assert [want[0]][1..] == [];
    assert Insert([want[0]], want[1]) == want;
    var c := NewSplitSize(want);
    if |obj.data| >= 8 {
      SetWithoutRoom(c, path, obj);
    } else {
      SetTouchesOneChild(c, path, obj, 1);
    }
  }
}
