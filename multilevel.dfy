/**
 `MultiLevel` of cache/multilevel.go: an ordered list of cache levels. `Get` answers
 from the first level that has the object and copies it into every level above that
 one; a miss everywhere goes to the filler. `Set` writes every level in order and stops
 at the first error; `Del` deletes from every level.

 A level is a leaf cache or a `SplitSize` of leaf caches, the two shapes the blog wires
 together. As for `SplitSize`, the levels are values: each operation returns the list
 with the levels it changed.

 The source marks a level as "found" when its `Get` FAILS (`err != nil`), while its
 comment and its test mean "when `Get` succeeds". `GetSpec` is the documented
 behaviour; `GetAsWritten` is the code as written, and `GetAsWrittenLosesHits` shows
 an input on which the two differ.
 */
module MultiLevel {
  import opened Wrappers
  import opened CacheObject
  import LeafCache
  import SplitCache

  datatype Tier = Plain(leaf: LeafCache.Leaf) | Sized(split: SplitCache.SplitSize)

  type Levels = seq<Tier>

  /** `level.Get(path, nil)`: a lookup that leaves the level as it is. */
  function TierGet(t: Tier, path: string): (r: (Tier, Result<Object>))
    ensures r.0 == t
  {
    match t
    case Plain(l) =>
      var (l2, res) := LeafCache.Get(l, path, NoFiller);
      (Plain(l2), res)
    case Sized(c) =>
      var (c2, res) := SplitCache.GetSpec(c, path, NoFiller);
      (Sized(c2), res)
  }

  /** The object `level.Get(path, nil)` succeeds with, if it succeeds. */
  function Probe(t: Tier, path: string): Option<Object>
  {
    var res := TierGet(t, path).1;
    if res.Ok? then Some(res.value) else None
  }

  /**
   `level.Set(path, object)`. A level that keeps the object reports no error and then
   finds it.
   */
  function TierSet(t: Tier, path: string, obj: Object): (r: (Tier, Option<Error>))
    ensures Keeps(t, path, obj) ==> r.1 == None && Probe(r.0, path) == Some(obj)
  {
    match t
    case Plain(l) =>
      var (l2, err) := LeafCache.Set(l, path, obj);
      if LeafCache.Fits(l, obj) then
        LeafCache.SetThenLookup(l, path, obj);
        (Plain(l2), err)
      else
        (Plain(l2), err)
    case Sized(c) =>
      var (c2, err) := SplitCache.SetSpec(c, path, obj);
      if Keeps(t, path, obj) then
        SplitCache.SetThenGet(c, path, obj, SplitCache.FirstFit(c, |obj.data|).value);
        (Sized(c2), err)
      else
        (Sized(c2), err)
  }

  /**
   `level.Del(path)`. Afterwards the level no longer finds `path`, unless it is a
   `SplitSize` with no children, which answers every `Get`.
   */
  function TierDel(t: Tier, path: string): (r: Tier)
    ensures t.Plain? || |t.split| > 0 ==> Probe(r, path).None?
  {
    match t
    case Plain(l) =>
      LeafCache.DelThenLookup(l, path);
      Plain(LeafCache.Del(l, path))
    case Sized(c) =>
      SplitCache.DelClearsEveryChild(c, path);
      Sized(SplitCache.DelSpec(c, path))
  }

  /** The first level whose `Get(path, nil)` succeeds. */
  function FirstFound(m: Levels, path: string): (r: Option<nat>)
    ensures r.Some? ==> r.value < |m| && Probe(m[r.value], path).Some?
    ensures r.Some? ==> forall j :: 0 <= j < r.value ==> Probe(m[j], path).None?
    ensures r.None? ==> forall j :: 0 <= j < |m| ==> Probe(m[j], path).None?
    decreases |m|
  {
    if |m| == 0 then None
    else if Probe(m[0], path).Some? then Some(0)
    else
      match FirstFound(m[1..], path)
      case None => None
      case Some(k) => Some(k + 1)
  }

  /** The first level whose `Get(path, nil)` fails. */
  function FirstMiss(m: Levels, path: string): (r: Option<nat>)
    ensures r.Some? ==> r.value < |m| && Probe(m[r.value], path).None?
    ensures r.Some? ==> forall j :: 0 <= j < r.value ==> Probe(m[j], path).Some?
    ensures r.None? ==> forall j :: 0 <= j < |m| ==> Probe(m[j], path).Some?
    decreases |m|
  {
    if |m| == 0 then None
    else if Probe(m[0], path).None? then Some(0)
    else
      match FirstMiss(m[1..], path)
      case None => None
      case Some(k) => Some(k + 1)
  }

  /** Every level above `found` gets `obj` (its `Set` error is dropped); the rest stay. */
  function Promote(m: Levels, found: nat, path: string, obj: Object): (r: Levels)
    requires found <= |m|
    ensures |r| == |m|
  {
    seq(|m|, j requires 0 <= j < |m| => if j < found then TierSet(m[j], path, obj).0 else m[j])
  }

  /**
   `Get(path, filler)` as documented: the first level that has the object answers and
   the object is copied into every level above it; on a miss everywhere the filler is
   handed the `MultiLevel` itself. A nil filler is taken to report `NotFound`.
   */
  function GetSpec(m: Levels, path: string, filler: Filler<Levels>): (r: (Levels, Result<Object>))
    ensures filler.NoFiller? ==> (r.1.Ok? <==> exists j :: 0 <= j < |m| && Probe(m[j], path).Some?)
    ensures filler.NoFiller? && r.1.Ok? ==> exists j :: 0 <= j < |m| && Probe(m[j], path) == Some(r.1.value)
  {
    match FirstFound(m, path)
    case Some(i) =>
      var obj := Probe(m[i], path).value;
      (Promote(m, i, path, obj), Ok(obj))
    case None =>
      match filler
      case NoFiller => (m, Err(NotFound))
      case Filler(fill) => fill(m, path)
  }

  /**
   `Get(path, filler)` as the loop is written: the scan stops at the first level whose
   `Get` FAILS, copies the zero object that came with that failure into the levels above
   it and returns the failure; when every level succeeds the filler is called.
   */
  function GetAsWritten(m: Levels, path: string, filler: Filler<Levels>): (r: (Levels, Result<Object>))
    ensures r.1.Err? || (filler.Filler? && r == filler.fill(m, path))
    ensures filler.NoFiller? ==> r.1 == Err(NotFound)
  {
    match FirstMiss(m, path)
    case Some(i) => (Promote(m, i, path, EmptyObject), Err(NotFound))
    case None =>
      match filler
      case NoFiller => (m, Err(NotFound))
      case Filler(fill) => fill(m, path)
  }

  /** `Set(path, object)`: every level in order; the first error stops the walk. */
  function SetSpec(m: Levels, path: string, obj: Object): (r: (Levels, Option<Error>))
    ensures |r.0| == |m|
    decreases |m|
  {
    if |m| == 0 then (m, None)
    else
      var (t, err) := TierSet(m[0], path, obj);
      if err.Some? then
        ([t] + m[1..], err)
      else
        var (rest, e) := SetSpec(m[1..], path, obj);
        ([t] + rest, e)
  }

  /** `Del(path)`: every level deletes `path`. */
  function DelSpec(m: Levels, path: string): (r: Levels)
    ensures |r| == |m|
  {
    seq(|m|, j requires 0 <= j < |m| => TierDel(m[j], path))
  }

  /** `Get`: the scan for the first hit, then the backward loop of promotions. */
  method Get(m: Levels, path: string, filler: Filler<Levels>) returns (r: Levels, item: Result<Object>)
    ensures (r, item) == GetSpec(m, path, filler)
  {
    var foundLevel := -1;
    var obj := EmptyObject;
    var i := 0;
    while i < |m|
      invariant 0 <= i <= |m|
      invariant forall j :: 0 <= j < i ==> Probe(m[j], path).None?
      invariant foundLevel == -1
    {
      var (_, res) := TierGet(m[i], path);
      if res.Ok? {
        foundLevel, obj := i, res.value;
        break;
      }
      i := i + 1;
    }

    if foundLevel == -1 {
      // A nil filler would be called through a nil interface; it is taken to report `NotFound`.
      match filler {
        case NoFiller =>
          r, item := m, Err(NotFound);
        case Filler(fill) =>
          var filled := fill(m, path);
          r, item := filled.0, filled.1;
      }
      return;
    }

    assert FirstFound(m, path) == Some(foundLevel);
    r := m;
    var k := foundLevel - 1;
    while k >= 0
      invariant -1 <= k < foundLevel
      invariant |r| == |m|
      invariant forall j :: 0 <= j < |m| ==> r[j] == (if k < j < foundLevel then TierSet(m[j], path, obj).0 else m[j])
    {
      var (t, _) := TierSet(r[k], path, obj);
      r := r[k := t];
      k := k - 1;
    }
    assert r == Promote(m, foundLevel, path, obj);
    item := Ok(obj);
  }

  /** `Set`: writes the levels in order and returns at the first error. */
  method Set(m: Levels, path: string, obj: Object) returns (r: Levels, err: Option<Error>)
    ensures (r, err) == SetSpec(m, path, obj)
  {
    r := m;
    var i := 0;
    while i < |m|
      invariant 0 <= i <= |m| && |r| == |m|
      invariant forall j :: 0 <= j < i ==> TierSet(m[j], path, obj).1.None?
      invariant forall j :: 0 <= j < |m| ==> r[j] == if j < i then TierSet(m[j], path, obj).0 else m[j]
    {
      var (t, e) := TierSet(m[i], path, obj);
      r := r[i := t];
      if e.Some? {
        SetSpecUpTo(m, path, obj, i);
        assert r == SetSpec(m, path, obj).0;
        return r, e;
      }
      i := i + 1;
    }
    SetSpecUpTo(m, path, obj, |m|);
    assert r == SetSpec(m, path, obj).0;
    return r, None;
  }

  /**
   `SetSpec` when the levels before `k` take the object cleanly and level `k`, if there is
   one, reports an error: the levels up to `k` are written, the others are not.
   */
  lemma {:induction false} SetSpecUpTo(m: Levels, path: string, obj: Object, k: int)
    requires 0 <= k <= |m|
    requires forall j :: 0 <= j < k ==> TierSet(m[j], path, obj).1.None?
    requires k < |m| ==> TierSet(m[k], path, obj).1.Some?
    ensures SetSpec(m, path, obj).1 == if k < |m| then TierSet(m[k], path, obj).1 else None
    ensures forall j :: 0 <= j < |m| ==>
              SetSpec(m, path, obj).0[j] == if j <= k then TierSet(m[j], path, obj).0 else m[j]
    decreases |m|
  {
    if |m| > 0 && k > 0 {
      SetSpecUpTo(m[1..], path, obj, k - 1);
      var rest := SetSpec(m[1..], path, obj).0;
      assert SetSpec(m, path, obj).0 == [TierSet(m[0], path, obj).0] + rest;
      forall j | 1 <= j < |m|
        ensures SetSpec(m, path, obj).0[j] == if j <= k then TierSet(m[j], path, obj).0 else m[j]
      {
        assert rest[j - 1] == if j - 1 <= k - 1 then TierSet(m[1..][j - 1], path, obj).0 else m[1..][j - 1];
      }
    }
  }

  /** `Del`: every level in turn deletes `path`. */
  method Del(m: Levels, path: string) returns (r: Levels)
    ensures r == DelSpec(m, path)
  {
    r := m;
    for i := 0 to |m|
      invariant |r| == |m|
      invariant forall j :: 0 <= j < |m| ==> r[j] == if j < i then TierDel(m[j], path) else m[j]
    {
      r := r[i := TierDel(r[i], path)];
    }
  }

  // ---------------------------------------------------------------------------------
  // Properties
  // ---------------------------------------------------------------------------------

  /**
   A level keeps `obj` under `path` when it is `Set`: a leaf that fits it, or a
   `SplitSize` whose chosen child fits it and none of whose earlier children still holds
   an older copy.
   */
  predicate Keeps(t: Tier, path: string, obj: Object)
  {
    match t
    case Plain(l) => LeafCache.Fits(l, obj)
    case Sized(c) =>
      var fit := SplitCache.FirstFit(c, |obj.data|);
      && fit.Some?
      && LeafCache.Fits(c[fit.value].cache, obj)
      && forall j :: 0 <= j < fit.value ==> LeafCache.Lookup(c[j].cache, path).None?
  }

  /**
   A hit at level `i` (every level above it missing) returns that level's object,
   leaves level `i` and every level below it as they were, and `Set`s the object into
   every level above it.
   */
  lemma {:induction false} GetHitPromotes(m: Levels, path: string, filler: Filler<Levels>, i: int)
    requires 0 <= i < |m| && Probe(m[i], path).Some?
    requires forall j :: 0 <= j < i ==> Probe(m[j], path).None?
    ensures var (r, item) := GetSpec(m, path, filler);
            && item == Ok(Probe(m[i], path).value)
            && |r| == |m|
            && (forall j :: i <= j < |m| ==> r[j] == m[j])
            && (forall j :: 0 <= j < i ==> r[j] == TierSet(m[j], path, Probe(m[i], path).value).0)
  {
    assert FirstFound(m, path) == Some(i);
  }

  /**
   After a hit at level `i`, every level above it that keeps the object now finds it, so
   the object is found from the top level down to `i`.
   */
  lemma {:induction false} PromotedLevelsHit(m: Levels, path: string, filler: Filler<Levels>, i: int)
    requires 0 <= i < |m| && Probe(m[i], path).Some?
    requires forall j :: 0 <= j < i ==> Probe(m[j], path).None?
    requires forall j :: 0 <= j < i ==> Keeps(m[j], path, Probe(m[i], path).value)
    ensures forall j :: 0 <= j <= i ==> Probe(GetSpec(m, path, filler).0[j], path) == Probe(m[i], path)
  {
    GetHitPromotes(m, path, filler, i);
    var obj := Probe(m[i], path).value;
    assert forall j :: 0 <= j < i ==> Probe(GetSpec(m, path, filler).0[j], path) == Some(obj);
  }

  /**
   On a miss at every level `Get` returns exactly what the filler returns for the
   `MultiLevel`, error included; with a nil filler it reports `NotFound`.
   */
  lemma {:induction false} GetMissUsesFiller(m: Levels, path: string, filler: Filler<Levels>)
    requires forall j :: 0 <= j < |m| ==> Probe(m[j], path).None?
    ensures filler.Filler? ==> GetSpec(m, path, filler) == filler.fill(m, path)
    ensures filler.NoFiller? ==> GetSpec(m, path, filler) == (m, Err(NotFound))
  {
  }

  /**
   `Set` walks the levels in order. Without an error every level got the object; with
   one, some level `k` reported it, every level above `k` got the object without an
   error, and every level below `k` is as it was.
   */
  lemma {:induction false} SetStopsAtFirstError(m: Levels, path: string, obj: Object)
    ensures var (r, err) := SetSpec(m, path, obj);
            err.None? ==> forall j :: 0 <= j < |m| ==> r[j] == TierSet(m[j], path, obj).0 && TierSet(m[j], path, obj).1.None?
    ensures var (r, err) := SetSpec(m, path, obj);
            err.Some? ==> exists k :: 0 <= k < |m| && SetBrokeAt(m, path, obj, r, err, k)
    decreases |m|
  {
    if |m| > 0 {
      var (t, e) := TierSet(m[0], path, obj);
      var (r, err) := SetSpec(m, path, obj);
      if e.Some? {
        assert SetBrokeAt(m, path, obj, r, err, 0);
      } else {
        SetStopsAtFirstError(m[1..], path, obj);
        var (rest, e2) := SetSpec(m[1..], path, obj);
        assert r == [t] + rest && err == e2;
        if e2.Some? {
          var k :| 0 <= k < |m| - 1 && SetBrokeAt(m[1..], path, obj, rest, e2, k);
          assert SetBrokeAt(m, path, obj, r, err, k + 1);
        }
      }
    }
  }

  /** Level `k` reported `err`; the levels above it took `obj` cleanly, those below were not written. */
  predicate SetBrokeAt(m: Levels, path: string, obj: Object, r: Levels, err: Option<Error>, k: int)
    requires 0 <= k < |m| && |r| == |m|
  {
    && r[k] == TierSet(m[k], path, obj).0 && err == TierSet(m[k], path, obj).1
    && (forall j :: 0 <= j < k ==> r[j] == TierSet(m[j], path, obj).0 && TierSet(m[j], path, obj).1.None?)
    && (forall j :: k < j < |m| ==> r[j] == m[j])
  }

  /** After a `Set` the top level keeps, the next `Get` returns the object from the top. */
  lemma {:induction false} SetThenGet(m: Levels, path: string, obj: Object, filler: Filler<Levels>)
    requires |m| > 0 && Keeps(m[0], path, obj)
    ensures GetSpec(SetSpec(m, path, obj).0, path, filler).1 == Ok(obj)
  {
    var r := SetSpec(m, path, obj).0;
    assert r[0] == TierSet(m[0], path, obj).0;
    GetHitPromotes(r, path, filler, 0);
  }

  /**
   After `Del(path)` no level finds `path` (a `SplitSize` level with no children answers
   every `Get`, so it is excluded), and a `Get` with a nil filler fails.
   */
  lemma {:induction false} DelMissesEverywhere(m: Levels, path: string)
    requires forall j :: 0 <= j < |m| ==> (m[j].Sized? ==> |m[j].split| > 0)
    ensures forall j :: 0 <= j < |m| ==> Probe(DelSpec(m, path)[j], path).None?
    ensures GetSpec(DelSpec(m, path), path, NoFiller) == (DelSpec(m, path), Err(NotFound))
  {
    var r := DelSpec(m, path);
    assert forall j :: 0 <= j < |m| ==> r[j] == TierDel(m[j], path);
    GetMissUsesFiller(r, path, NoFiller);
  }

  /**
   The inverted hit test loses hits. With the object only in the top level of two map
   caches, the documented `Get` returns it and changes nothing, while the loop as written
   stops at the second level's miss, overwrites the top level's object with the zero
   object and fails. With the object in the only level, the loop as written skips it and
   fails as if nothing were cached.
   */
  lemma {:induction false} GetAsWrittenLosesHits(o: Object, path: string)
    ensures var m := [Tier.Plain(LeafCache.MapCache(map[path := o], None)), Tier.Plain(LeafCache.MapCache(map[], None))];
            && GetSpec(m, path, NoFiller) == (m, Ok(o))
            && GetAsWritten(m, path, NoFiller).1 == Err(NotFound)
            && Probe(GetAsWritten(m, path, NoFiller).0[0], path) == Some(EmptyObject)
    ensures var single := [Tier.Plain(LeafCache.MapCache(map[path := o], None))];
            && GetSpec(single, path, NoFiller) == (single, Ok(o))
            && GetAsWritten(single, path, NoFiller) == (single, Err(NotFound))
  {
    var m := [Tier.Plain(LeafCache.MapCache(map[path := o], None)), Tier.Plain(LeafCache.MapCache(map[], None))];
    GetHitPromotes(m, path, NoFiller, 0);
    assert GetSpec(m, path, NoFiller).0 == m;
    assert Probe(m[1], path) == None;
    assert FirstMiss(m, path) == Some(1);
    assert Promote(m, 1, path, EmptyObject)[0] == TierSet(m[0], path, EmptyObject).0;
    var single := [Tier.Plain(LeafCache.MapCache(map[path := o], None))];
    GetHitPromotes(single, path, NoFiller, 0);
    assert GetSpec(single, path, NoFiller).0 == single;
    assert FirstMiss(single, path) == None;
  }
}
