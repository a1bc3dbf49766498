/**
 The leaf caches a `SplitSize` or a `MultiLevel` is built from, as values.

 `MapCache` is the map-backed cache of cache/cache_test.go (`DummyCache`): it ignores
 its filler and stores whatever it is given. Its `setError`, when present, stands for a
 backend whose every `Set` fails with that error and stores nothing (the way a disk
 write can fail); a `DummyCache` has none. `MemCache` is a `memoryCache` by its value.
 */
module LeafCache {
  import opened Wrappers
  import opened CacheObject
  import Memory

  datatype Leaf =
    | MapCache(entries: map<string, Object>, setError: Option<Error>)
    | MemCache(mem: Memory.MemState)

  /** What `Get(path, nil)` finds in the leaf. */
  function Lookup(l: Leaf, path: string): (r: Option<Object>)
    ensures l.MapCache? ==> (r.Some? <==> path in l.entries) && (r.Some? ==> r.value == l.entries[path])
    ensures l.MemCache? ==> r == Memory.Lookup(l.mem, path)
  {
    match l
    case MapCache(entries, _) => if path in entries then Some(entries[path]) else None
    case MemCache(mem) => Memory.Lookup(mem, path)
  }

  /**
   `Get(path, filler)`: a stored object comes back and the leaf is untouched. On a miss
   a map cache reports `NotFound` whatever the filler; a memory cache does so for a nil
   filler and otherwise hands itself to the filler and returns what the filler returns.
   */
  function Get(l: Leaf, path: string, filler: Filler<Leaf>): (r: (Leaf, Result<Object>))
    ensures Lookup(l, path).Some? ==> r == (l, Ok(Lookup(l, path).value))
    ensures Lookup(l, path).None? && (l.MapCache? || filler.NoFiller?) ==> r == (l, Err(NotFound))
    ensures Lookup(l, path).None? && l.MemCache? && filler.Filler? ==> r == filler.fill(l, path)
  {
    match Lookup(l, path)
    case Some(o) => (l, Ok(o))
    case None =>
      if l.MemCache? && filler.Filler? then filler.fill(l, path) else (l, Err(NotFound))
  }

  /** `Set(path, object)`; a failing map cache stores nothing. */
  function Set(l: Leaf, path: string, obj: Object): (r: (Leaf, Option<Error>))
    ensures l.MapCache? ==> r.0.MapCache? && r.0.setError == l.setError && r.1 == l.setError
    ensures l.MapCache? ==> r.0.entries == if l.setError.Some? then l.entries else l.entries[path := obj]
    ensures l.MemCache? ==> r == (MemCache(Memory.SetState(l.mem, path, obj)), None)
  {
    match l
    case MapCache(entries, setError) =>
      if setError.Some? then (l, setError) else (MapCache(entries[path := obj], None), None)
    case MemCache(mem) => (MemCache(Memory.SetState(mem, path, obj)), None)
  }

  /** The same `Set` in the shape `CompressAndSetTo` calls it; `writeThrough` is not looked at. */
  function SetThrough(l: Leaf, path: string, obj: Object, writeThrough: bool): (Leaf, Option<Error>)
  {
    Set(l, path, obj)
  }

  /** `Del(path)`: exact for a map cache; a memory cache also honours a trailing "*". */
  function Del(l: Leaf, path: string): (r: Leaf)
    ensures r.MapCache? == l.MapCache?
    ensures l.MapCache? ==> r == l.(entries := l.entries - {path})
    ensures l.MemCache? ==> r == MemCache(Memory.DelState(l.mem, path))
  {
    match l
    case MapCache(entries, setError) => MapCache(entries - {path}, setError)
    case MemCache(mem) => MemCache(Memory.DelState(mem, path))
  }

  /** The leaf keeps `obj` when it is `Set`: no failing backend, no oversized object. */
  predicate Fits(l: Leaf, obj: Object)
  {
    match l
    case MapCache(_, setError) => setError.None?
    case MemCache(mem) => !Memory.Oversized(mem, obj)
  }

  /** A `Set` the leaf keeps reports no error and is what the next `Get(path, nil)` finds. */
  lemma {:induction false} SetThenLookup(l: Leaf, path: string, obj: Object)
    requires Fits(l, obj)
    ensures Set(l, path, obj).1 == None
    ensures Lookup(Set(l, path, obj).0, path) == Some(obj)
  {
    if l.MemCache? {
      Memory.SetThenGet(l.mem, path, obj);
    }
  }

  /** A `Set` on a map cache never disturbs another key. */
  lemma {:induction false} MapSetOthers(l: Leaf, path: string, obj: Object, other: string)
    requires l.MapCache? && other != path
    ensures Lookup(Set(l, path, obj).0, other) == Lookup(l, other)
  {
  }

  /** After `Del(path)` the leaf no longer finds `path`. */
  lemma {:induction false} DelThenLookup(l: Leaf, path: string)
    ensures Lookup(Del(l, path), path) == None
  {
  }

  /**
   `CompressAndSet` on a working map cache: the call succeeds, returns the input bytes
   and time as the uncompressed object, and leaves the compressed object at the
   compressed key and the uncompressed object at the uncompressed key.
   */
  lemma {:induction false} CompressAndSetStoresBoth(entries: map<string, Object>, path: string, data: seq<byte>,
                                                    modTime: int, gzip: seq<byte> -> Result<seq<byte>>)
    requires gzip(data).Ok?
    ensures var r := CompressAndSetTo(MapCache(entries, None), SetThrough, Keys(path), data, modTime, gzip);
            && r.err == None
            && r.uncompressed == Object(data, modTime)
            && r.compressed == Object(gzip(data).value, modTime)
            && Lookup(r.cache, Keys(path).uncompressed) == Some(Object(data, modTime))
            && Lookup(r.cache, Keys(path).compressed) == Some(Object(gzip(data).value, modTime))
  {
    var k := Keys(path);
    assert k.compressed != k.uncompressed by {
      assert |k.compressed| == |k.uncompressed| + 3;
    }
  }

  /**
   `CompressAndSet` on a failing map cache: the first write fails, so neither key is
   written, the error is reported and both returned objects are empty.
   */
  lemma {:induction false} CompressAndSetFirstFailure(entries: map<string, Object>, e: Error, path: string,
                                                      data: seq<byte>, modTime: int,
                                                      gzip: seq<byte> -> Result<seq<byte>>)
    requires gzip(data).Ok?
    ensures var r := CompressAndSetTo(MapCache(entries, Some(e)), SetThrough, Keys(path), data, modTime, gzip);
            r == Stored(MapCache(entries, Some(e)), EmptyObject, EmptyObject, Some(e))
  {
  }

  /**
   `CompressAndSet` on a memory cache: no write reports an error, so the call succeeds
   with both objects. The uncompressed object is kept unless it is over the object limit.
   The compressed object is kept unless it is over the object limit itself, or the
   second write trims the cache to make room for the uncompressed object.
   */
  lemma {:induction false} CompressAndSetIntoMemory(mem: Memory.MemState, keys: KeyPair, data: seq<byte>,
                                                    modTime: int, gzip: seq<byte> -> Result<seq<byte>>)
    requires gzip(data).Ok?
    requires keys.compressed != keys.uncompressed
    ensures var gz := Object(gzip(data).value, modTime);
            var plain := Object(data, modTime);
            var r := CompressAndSetTo(MemCache(mem), SetThrough, keys, data, modTime, gzip);
            && r.err == None && r.uncompressed == plain && r.compressed == gz
            && (!Memory.Oversized(mem, plain) ==> Lookup(r.cache, keys.uncompressed) == Some(plain))
            && (!Memory.Oversized(mem, gz)
                && (Memory.Oversized(mem, plain) || !Memory.Overflows(Memory.SetState(mem, keys.compressed, gz), keys.uncompressed, plain))
                ==> Lookup(r.cache, keys.compressed) == Some(gz))
  {
    var gz := Object(gzip(data).value, modTime);
    var plain := Object(data, modTime);
    var afterFirst := Memory.SetState(mem, keys.compressed, gz);
    if !Memory.Oversized(mem, gz) {
      Memory.SetThenGet(mem, keys.compressed, gz);
    }
    if !Memory.Oversized(mem, plain) {
      Memory.SetThenGet(afterFirst, keys.uncompressed, plain);
    }
  }
}
