/**
 The object model and the `Cache`/`Filler` contracts of cache/cache.go, with the key
 pairing and the two ordered writes of `CompressAndSet`.

 A cache is modelled by its value. An operation that changes a cache returns the new
 value; a `Filler` receives the value of the cache handle it was given and returns the
 value that handle has after the fill, together with what it produced.
 */
module CacheObject {
  import opened Wrappers
  import opened Text

  newtype byte = b: int | 0 <= b < 256

  /** `Object`: a payload and its modification time (an abstract instant). */
  datatype Object = Object(data: seq<byte>, modTime: int)

  /** Go's zero `Object{}`: no data and the zero time. */
  const EmptyObject := Object([], 0)

  datatype Error =
    | NotFound                     // "Item not found", or a missing key with a nil filler
    | StorageError(detail: string) // a backend could not persist an object (a failing map cache's `setError`)
    | FillError(detail: string)    // a filler could not produce the object (what a `readFile` parameter reports)
    | CompressError(detail: string)// the gzip writer failed (what a `gzip` parameter reports)

  datatype Result<T> = Ok(value: T) | Err(error: Error)

  /**
   A `Filler` (cache.go:15-20), or a nil one. `fill(c, path)` is `Fill(c, path)`: it gets
   the cache it is handed and returns that cache as the fill leaves it and the object
   (or error) it produced.
   */
  datatype Filler<!C> = NoFiller | Filler(fill: (C, string) -> (C, Result<Object>))

  /**
   The `Set` of some cache type `C`: the new cache and the error it reports. The third
   argument is `writeThrough` (cache.go:24); no modelled backend looks at it.
   */
  type SetFn<!C> = (C, string, Object, bool) -> (C, Option<Error>)

  const GzSuffix := ".gz"

  /** The two sibling keys of `CompressAndSet`. */
  datatype KeyPair = KeyPair(compressed: string, uncompressed: string)

  /**
   Key pairing of `CompressAndSet`: a key ending in ".gz" is the compressed key and loses
   its last three characters for the uncompressed one; any other key is the uncompressed
   key and gains ".gz" for the compressed one. Either way the compressed key is the
   uncompressed key followed by ".gz".
   */
  function Keys(path: string): (k: KeyPair)
    ensures k.compressed == k.uncompressed + GzSuffix
    ensures HasSuffix(path, GzSuffix) ==> k.compressed == path && |k.uncompressed| == |path| - 3
    ensures !HasSuffix(path, GzSuffix) ==> k.uncompressed == path
    ensures path == k.compressed || path == k.uncompressed
  {
    if HasSuffix(path, GzSuffix) then
      KeyPair(path, path[..|path| - 3])
    else
      KeyPair(path + GzSuffix, path)
  }

  /**
   Both members of a pair lead back to the same pair: pairing the compressed key gives
   the pair again, and so does pairing the uncompressed key unless it itself ends in
   ".gz". So a fill of either sibling writes the same two keys.
   */
  lemma {:induction false} KeysOfSibling(path: string)
    ensures Keys(Keys(path).compressed) == Keys(path)
    ensures !HasSuffix(Keys(path).uncompressed, GzSuffix) ==> Keys(Keys(path).uncompressed) == Keys(path)
  {
    var k := Keys(path);
    HasSuffixAppend(k.uncompressed, GzSuffix);
  }

  /** What `CompressAndSet` returns, with the cache as it leaves it. */
  datatype Stored<C> = Stored(cache: C, uncompressed: Object, compressed: Object, err: Option<Error>)

  /**
   `CompressAndSet(cache, path, data, modTime)` with its keys already chosen: the call of
   the source is `CompressAndSetTo(cache, setter, Keys(path), data, modTime, gzip)`.
   `gzip` is the gzip writer at `BestCompression` (its output, or the error `Write`
   reports). A gzip failure writes nothing. Otherwise the compressed object goes to the
   compressed key first; if that write fails, empty objects and its error come back and
   the uncompressed key is never written. Otherwise `{data, modTime}` goes to the
   uncompressed key, and both objects come back with whatever that second write reports.
   Both writes pass `writeThrough` set.
   */
  function CompressAndSetTo<C>(cache: C, setter: SetFn<C>, keys: KeyPair, data: seq<byte>,
                               modTime: int, gzip: seq<byte> -> Result<seq<byte>>): (r: Stored<C>)
    ensures gzip(data).Err? ==> r == Stored(cache, EmptyObject, EmptyObject, Some(gzip(data).error))
    ensures r.err.None? ==>
              && gzip(data).Ok?
              && r.uncompressed == Object(data, modTime)
              && r.compressed == Object(gzip(data).value, modTime)
    ensures gzip(data).Ok? ==>
              var compressed := Object(gzip(data).value, modTime);
              var first := setter(cache, keys.compressed, compressed, true);
              && (first.1.Some? ==> r == Stored(first.0, EmptyObject, EmptyObject, first.1))
              && (first.1.None? ==>
                    var second := setter(first.0, keys.uncompressed, Object(data, modTime), true);
                    r == Stored(second.0, Object(data, modTime), compressed, second.1))
  {
    match gzip(data)
    case Err(e) => Stored(cache, EmptyObject, EmptyObject, Some(e))
    case Ok(gz) =>
      var compressedItem := Object(gz, modTime);
      var (afterFirst, err1) := setter(cache, keys.compressed, compressedItem, true);
      if err1.Some? then
        Stored(afterFirst, EmptyObject, EmptyObject, err1)
      else
        var uncompressedItem := Object(data, modTime);
        var (afterSecond, err2) := setter(afterFirst, keys.uncompressed, uncompressedItem, true);
        Stored(afterSecond, uncompressedItem, compressedItem, err2)
  }
}
