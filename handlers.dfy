/**
 The cache-key logic of the request handlers in handlers.go: choosing the gzip variant
 of a path, the archive page key, and `DirectCacheFiller.Fill`, which reads a file into
 the cache under the key pair of `CompressAndSet`, and the filler that does so for a
 corrected key pair.

 Request headers are a map from canonical header name to values (`http.Header`). The
 data directory is a parameter `readFile`, giving a file's bytes and modification time
 as an `Object` or the error opening, stating or reading it reported.
 */
module Handlers {
  import opened Wrappers
  import opened Text
  import opened CacheObject
  import LeafCache
  import Memory

  type HeaderMap = map<string, seq<string>>

  /** Some `Accept-Encoding` value of the request mentions gzip. */
  predicate AcceptsGzip(header: HeaderMap)
  {
    && "Accept-Encoding" in header
    && exists i :: 0 <= i < |header["Accept-Encoding"]| && Contains(header["Accept-Encoding"][i], "gzip")
  }

  /**
   `determineCompression`: a range request is served uncompressed; otherwise the first
   `Accept-Encoding` value that mentions gzip selects the ".gz" variant of the path.
   Compression is chosen exactly when ".gz" is appended.
   */
  method DetermineCompression(header: HeaderMap, path: string) returns (outPath: string, compression: bool)
    ensures compression <==> "Range" !in header && AcceptsGzip(header)
    ensures outPath == if compression then path + GzSuffix else path
    ensures compression <==> outPath != path
  {
    if "Range" in header {
      return path, false;
    }
    var encodings := if "Accept-Encoding" in header then header["Accept-Encoding"] else [];
    for index := 0 to |encodings|
      invariant forall k :: 0 <= k < index ==> !Contains(encodings[k], "gzip")
    {
      if Contains(encodings[index], "gzip") {
        assert |path + GzSuffix| != |path|;
        return path + GzSuffix, true;
      }
    }
    return path, false;
  }

  /**
   The archive year as the key spells it: a two-character year gains "20". The spelled-out
   year is never two characters long, ends with the year as given, contains a '-'
   exactly when the given year does, and any year not two characters long is kept.
   */
  function ArchiveYear(year: string): (y: string)
    ensures |y| != 2
    ensures HasSuffix(y, year)
    ensures '-' in y <==> '-' in year
    ensures |year| == 2 ==> y == "20" + year
    ensures |year| != 2 ==> y == year
  {
    if |year| == 2 then
      assert ("20" + year)[2..] == year;
      assert forall c :: c in "20" + year <==> c in "20" || c in year;
      "20" + year
    else year
  }

  /**
   The archive month as the key spells it: a one-digit month gains a leading "0". The
   spelled-out month is never one character long, ends with the month as given, and
   any month not one character long is kept.
   */
  function ArchiveMonth(month: string): (m: string)
    ensures |m| != 1
    ensures HasSuffix(m, month)
    ensures |month| == 1 ==> m == "0" + month
    ensures |month| != 1 ==> m == month
  {
    if |month| == 1 then
      assert ("0" + month)[1..] == month;
      "0" + month
    else month
  }

  const ArchivePrefix := "archive/"

  /**
   The cache key of an archive page, before `determineCompression`: a key under
   "archive/" from which, for a year without '-', the spelled-out year and month can be
   read back.
   */
  function ArchiveKey(year: string, month: string): (k: string)
    ensures HasPrefix(k, ArchivePrefix)
    ensures '-' !in year ==> ParseArchiveKey(k) == Some((ArchiveYear(year), ArchiveMonth(month)))
  {
    var y, m := ArchiveYear(year), ArchiveMonth(month);
    ParseArchiveKeyOf(y, m);
    ArchivePrefix + y + "-" + m
  }

  /**
   The short and the spelled-out forms of a year and month share one key, and the
   spelled-out forms are left alone.
   */
  lemma ArchiveKeyNormalises(year: string, month: string)
    ensures ArchiveYear(ArchiveYear(year)) == ArchiveYear(year)
    ensures ArchiveMonth(ArchiveMonth(month)) == ArchiveMonth(month)
    ensures ArchiveKey(ArchiveYear(year), ArchiveMonth(month)) == ArchiveKey(year, month)
    ensures |year| == 2 ==> ArchiveKey(year, month) == ArchiveKey("20" + year, month)
    ensures |month| == 1 ==> ArchiveKey(year, month) == ArchiveKey(year, "0" + month)
  {
  }

  /** Splits `s` at its first '-', if it has one. */
  function SplitAtDash(s: string): (r: Option<(string, string)>)
    ensures r.Some? ==> '-' !in r.value.0 && s == r.value.0 + "-" + r.value.1
    ensures r.None? <==> '-' !in s
    decreases |s|
  {
    if |s| == 0 then None
    else if s[0] == '-' then
      assert s == [] + "-" + s[1..];
      Some(([], s[1..]))
    else
      match SplitAtDash(s[1..])
      case None => None
      case Some((y, m)) =>
        assert s == [s[0]] + y + "-" + m;
        Some(([s[0]] + y, m))
  }

  /** The spelled-out year and month of an archive key, if it is one. */
  function ParseArchiveKey(key: string): Option<(string, string)>
  {
    if HasPrefix(key, ArchivePrefix) then SplitAtDash(key[|ArchivePrefix|..]) else None
  }

  /** A year and a month without '-' split back off at the first '-'. */
  lemma {:induction false} SplitAtDashOf(year: string, month: string)
    requires '-' !in year
    ensures SplitAtDash(year + "-" + month) == Some((year, month))
    decreases |year|
  {
    var s := year + "-" + month;
    if |year| > 0 {
      assert s[1..] == year[1..] + "-" + month;
      SplitAtDashOf(year[1..], month);
      assert [year[0]] + year[1..] == year;
    } else {
      assert s[1..] == month;
    }
  }

  /**
   A key under "archive/" whose year has no '-' gives back that year and the month after
   the first '-'.
   */
  lemma ParseArchiveKeyOf(y: string, m: string)
    ensures HasPrefix(ArchivePrefix + y + "-" + m, ArchivePrefix)
    ensures '-' !in y ==> ParseArchiveKey(ArchivePrefix + y + "-" + m) == Some((y, m))
  {
    var key := ArchivePrefix + y + "-" + m;
    assert key == ArchivePrefix + (y + "-" + m);
    assert key[..|ArchivePrefix|] == ArchivePrefix;
    if '-' !in y {
      assert key[|ArchivePrefix|..] == y + "-" + m;
      SplitAtDashOf(y, m);
    }
  }

  /** Keys of two archive requests whose years have no '-' agree only when the pages agree. */
  lemma ArchiveKeyInjective(year1: string, month1: string, year2: string, month2: string)
    requires '-' !in year1 && '-' !in year2
    requires ArchiveKey(year1, month1) == ArchiveKey(year2, month2)
    ensures ArchiveYear(year1) == ArchiveYear(year2) && ArchiveMonth(month1) == ArchiveMonth(month2)
  {
  }

  /**
   The file a fill reads: with compression enabled a requested key ending in ".gz"
   loses exactly one ".gz"; any other key is the file name itself.
   */
  function FileOf(path: string, canCompress: bool): (file: string)
    ensures canCompress && HasSuffix(path, GzSuffix) ==> file + GzSuffix == path
    ensures !(canCompress && HasSuffix(path, GzSuffix)) ==> file == path
  {
    if canCompress && HasSuffix(path, GzSuffix) then path[..|path| - 3] else path
  }

  /**
   The end of `DirectCacheFiller.Fill` once the file is known: a read failure is
   returned with the cache untouched. With compression the file goes through
   `CompressAndSetTo` at `keys`, and the compressed or uncompressed object is returned,
   or the error it reported (without the object that comes back beside an error of the
   second write). Without compression the file is stored under its own name,
   the `Set` error is ignored, and the file is returned.
   */
  function FillFile<C>(cache: C, setter: SetFn<C>, file: string, keys: KeyPair, wantCompressed: bool,
                       canCompress: bool, readFile: string -> Result<Object>,
                       gzip: seq<byte> -> Result<seq<byte>>): (r: (C, Result<Object>))
    ensures readFile(file).Err? ==> r == (cache, Err(readFile(file).error))
    ensures readFile(file).Ok? && !canCompress ==>
              r == (setter(cache, file, readFile(file).value, false).0, Ok(readFile(file).value))
    ensures readFile(file).Ok? && canCompress ==>
              var f := readFile(file).value;
              var s := CompressAndSetTo(cache, setter, keys, f.data, f.modTime, gzip);
              && r.0 == s.cache
              && (s.err.Some? ==> r.1 == Err(s.err.value))
              && (s.err.None? ==> r.1 == Ok(if wantCompressed then s.compressed else s.uncompressed))
  {
    match readFile(file)
    case Err(e) => (cache, Err(e))
    case Ok(f) =>
      if canCompress then
        var s := CompressAndSetTo(cache, setter, keys, f.data, f.modTime, gzip);
        var obj := if wantCompressed then s.compressed else s.uncompressed;
        (s.cache, if s.err.Some? then Err(s.err.value) else Ok(obj))
      else
        var (after, _) := setter(cache, file, f, false);
        (after, Ok(f))
  }

  /**
   `res` answers a fill of `path`: a success carries the file read, gzipped when the
   request asks for the ".gz" variant and compression is on, as the `Filler` contract
   asks for the requested version.
   */
  predicate ServesRequest(path: string, canCompress: bool, readFile: string -> Result<Object>,
                          gzip: seq<byte> -> Result<seq<byte>>, res: Result<Object>)
  {
    var file := FileOf(path, canCompress);
    res.Ok? ==>
      && readFile(file).Ok?
      && (if canCompress && HasSuffix(path, GzSuffix) then
            gzip(readFile(file).value.data).Ok?
            && res.value == Object(gzip(readFile(file).value.data).value, readFile(file).value.modTime)
          else res.value == readFile(file).value)
  }

  /**
   `DirectCacheFiller.Fill` as written: the file is stored under the key pair that
   `CompressAndSet` derives from the file name. A read failure leaves the cache alone
   and is returned; a success returns the requested version.
   */
  function DirectFillAsWritten<C>(cache: C, setter: SetFn<C>, path: string, canCompress: bool,
                                  readFile: string -> Result<Object>,
                                  gzip: seq<byte> -> Result<seq<byte>>): (r: (C, Result<Object>))
    ensures readFile(FileOf(path, canCompress)).Err? ==> r == (cache, Err(readFile(FileOf(path, canCompress)).error))
    ensures ServesRequest(path, canCompress, readFile, gzip, r.1)
  {
    var file := FileOf(path, canCompress);
    FillFile(cache, setter, file, Keys(file), canCompress && HasSuffix(path, GzSuffix), canCompress, readFile, gzip)
  }

  /**
   `DirectCacheFiller.Fill` with the keys of the file it read: the compressed copy under
   the file name plus ".gz", the file itself under its own name. A read failure leaves
   the cache alone and is returned; a success returns the requested version.
   */
  function DirectFill<C>(cache: C, setter: SetFn<C>, path: string, canCompress: bool,
                         readFile: string -> Result<Object>,
                         gzip: seq<byte> -> Result<seq<byte>>): (r: (C, Result<Object>))
    ensures readFile(FileOf(path, canCompress)).Err? ==> r == (cache, Err(readFile(FileOf(path, canCompress)).error))
    ensures ServesRequest(path, canCompress, readFile, gzip, r.1)
  {
    var file := FileOf(path, canCompress);
    FillFile(cache, setter, file, KeyPair(file + GzSuffix, file),
             canCompress && HasSuffix(path, GzSuffix), canCompress, readFile, gzip)
  }

  /**
   The corrected `DirectCacheFiller{canCompress}` handed to a cache as its filler: it
   fills with `DirectFill`, the keys taken from the file read.
   */
  function DirectFiller<C>(setter: SetFn<C>, canCompress: bool, readFile: string -> Result<Object>,
                           gzip: seq<byte> -> Result<seq<byte>>): (f: Filler<C>)
    ensures f.Filler?
  {
    Filler((c, path) => DirectFill(c, setter, path, canCompress, readFile, gzip))
  }

  /**
   A memory cache that misses `path` and has a `DirectFiller` answers with the requested
   version of the file. The next `Get(path, nil)` finds that version when the cache kept
   it: the file itself unless it is over the object limit; the gzip output unless it is
   over the object limit or the write of the file after it trimmed the cache.
   */
  lemma {:induction false} DirectFillerServesMiss(mem: Memory.MemState, path: string, canCompress: bool, f: Object,
                                                  readFile: string -> Result<Object>,
                                                  gzip: seq<byte> -> Result<seq<byte>>)
    requires Memory.Lookup(mem, path) == None
    requires readFile(FileOf(path, canCompress)) == Ok(f)
    requires canCompress ==> gzip(f.data).Ok?
    ensures var r := LeafCache.Get(LeafCache.MemCache(mem), path, DirectFiller(LeafCache.SetThrough, canCompress, readFile, gzip));
            && (canCompress && HasSuffix(path, GzSuffix) ==> r.1 == Ok(Object(gzip(f.data).value, f.modTime)))
            && (!(canCompress && HasSuffix(path, GzSuffix)) ==> r.1 == Ok(f))
    ensures var r := LeafCache.Get(LeafCache.MemCache(mem), path, DirectFiller(LeafCache.SetThrough, canCompress, readFile, gzip));
            !(canCompress && HasSuffix(path, GzSuffix)) && !Memory.Oversized(mem, f) ==>
              LeafCache.Get(r.0, path, NoFiller).1 == Ok(f)
    ensures var r := LeafCache.Get(LeafCache.MemCache(mem), path, DirectFiller(LeafCache.SetThrough, canCompress, readFile, gzip));
            canCompress && HasSuffix(path, GzSuffix) ==>
              var gz := Object(gzip(f.data).value, f.modTime);
              !Memory.Oversized(mem, gz)
              && (Memory.Oversized(mem, f) || !Memory.Overflows(Memory.SetState(mem, path, gz), FileOf(path, true), f))
              ==> LeafCache.Get(r.0, path, NoFiller).1 == Ok(gz)
  {
    var l := LeafCache.MemCache(mem);
    var file := FileOf(path, canCompress);
    var r := DirectFill(l, LeafCache.SetThrough, path, canCompress, readFile, gzip);
    assert LeafCache.Get(l, path, DirectFiller(LeafCache.SetThrough, canCompress, readFile, gzip)) == r;
    if canCompress {
      var keys := KeyPair(file + GzSuffix, file);
      assert |keys.compressed| != |keys.uncompressed|;
      LeafCache.CompressAndSetIntoMemory(mem, keys, f.data, f.modTime, gzip);
    } else if !Memory.Oversized(mem, f) {
      Memory.SetThenGet(mem, path, f);
    }
  }

  /** The two fills differ only when the file read itself ends in ".gz". */
  lemma FillsAgreeBelowDoubleGz<C>(cache: C, setter: SetFn<C>, path: string, canCompress: bool,
                                   readFile: string -> Result<Object>, gzip: seq<byte> -> Result<seq<byte>>)
    requires !HasSuffix(FileOf(path, canCompress), GzSuffix)
    ensures DirectFillAsWritten(cache, setter, path, canCompress, readFile, gzip)
            == DirectFill(cache, setter, path, canCompress, readFile, gzip)
  {
  }

  /**
   With compression, a fill into a working map cache answers the request and leaves the
   cache coherent: the requested key holds the returned object, the uncompressed
   sibling holds the file and the compressed sibling holds its gzip output.
   */
  lemma {:induction false} CompressedFillIsCoherent(entries: map<string, Object>, path: string, f: Object,
                                                    readFile: string -> Result<Object>,
                                                    gzip: seq<byte> -> Result<seq<byte>>)
    requires readFile(FileOf(path, true)) == Ok(f)
    requires gzip(f.data).Ok?
    ensures var file := FileOf(path, true);
            var gz := Object(gzip(f.data).value, f.modTime);
            var r := DirectFill(LeafCache.MapCache(entries, None), LeafCache.SetThrough, path, true, readFile, gzip);
            && r.1 == Ok(if HasSuffix(path, GzSuffix) then gz else f)
            && LeafCache.Lookup(r.0, path) == Some(if HasSuffix(path, GzSuffix) then gz else f)
            && LeafCache.Lookup(r.0, file) == Some(f)
            && LeafCache.Lookup(r.0, file + GzSuffix) == Some(gz)
  {
    var file := FileOf(path, true);
    assert |file + GzSuffix| != |file|;
  }

  /** Without compression the file is stored under the requested key, and a failing `Set` is not reported. */
  lemma {:induction false} PlainFillIgnoresSetError(l: LeafCache.Leaf, path: string, f: Object,
                                                    readFile: string -> Result<Object>,
                                                    gzip: seq<byte> -> Result<seq<byte>>)
    requires readFile(path) == Ok(f)
    ensures var r := DirectFill(l, LeafCache.SetThrough, path, false, readFile, gzip);
            && r.1 == Ok(f)
            && r.0 == LeafCache.Set(l, path, f).0
  {
  }

  /**
   A gzip request for a file whose own name ends in ".gz" (key `stem.gz.gz`, file
   `stem.gz`), as written: the key pair is derived from the file name, so the requested
   key is not stored, and the plain key `stem`, which names a different file, is
   overwritten with the bytes of `stem.gz`.
   */
  lemma {:induction false} DoubleGzFillMisfiles(stem: string, f: Object, readFile: string -> Result<Object>,
                                                gzip: seq<byte> -> Result<seq<byte>>)
    requires readFile(stem + GzSuffix) == Ok(f)
    requires gzip(f.data).Ok?
    ensures var path := stem + GzSuffix + GzSuffix;
            var r := DirectFillAsWritten(LeafCache.MapCache(map[], None), LeafCache.SetThrough, path, true, readFile, gzip);
            && r.1 == Ok(Object(gzip(f.data).value, f.modTime))
            && LeafCache.Lookup(r.0, path) == None
            && LeafCache.Lookup(r.0, stem) == Some(f)
  {
    var file := stem + GzSuffix;
    var path := file + GzSuffix;
    HasSuffixAppend(file, GzSuffix);
    HasSuffixAppend(stem, GzSuffix);
    assert FileOf(path, true) == file;
    assert Keys(file) == KeyPair(file, stem);
    assert |path| != |file| && |path| != |stem|;
  }
}
