# simpleblog's object cache, post header and cache keys, in Dafny

This project models the in-process object cache of simpleblog (the `cache` package) and
the pieces of the blog that decide what goes into it. It covers:

- `CompressAndSet`, which writes an object under a compressed key and an uncompressed
  key, in that order.
- `memoryCache`, a map with a byte budget: it keeps a running byte count, refuses
  objects over the per-object limit, clears everything when the budget would be
  exceeded, and deletes by prefix for keys ending in `*`.
- `SplitSize`, which routes each object by its size to the first child cache in
  ascending `MaxSize` order. It asks every child on `Get` and `Del`.
- `MultiLevel`, which answers from the first level that has an object and copies the
  object into the levels above it. A miss everywhere goes to the filler.
- The post header parser (`readHeader`, `NewPost`, `PostList.Less`).
- The key logic of the request handlers: `determineCompression`, the archive page key,
  and `DirectCacheFiller.Fill`.

Every file declares one module:

| file | module | models |
|---|---|---|
| wrappers.dfy | `Wrappers` | `Option` |
| text.dfy | `Text` | the parts of Go's `strings` package the source uses |
| object.dfy | `CacheObject` | `Object`, `Filler`, the error kinds, the key pairing and the writes of `CompressAndSet` |
| memorycache.dfy | `Memory` | `memoryCache`: a value model (`MemState` with `SetState`/`DelState`/`Trimmed`) and the class `MemoryCache` whose methods update its fields in place and are proved to produce exactly those states |
| leaf.dfy | `LeafCache` | the leaf caches: the map-backed `DummyCache` of the tests (optionally a backend whose every `Set` fails) and `memoryCache` |
| splitcache.dfy | `SplitCache` | `SplitSize`: sorting, `Get`, `Set`, `Del` |
| multilevel.dfy | `MultiLevel` | `MultiLevel`: `Get` with promotion, `Set`, `Del` |
| post.dfy | `Posts` | `readHeader`, `NewPost`, `PostList.Less` |
| handlers.dfy | `Handlers` | `determineCompression`, the archive key, `DirectCacheFiller.Fill` |

Go's `Cache` is an interface. Here a cache is a value of a closed set of shapes. A leaf is
a map cache or a memory cache. A `SplitSize` is a sequence of (MaxSize, leaf). A
`MultiLevel` is a sequence of levels, each a leaf or a `SplitSize`; simpleblog.go wires
the cache this way. A `Filler` is a function value that receives the cache it was handed
and returns that cache after the fill together with the object or error; `NoFiller` is
Go's nil filler. The loops of `SplitSize` and `MultiLevel` are methods proved equal to
specification functions (`GetSpec`, `SetSpec`, `DelSpec`), and the lemmas state the
source's promises about those functions.

### Where the code and its tests or comments disagree

- `Cache.Set` is declared with a third argument `writeThrough`
  (cache/cache.go:24), but every implementation takes two, and so do the calls in
  cache/splitcache.go, cache/multilevel.go and the plain branch of
  `DirectCacheFiller.Fill` (handlers.go:289). Only `CompressAndSet` passes a third
  argument, `true`. The model follows the implementations: `LeafCache.Set`,
  `SplitCache.Set` and `MultiLevel.Set` take two arguments. The setter that
  `CompressAndSetTo` and the fill are given (`SetFn`) takes the flag, because
  `CompressAndSet` passes it. `LeafCache.SetThrough` and `Memory.MemoryCache.Set`
  accept it and do not look at it. The plain branch of the fill passes `false` to that
  setter; the source passes nothing there, and the value makes no difference.
- `SplitSize.Less` sorts plainly ascending, so a child with `MaxSize` 0 sorts first, and
  `Set` uses a strict `<`. The tests expect 0 to sort last
  (cache/splitcache_test.go:9-13) and an object of exactly the threshold length to go
  to the small child (cache/splitcache_test.go:24). The model follows the code;
  `SplitCache.ZeroSortsFirstAndThresholdIsStrict` states both behaviours.
- `MultiLevel.Get` marks a level as found when its `Get` fails
  (cache/multilevel.go:12). The comment on the next line and the tests mean "found
  when `Get` succeeds". The model uses the documented meaning and keeps the code as
  written beside it (see Findings).
- `SplitSize.Get` and `MultiLevel.Get` call `Fill` on the filler even when it is nil,
  which panics in Go. Here a nil filler reports `NotFound`.

## Model

| member | source | states |
|---|---|---|
| CacheObject.Keys | cache/cache.go:33-40 | A key ending in ".gz" is the compressed key and loses its last three characters for the uncompressed key; any other key is the uncompressed key and gains ".gz" for the compressed key; either way the compressed key is the uncompressed key followed by ".gz" and the input is one of the pair |
| CacheObject.KeysOfSibling | cache/cache.go:33-40 | Pairing the compressed key gives the same pair again, and so does pairing the uncompressed key unless it ends in ".gz" itself, so a fill of either sibling writes the same two keys |
| CacheObject.CompressAndSetTo | cache/cache.go:31-67 | `CompressAndSet` once `Keys` has chosen the key pair. A gzip failure writes nothing and returns empty objects with the error. Otherwise the compressed object (gzip output, modTime) is written to the compressed key first, with writeThrough true. If that write fails, empty objects and its error come back, the cache as that write left it, and the uncompressed key is never written. Otherwise `{data, modTime}` is written to the uncompressed key second, with writeThrough true, and both objects come back with whatever that second write reports and the cache as it left it |
| LeafCache.Lookup | cache/cache_test.go:27-34 | What `Get(path, nil)` finds: in a map cache, the entry at `path` exactly when there is one; in a memory cache, what `Memory.Lookup` finds |
| LeafCache.Get | cache/cache_test.go:27-34 | A stored object comes back and the leaf is unchanged; on a miss a map cache reports NotFound whatever the filler, a memory cache reports NotFound for a nil filler and otherwise returns exactly what the filler returns for it |
| LeafCache.Set | cache/cache_test.go:36-39 | A map cache with a working backend stores the object at `path` and reports no error; a failing one keeps its entries unchanged and reports its error; a memory cache does what `Memory.SetState` says and reports no error |
| LeafCache.Del | cache/cache_test.go:41-43 | A map cache loses exactly `path`; a memory cache does what `Memory.DelState` says |
| LeafCache.SetThenLookup | cache/cache_test.go:36-39 | A `Set` that the leaf keeps reports no error, and the next `Get(path, nil)` returns the object |
| LeafCache.MapSetOthers | cache/cache_test.go:36-39 | A `Set` on a map cache leaves every other key as it was |
| LeafCache.DelThenLookup | cache/cache_test.go:41-43 | After `Del(path)` the leaf does not find `path` |
| LeafCache.CompressAndSetStoresBoth | cache/cache.go:54-66 | On a working map cache `CompressAndSet` succeeds, returns the input bytes and time as the uncompressed object, and leaves the compressed object at the compressed key and the uncompressed object at the uncompressed key, both stamped with modTime |
| LeafCache.CompressAndSetFirstFailure | cache/cache.go:57-60 | When the first write fails, the cache is unchanged, both returned objects are empty and the error comes back |
| LeafCache.CompressAndSetIntoMemory | cache/cache.go:54-66 | On a memory cache `CompressAndSet` succeeds with both objects. The uncompressed object is found afterwards unless it is over the object limit. The compressed object is found unless it is over the object limit itself, or the write of the uncompressed object trimmed the cache |
| Memory.TotalSizeRemove | cache/memorycache.go:58-59 | Removing a key takes exactly that object's length off the sum of the stored lengths |
| Memory.TotalSizeSplit | cache/memorycache.go:49-54 | The sum of the stored lengths is the sum over any set of keys plus the sum over the rest |
| Memory.TotalSizeWithout | cache/memorycache.go:21-24 | Taking a key out of the map takes its length, if it is there, off the sum |
| Memory.TotalSizeInsert | cache/memorycache.go:34-35 | Storing an object at a key makes the sum that of the other entries plus the object's length |
| Memory.TotalSizeShrinks | cache/memorycache.go:49-54 | Removing keys never increases the sum |
| Memory.New | cache/memorycache.go:91-95 | `NewMemoryCache` is empty, has a zero byte count, keeps its limits, and satisfies the accounting invariant |
| Memory.Trimmed | cache/memorycache.go:83-86 | `trim` empties the map, zeroes the byte count, keeps the limits and satisfies the accounting invariant |
| Memory.SetState | cache/memorycache.go:18-40 | An object over a non-zero object limit is not stored and the key's old entry is removed. An object that would take the count past the budget clears every other entry first. Otherwise the object is added. With an object no longer than the budget the cache ends within the budget, and a refused object never raises the byte count |
| Memory.Oversized | cache/memorycache.go:26 | An object limit of 0 refuses nothing; any other limit refuses exactly the objects longer than it |
| Memory.Overflows | cache/memorycache.go:30 | For a consistent cache: exactly when storing the object at `path`, replacing the old entry, would make the stored bytes exceed the budget |
| Memory.Lookup | cache/memorycache.go:64-70 | `Get(path, nil)` hits exactly for a stored key and returns its stored object |
| Memory.Prefix | cache/memorycache.go:43-47 | A wildcard key is its prefix followed by "*" |
| Memory.MatchingKeys | cache/memorycache.go:49-50 | Exactly the stored keys that start with the prefix |
| Memory.DelState | cache/memorycache.go:42-62 | A wildcard `Del` keeps exactly the keys not under the prefix; an exact `Del` removes exactly that key; nothing kept changes value; the deleted key is gone; the limits are kept |
| Memory.SetKeepsConsistent | cache/memorycache.go:21-35 | `Set` keeps the byte count equal to the sum of the stored lengths |
| Memory.DelKeepsConsistent | cache/memorycache.go:42-62 | `Del`, exact or wildcard, keeps the byte count equal to the sum of the stored lengths |
| Memory.OperationsKeepLimits | cache/memorycache.go:26-35 | From a consistent cache within its budget and object limit: after `Set` of an object no longer than the budget the cache is within the budget, and after any `Del` too; both keep every stored object within the object limit |
| Memory.SetThenGet | cache/memorycache.go:18-78 | An object within the object limit is what the next `Get(path, nil)` returns after its `Set` |
| Memory.ObjectLimitBoundary | cache/memorycache.go:26-28 | With object limit L, an object of length L is kept, and a following object of length L + 1 under the same key is refused and removes the kept one |
| Memory.WildcardDelExact | cache/memorycache.go:43-55 | After `Del(prefix + "*")` a key under the prefix is gone and every other key keeps its object |
| Memory.DelAbsentKey | cache/memorycache.go:56-61 | An exact `Del` of an absent key changes nothing, byte count included |
| Memory.RemoveMatching | cache/memorycache.go:49-54 | The wildcard loop removes exactly the keys under the prefix and leaves the byte count equal to the sum of what remains |
| Memory.MemoryCache.constructor | cache/memorycache.go:91-95 | The new cache is the state `New` describes |
| Memory.MemoryCache.Set | cache/memorycache.go:18-40 | Updates the fields to exactly `SetState` of the old state, keeps the accounting invariant, and reports no error |
| Memory.MemoryCache.Del | cache/memorycache.go:42-62 | Updates the fields to exactly `DelState` of the old state and keeps the accounting invariant |
| Memory.MemoryCache.DelMatching | cache/memorycache.go:43-55 | Removes exactly the keys under the prefix, keeps the limits and the accounting invariant |
| Memory.MemoryCache.Get | cache/memorycache.go:64-78 | A hit returns the stored object and changes nothing; a miss with a nil filler reports NotFound and changes nothing; a miss with a filler returns what the filler returns, and the cache is what the filler left |
| Memory.MemoryCache.Trim | cache/memorycache.go:83-86 | The fields become exactly `Trimmed` of the old state |
| SplitCache.Insert | cache/splitcache.go:64-66 | Inserting into a list sorted by `Less` gives a sorted list holding the old children and the new one |
| SplitCache.SortChildren | cache/splitcache.go:18 | The result is sorted by `Less` and is a permutation of the input |
| SplitCache.NewSplitSize | cache/splitcache.go:16-20 | The children, permuted into ascending `MaxSize` order |
| SplitCache.AddChildCache | cache/splitcache.go:22-26 | The old children plus the new one, permuted into ascending `MaxSize` order |
| SplitCache.FirstFit | cache/splitcache.go:47-52 | The first child whose `MaxSize` is strictly larger than the size; every child before it is too small; none when every child is too small |
| SplitCache.FirstHit | cache/splitcache.go:30-35 | The first child that holds the key; no child before it does; none when no child does |
| SplitCache.GetSpec | cache/splitcache.go:29-42 | With a nil filler and at least one child, `Get` succeeds exactly when some child holds the key, and then returns an object some child holds; when a child holds the key or there is no filler, the children are unchanged |
| SplitCache.SetSpec | cache/splitcache.go:46-56 | The children keep their number |
| SplitCache.DelSpec | cache/splitcache.go:58-62 | The children keep their number |
| SplitCache.Get | cache/splitcache.go:29-42 | The loop returns exactly `GetSpec`: the first holder's object, or the filler's result for the whole `SplitSize`, or the zero object with no children |
| SplitCache.Set | cache/splitcache.go:46-56 | The loop returns exactly `SetSpec`: the first child large enough is written and its error returned, or nothing changes |
| SplitCache.Del | cache/splitcache.go:58-62 | The loop returns exactly `DelSpec`: every child deletes the key |
| SplitCache.SetTouchesOneChild | cache/splitcache.go:46-52 | `Set` writes only the first child whose `MaxSize` exceeds the object's length, returns that child's error unchanged, and leaves every other child and every `MaxSize` as it was |
| SplitCache.SetWithoutRoom | cache/splitcache.go:53-55 | When no child is large enough, `Set` changes nothing and reports no error |
| SplitCache.GetFindsFirstHolder | cache/splitcache.go:30-35 | `Get` answers from the first child holding the key, whatever the filler, and changes no child |
| SplitCache.GetMissUsesFiller | cache/splitcache.go:37-39 | When no child holds the key, `Get` returns exactly what the filler returns for the `SplitSize` itself, error included; with a nil filler it reports NotFound |
| SplitCache.SetThenGet | cache/splitcache.go:29-56 | After a `Set` that the chosen child keeps, with no older copy in an earlier child, `Get(path, nil)` returns the object and `Set` reported no error |
| SplitCache.StaleCopyShadowsSet | cache/splitcache.go:29-56 | With children of `MaxSize` 8 (holding an old copy) and 100, a `Set` of an object of length 8 to 99 goes to the second child, and the next `Get` still returns the old copy from the first |
| SplitCache.DelClearsEveryChild | cache/splitcache.go:58-62 | After `Del(path)` no child holds `path`, and `Get(path, nil)` on a non-empty `SplitSize` fails |
| SplitCache.GetOfNoChildren | cache/splitcache.go:29-42 | With no children, `Get` returns the zero object and no error, whatever the filler |
| SplitCache.ZeroSortsFirstAndThresholdIsStrict | cache/splitcache.go:49 | A child with `MaxSize` 0 sorts before one with `MaxSize` 8 and never receives an object; an object of length 8 or more does not go to the child with `MaxSize` 8, so `Set` changes nothing |
| MultiLevel.TierGet | cache/multilevel.go:11 | Asking a level with a nil filler leaves the level as it was |
| MultiLevel.FirstFound | cache/multilevel.go:9-17 | The first level whose `Get(path, nil)` succeeds; every level above it misses; none when every level misses |
| MultiLevel.FirstMiss | cache/multilevel.go:9-17 | The first level whose `Get(path, nil)` fails (the level the loop as written stops at); every level above it succeeds |
| MultiLevel.Promote | cache/multilevel.go:25-28 | The levels keep their number |
| MultiLevel.GetSpec | cache/multilevel.go:8-31 | `Get` as documented: with a nil filler it succeeds exactly when some level holds the key, and then returns an object some level holds |
| MultiLevel.GetAsWritten | cache/multilevel.go:8-31 | `Get` as written never answers from a level: it either fails or returns exactly what the filler returns; with a nil filler it always reports NotFound |
| MultiLevel.SetSpec | cache/multilevel.go:33-42 | The levels keep their number |
| MultiLevel.DelSpec | cache/multilevel.go:44-49 | The levels keep their number |
| MultiLevel.Get | cache/multilevel.go:8-31 | The scan loop and the backward promotion loop return exactly `GetSpec` |
| MultiLevel.Set | cache/multilevel.go:33-42 | The loop returns exactly `SetSpec` |
| MultiLevel.SetSpecUpTo | cache/multilevel.go:35-40 | When the levels before `k` take the object cleanly and level `k` fails, `Set` returns level `k`'s error, writes levels 0..k and leaves the rest |
| MultiLevel.Del | cache/multilevel.go:45-49 | The loop returns exactly `DelSpec` |
| MultiLevel.TierSet | cache/multilevel.go:36 | A level that keeps the object (a working leaf within its limits, or a `SplitSize` whose chosen child keeps it and has no older copy before it) reports no error for its `Set` and then finds the object |
| MultiLevel.TierDel | cache/multilevel.go:47 | After `Del(path)` the level no longer finds `path`, unless it is a `SplitSize` with no children |
| MultiLevel.GetHitPromotes | cache/multilevel.go:8-31 | A hit at level `i` (all levels above miss) returns level `i`'s object, leaves level `i` and those below unchanged, and `Set`s the object into every level above |
| MultiLevel.PromotedLevelsHit | cache/multilevel.go:25-28 | After a hit at level `i`, every level from the top down to `i` finds the object, given that the upper levels keep it |
| MultiLevel.GetMissUsesFiller | cache/multilevel.go:19-23 | On a miss at every level, `Get` returns exactly what the filler returns for the `MultiLevel` itself, error included; a nil filler gives NotFound |
| MultiLevel.SetStopsAtFirstError | cache/multilevel.go:33-42 | Without an error every level got the object; with one, some level `k` reported it, every level above `k` took the object cleanly, and every level below `k` is unchanged |
| MultiLevel.SetThenGet | cache/multilevel.go:8-42 | After a `Set` that the top level keeps, `Get` returns the object |
| MultiLevel.DelMissesEverywhere | cache/multilevel.go:45-49 | After `Del(path)` no level finds `path`, and `Get(path, nil)` fails |
| MultiLevel.GetAsWrittenLosesHits | cache/multilevel.go:12-15 | With the object only in the top of two map-cache levels, the documented `Get` returns it unchanged, while the loop as written overwrites the top level with the zero object and fails; with one level holding the object, the loop as written fails as if nothing were cached |
| Posts.ReadLine | post.go:34 | `ReadString('\n')`: a complete read is the text before the first newline, and the input is that text, the newline and the rest; an incomplete read is the whole newline-free input |
| Posts.ReadLineOf | post.go:34 | A newline-free line followed by a newline is read back whole, leaving what follows |
| Posts.TagsOf | post.go:55-63 | A blank tags line gives no tags; otherwise there is one tag per comma plus one, and tag i is the i-th comma-separated piece, trimmed and title-cased |
| Posts.ParseHeader | post.go:33-74 | Success assigns title, timestamp and tags; no title means the first line was cut off; a bad timestamp leaves the title set, the zero time as timestamp, and the tags unread |
| Posts.AfterTitle | post.go:40-48 | The stage after the title: a bad timestamp yields the zero time and no tags |
| Posts.AfterTimestamp | post.go:50-63 | The stage after the timestamp keeps title and timestamp and never reports a bad timestamp |
| Posts.AfterTags | post.go:65-73 | The last stage succeeds exactly when the input continues with a newline, and then the rest is what follows it |
| Posts.HeaderRoundTrip | post.go:33-74 | Three newline-free lines, each followed by a newline, then an empty line and a body, with a timestamp that parses: no error, the trimmed title, the parsed time, the tags of the third line, and the body left unread |
| Posts.HeaderShape | post.go:33-74 | Conversely, a header read without error is three newline-free lines with their newlines, then an empty line, then the unread rest |
| Posts.TimestampLineShape | post.go:40-74 | What the stage after the title reads without error is a timestamp line, a tags line and an empty line |
| Posts.TagsLineShape | post.go:50-74 | What the stage after the timestamp reads without error is a tags line and an empty line |
| Posts.NoNewlineNoTitle | post.go:34-37 | Input without a newline is an end-of-input error with nothing assigned |
| Posts.BadTimestampKeepsTitle | post.go:45-48 | A timestamp that does not parse is an error; the title is set, the timestamp is the zero time, and the tags line is not read |
| Posts.FourthLineMustBeEmpty | post.go:65-71 | A fourth line with anything before its newline is reported with that line, after the tags have been set |
| Posts.Post.constructor | post.go:91-92 | A new post has only its source path set |
| Posts.Post.ReadHeader | post.go:33-74 | Returns the error and the unread input, and assigns each field exactly as far as `ParseHeader` got, leaving the others as they were |
| Posts.NewPost | post.go:84-112 | A file that cannot be opened gives no post and the open error; otherwise a fresh post with the source path and the header fields, the header error if any, and the content only when it was asked for and the header was read without error |
| Posts.SortedByLessIsOldestFirst | post.go:275-277 | `Less` compares publication times with `Before`, so a `PostList` sorted by it lists posts oldest first: it is sorted exactly when the timestamps never decrease, the first post is the oldest and the last the newest |
| Handlers.DetermineCompression | handlers.go:36-55 | Compression is chosen exactly when there is no Range header and some Accept-Encoding value contains "gzip"; then the path gains ".gz", otherwise it is unchanged, so compression is chosen exactly when the path changes |
| Handlers.ArchiveYear | handlers.go:77-80 | A two-character year gains the prefix "20"; the spelled-out year is never two characters long, ends with the year as given, has a '-' exactly when the given year does, and is the given year when that is not two characters long |
| Handlers.ArchiveMonth | handlers.go:81-84 | A one-character month gains the prefix "0"; the spelled-out month is never one character long, ends with the month as given, and is the given month when that is not one character long |
| Handlers.ArchiveKey | handlers.go:85-86 | The key lies under "archive/", and for a year without '-' it decodes back to the spelled-out year and month |
| Handlers.ArchiveKeyNormalises | handlers.go:77-86 | Year and month normalisation is idempotent, and a two-digit year or a one-digit month gives the same key as its spelled-out form |
| Handlers.SplitAtDash | handlers.go:85 | Splitting at the first '-' gives a '-'-free head and the rest, and joins back to the input; there is no split exactly when the input has no '-' |
| Handlers.SplitAtDashOf | handlers.go:85 | A '-'-free year joined to a month with '-' splits back into the two |
| Handlers.ParseArchiveKeyOf | handlers.go:85 | A key under "archive/" whose year has no '-' decodes to that year and the month after the first '-' |
| Handlers.ArchiveKeyInjective | handlers.go:77-86 | Two archive requests with years without '-' share a key only if their spelled-out years and months agree |
| Handlers.FileOf | handlers.go:252-257 | With compression on, a path ending in ".gz" loses exactly one ".gz"; any other path is read as it is |
| Handlers.FillFile | handlers.go:259-291 | A read failure returns the error with the cache unchanged. With compression the file goes through `CompressAndSetTo`; with no error the requested version is returned, with any error that error alone (the object Go returns beside a second-write error is dropped, see Left out). Without compression the file is stored under its own name, the `Set` error is ignored, and the file is returned |
| Handlers.DirectFillAsWritten | handlers.go:251-292 | `Fill` as written: a read failure leaves the cache unchanged and is returned; a success returns the file read, gzipped when the key ends in ".gz" and compression is on |
| Handlers.DirectFill | handlers.go:251-292 | `Fill` with the keys of the file read: a read failure leaves the cache unchanged and is returned; a success returns the file read, gzipped when the key ends in ".gz" and compression is on |
| Handlers.DirectFiller | handlers.go:246-249 | The corrected `DirectCacheFiller` is a non-nil filler |
| Handlers.DirectFillerServesMiss | handlers.go:251-292 | A memory cache that misses a key and has the filler returns the requested version of the file, gzipped exactly for a ".gz" key with compression on. The next `Get(key, nil)` finds that version when the cache kept it: the file unless it is over the object limit; the gzip output unless it is over the object limit or the write of the file after it trimmed the cache |
| Handlers.FillsAgreeBelowDoubleGz | handlers.go:276-286 | The corrected fill and the fill as written agree whenever the file read does not itself end in ".gz" |
| Handlers.CompressedFillIsCoherent | handlers.go:276-286 | With compression, a fill into a working map cache returns the requested version, stores it under the requested key, stores the file under its name and its gzip output under its name plus ".gz" |
| Handlers.PlainFillIgnoresSetError | handlers.go:287-291 | Without compression the file is returned whatever the `Set` reports, and the cache is the leaf after that `Set` |
| Handlers.DoubleGzFillMisfiles | handlers.go:276-286 | As written, a gzip fill of `stem.gz.gz` returns the right object but leaves the requested key unstored and overwrites the key `stem` with the bytes of the file `stem.gz` |
| Text.Split | post.go:59 | `strings.Split` on one separator: one more piece than separators, no piece holds the separator, and joining the pieces back gives the input |
| Text.TrimSpaceSpec | post.go:55 | `strings.TrimSpace` keeps a slice of the input with only white space around it, which neither starts nor ends with white space |
| Text.TrimSpaceAppendSpace | post.go:38 | A trailing newline or other white space does not change `TrimSpace`, so trimming a line with or without its newline agrees |

## Left out

- cache/diskcache.go is not part of this model. Its behaviour is file-system calls. Failing storage is represented by a map cache whose every `Set` fails.
- gzip compression is a parameter (its output or its error). No decompression round trip is stated.
- The `sync.RWMutex` locking and the concurrent tests are left out; every operation is sequential.
- HTTP plumbing, file reading and the time source are left out. `Fill` takes a `readFile` parameter giving the file's bytes and modification time or an error. `time.Parse` in the post time format and `strings.Title` are parameters of the header parser.
- Go strings are UTF-8 bytes; here they are sequences of code points, and `strings.TrimSpace` uses the Unicode white-space set on code points.
- Instants are integers, and `ModTime` equality ignores Go's sub-second truncation in the tests.
- Go's `int` is unbounded here; the byte counts cannot overflow.
- Child caches of a `SplitSize` and levels of a `MultiLevel` are values, not shared references, so aliasing of one cache in two places is not modelled. The nesting is limited to leaves, `SplitSize`s of leaves and `MultiLevel`s of both.
- A `Result` carries an object or an error, never both. Where Go returns the zero object next to an error, the zero object is dropped, except where `MultiLevel` promotes it, which `GetAsWritten` models. Where Go returns a real object next to an error, the object is dropped too; `Handlers.FillFile` below is the one place this happens.
- `sort.Sort` is not stable and may order equal `MaxSize`s differently. `SortChildren` is one particular sorted permutation, and the lemmas about ties rely only on sortedness and permutation.
- Memory.MemoryCache.DelMatching: the wildcard loop runs over a copy of the map (`RemoveMatching`) and assigns the result to the fields, so Go's deletion from the map while iterating over it is not modelled step by step.
- Memory.MemoryCache.Get: requires a filler that keeps the cache consistent, which a Go filler does by updating the cache only through its methods.
- Handlers.ArchiveKey: `path.Join`'s cleaning is taken to leave "archive/" plus the file name unchanged, which holds for year and month values without '/' (router path segments).
- Handlers.FillFile: when the second write of `CompressAndSet` fails, Go returns both objects with its error (cache/cache.go:64-66) and `Fill` passes the requested one on with that error (handlers.go:283, 285); the model returns the error alone, because a `Result` holds one or the other. `CompressAndSetTo` itself keeps both objects in that case.
- Handlers.DirectFillAsWritten: returns the error alone where Go returns the requested object with a failing second write's error, as `FillFile` does.
- Handlers.DirectFill: returns the error alone where Go returns the requested object with a failing second write's error, as `FillFile` does.
- Handlers.DirectFiller: its own contract only says the filler is not nil; what it does inside a memory cache is `DirectFillerServesMiss`.
- MultiLevel.DelMissesEverywhere: excludes `SplitSize` levels with no children, since such a level answers every `Get` with the zero object and no error.
- MultiLevel.Promote: its own contract only keeps the number of levels; what it writes is stated by `GetHitPromotes` and `PromotedLevelsHit`.
- MultiLevel.SetSpec: its own contract only keeps the number of levels; what it writes is stated by `SetStopsAtFirstError` and `SetSpecUpTo`.
- MultiLevel.DelSpec: its own contract only keeps the number of levels; what it removes is stated by `DelMissesEverywhere`.
- SplitCache.SetSpec: its own contract only keeps the number of children; what it writes is stated by `SetTouchesOneChild` and `SetWithoutRoom`.
- SplitCache.DelSpec: its own contract only keeps the number of children; what it removes is stated by `DelClearsEveryChild`.
- Posts.NewPost: the content read cannot fail, because the file is its content; Go's nil and empty tag slices are both the empty sequence.
- The key-listing helper `DummyCache.Keys` (cache/cache_test.go:18) and the parallel-set helpers of the tests, `PostPath`, `HTMLContent` and the other parts of post.go and handlers.go named here only by their callers are not modelled.

## Findings

| source | as written | input that shows it | evidently intended | confidence | as-written member | corrected member |
|---|---|---|---|---|---|---|
| cache/multilevel.go:12 | a level counts as found when its `Get` returns an error | two map-cache levels, the object only in the top one: the scan stops at the second level's miss, writes the zero object over the top level's copy and returns NotFound | a level is found when its `Get` succeeds, as the comment on line 13 and cache/multilevel_test.go:26-46 say | high, not executed | MultiLevel.GetAsWrittenLosesHits | MultiLevel.GetHitPromotes |
| handlers.go:277 | the fill derives its cache keys from the name of the file it read | a gzip request for the file `x.gz` (key `x.gz.gz`): the file `x.gz` is read, its bytes are stored under the key `x` and its gzip output under `x.gz`, and nothing is stored under `x.gz.gz` | keys taken from the requested path, the file name plus ".gz" for the compressed copy and the file name for the file itself, so the requested key holds what the fill returns (cache/cache.go:16-18) | medium, not executed | Handlers.DoubleGzFillMisfiles | Handlers.CompressedFillIsCoherent |
