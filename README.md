# Md5Cache, modelled in Dafny

A model of vogar's `Md5Cache`, a small content-addressed build cache. It
covers three pieces of logic:

- **Hex rendering** (`hex.dfy`, module `HexEncoding`). `byteArrayToHexString`
  writes each signed Java byte as its high nibble and then its low nibble.
  Each nibble becomes one lower-case hex digit. A decoder, `Unhex`, is the
  partner: decoding the rendering gives back the bytes, so the rendering is
  injective.
- **Cache-key derivation** (`keys.dfy`, module `Keys`, and the key methods of
  `Md5Cache`). `makeKey(Classpath)` starts from `keyPrefix`. For each element
  in order it appends `"-"` and the element's hex MD5. It returns `null` as
  soon as an element is not a `.jar`. `makeKey(File)` has no such check.
  MD5 itself is a function-valued parameter `digest` of type
  `DigestFn = Bytes -> Digest`, where `Digest` is a 16-byte sequence (section 3.5 of RFC 1321). The file system
  is a `map<Path, Bytes>` snapshot. Reading an absent path is `md5`'s
  exception, modelled as `Failure(path)`.
- **Lookup-or-populate** (`store.dfy`, module `CacheStore`, and
  `md5cache.dfy`, module `Md5Caching`). The collaborators are held in the
  class `Host`: the local files, a map-backed `CacheFileInterface` and a
  trace of calls. The fallback `Command` is seen only through its effect:
  it either writes some bytes to one path or fails. Each collaborator call
  is a pure function on a `World` value, and the `Host` method that makes it
  is tied to that function. `Md5Cache.GetFromCache` and `Md5Cache.Insert`
  make the same calls in the same order as the Java code. Their effect is
  stated by the functions `Resolve` and `InsertStep`, whose contracts give
  the hit and miss behaviour and the exact order of calls.

Java `null` is `None` of `Option`. An exception that propagates is `Failure`
of `Result`. A Java `byte` is the newtype `int8`. `(b >> 4) & 0xf` is written
as `(b / 16) % 16` and `b & 0xf` as `b % 16`. With Dafny's Euclidean `/` and
`%` these are exact for negative bytes too.

The code calls `existsInCache(key)` with a `null` key as
well (src/vogar/Md5Cache.java:43), and only `insert` tests for `null`. So
`Resolve` always records the lookup `LookedUp(key)`, for `None` too. The
map-backed store answers `false` for `None`, so the fallback always runs.

## Model

| member | source | states |
|---|---|---|
| HexEncoding.HighNibble | src/vogar/Md5Cache.java:79 | `(b >> 4) & 0xf` on a signed byte is the high hex digit of its unsigned value |
| HexEncoding.LowNibble | src/vogar/Md5Cache.java:80 | `b & 0xf` on a signed byte is the low hex digit of its unsigned value |
| HexEncoding.HexDigit | src/vogar/Md5Cache.java:79-80 | `Integer.toHexString` on 0..15 is one lower-case hex character, a decimal digit exactly for 0..9 |
| HexEncoding.Hex | src/vogar/Md5Cache.java:76-83 | the rendering is twice as long as the input and made only of the characters 0-9 and a-f |
| HexEncoding.HexAt | src/vogar/Md5Cache.java:78-81 | characters 2i and 2i+1 are the hex digits of the high and low nibble of byte i |
| HexEncoding.NibblesOfUnsigned | src/vogar/Md5Cache.java:79-80 | for a signed byte, high nibble * 16 + low nibble is the byte's unsigned value 0..255 |
| HexEncoding.FromNibblesOfNibbles | src/vogar/Md5Cache.java:79-80 | the two nibbles written out determine the signed byte again |
| HexEncoding.DigitValueOfHexDigit | src/vogar/Md5Cache.java:79-80 | each digit `Integer.toHexString` writes for 0..15 reads back as the same value |
| HexEncoding.UnhexHex | src/vogar/Md5Cache.java:76-83 | decoding the rendering gives back exactly the original bytes |
| HexEncoding.HexInjective | src/vogar/Md5Cache.java:76-83 | two byte sequences have the same rendering if and only if they are equal |
| HexEncoding.ByteArrayToHexString | src/vogar/Md5Cache.java:76-83 | the StringBuilder loop returns the rendering of its input |
| Keys.EndsWith | src/vogar/Md5Cache.java:94 | Java's `String.endsWith`: true exactly when the string is some string followed by the suffix |
| Keys.IsJar | src/vogar/Md5Cache.java:94 | an element is cacheable exactly when its path string is some name followed by ".jar" |
| Keys.IsJarExamples | src/vogar/Md5Cache.java:94 | the test is exact and case-sensitive: "a.jar" and ".jar" pass; "jar", "a.jarx", "A.JAR" and "" fail |
| Keys.KeyFor | src/vogar/Md5Cache.java:91-99 | a key of n digests is the prefix followed by 33 characters per digest |
| Keys.ClasspathKey | src/vogar/Md5Cache.java:89-100 | defined by the loop's own order: the first non-.jar gives null and the first unreadable .jar gives the exception naming it; a key is the prefix followed by 33 characters per element; its meaning is given by AllJarsKey, FaultDecides and ClasspathKeyCases |
| Keys.StoppedStaysStopped | src/vogar/Md5Cache.java:94-96 | once the classpath loop has returned null or thrown, later elements do not change the outcome |
| Keys.AllJarsKey | src/vogar/Md5Cache.java:91-99 | with only readable .jar elements the key is the prefix then "-" and the hex digest of each element, in order |
| Keys.EmptyClasspathKey | src/vogar/Md5Cache.java:91-99 | an empty classpath is cacheable and its key is exactly the prefix |
| Keys.FirstFault | src/vogar/Md5Cache.java:92-96 | gives the first element that is not a readable .jar; every element before it is one |
| Keys.CleanHasKey | src/vogar/Md5Cache.java:92-99 | a classpath of readable .jar elements always gets a key |
| Keys.FaultDecides | src/vogar/Md5Cache.java:94-97 | the first element that is not a readable .jar decides the outcome: null if it is not a .jar, otherwise the exception naming it |
| Keys.ClasspathKeyCases | src/vogar/Md5Cache.java:89-100 | a key if and only if every element is a readable .jar; null if and only if some element is not a .jar and every earlier one is a readable .jar; the exception, naming the first unreadable .jar, in the remaining case |
| Keys.KeyForLast | src/vogar/Md5Cache.java:97 | two equal keys of equally many digests have equal shorter keys and equal renderings of their last digests |
| Keys.KeyForInjective | src/vogar/Md5Cache.java:91-99 | for a fixed prefix, two keys are equal if and only if their digest sequences are equal, order included |
| Keys.ClasspathKeysEqualIff | src/vogar/Md5Cache.java:91-99 | two all-.jar readable classpaths get the same key if and only if their digest sequences are equal |
| Keys.OrderSensitive | src/vogar/Md5Cache.java:92-97 | swapping two .jar elements with different digests changes the key |
| CacheStore.Host.PrepareDestination | src/vogar/Md5Cache.java:42 | records the prepareDestination call and changes no file or entry |
| CacheStore.Host.ExistsInCache | src/vogar/Md5Cache.java:43 | answers whether the possibly-null key names a stored entry, and records the call |
| CacheStore.Host.CopyFromCache | src/vogar/Md5Cache.java:44 | overwrites the output with the stored entry, or fails when there is none |
| CacheStore.Host.Execute | src/vogar/Md5Cache.java:47 | the fallback either writes its bytes to its target or fails and writes nothing |
| CacheStore.Host.CopyToCache | src/vogar/Md5Cache.java:122 | stores the content file's bytes under the key, or fails when the file is missing |
| Md5Caching.InsertStep | src/vogar/Md5Cache.java:117-123 | a null key changes nothing; otherwise exactly one copyToCache is made and the entry gets the content's bytes |
| Md5Caching.Resolve | src/vogar/Md5Cache.java:41-50 | hit: prepare, lookup, copy out; returns true; the fallback never runs; the store is unchanged; the destination gets the stored bytes. miss: prepare, lookup, the fallback exactly once, then copyToCache if and only if the fallback succeeded and the key is not null; a failed fallback propagates and nothing is inserted; with a null key the result is false and the entries are unchanged; with a key, a stored output gives false and the new entry, a missing output gives the copyToCache failure and unchanged entries |
| Md5Caching.MissThenHit | src/vogar/Md5Cache.java:41-50 | after a miss with a key, the next lookup of that key is a hit: it serves the bytes the first fallback left at the first output, leaves the store unchanged and runs no fallback |
| Md5Caching.UncacheableAlwaysRuns | src/vogar/Md5Cache.java:43-48 | with a null key two calls run both fallbacks, never change the store's entries and never return true |
| Md5Caching.Md5Cache.constructor | src/vogar/Md5Cache.java:36-39 | keeps the prefix and the cache-file interface |
| Md5Caching.Md5Cache.GetFromCache | src/vogar/Md5Cache.java:41-50 | makes the collaborator calls whose effect and result are given by Resolve |
| Md5Caching.Md5Cache.Insert | src/vogar/Md5Cache.java:117-123 | has the effect given by InsertStep |
| Md5Caching.Md5Cache.Md5 | src/vogar/Md5Cache.java:55-74 | a readable file gives the 32-character lower-case hex rendering of its digest; an unreadable one gives the exception naming it |
| Md5Caching.Md5Cache.MakeKey | src/vogar/Md5Cache.java:89-100 | the loop with its early return computes ClasspathKey for the cache's prefix |
| Md5Caching.Md5Cache.MakeKeyForFile | src/vogar/Md5Cache.java:105-107 | never null: a key whenever the file is readable, equal to the prefix, "-" and the file's hex digest; the exception otherwise |
| Md5Caching.OneFileKeys | src/vogar/Md5Cache.java:89-107 | for a .jar the one-file key equals the key of the one-element classpath; for a non-.jar the classpath form gives null while the one-file form still gives a key |
| Md5Caching.DexScenario | src/vogar/Md5Cache.java:41-99 | prefix "dex" and input a.jar give key "dex-" plus its hex digest; a first lookup stores the fallback's "OUT"; a second lookup with a fallback writing "DIFFERENT" is a hit whose destination gets "OUT" |

## Left out

- The MD5 algorithm and `MessageDigest.getInstance("MD5")`: a library call, modelled as the uninterpreted parameter `digest`. A missing algorithm is not modelled.
- The chunked read through `FileInputStream`, the 8192-byte buffer and `close`: file I/O. Only the result matters, the digest of the whole file content.
- `Md5Caching.Md5Cache.Md5`: the only read failure modelled is a path absent from the file snapshot. The `RuntimeException` wrapping becomes `Failure(path)`.
- `Console.getInstance().verbose` in `insert`: logging, with no contract.
- `Command.execute` and `Classpath.getElements`: their source is not part of this model. A command is one write of some bytes to one path, or a failure. A classpath is a sequence of path strings.
- The on-disk `CacheFileInterface`: its source is not part of this model. The store is a map. `prepareDestination` only records the call, because directories are not modelled. `existsInCache(null)` answers `false`. No store call fails except `copyFromCache` with no entry and `copyToCache` of a missing file.
- Concurrent processes that share the cache directory, and partial writes: concurrency is not modelled. Every call runs alone from start to end.
- A `null` classpath element, or a `null` `file` for `makeKey(File)`: paths are plain strings.

