/**
 * `Md5Cache`: key derivation from the MD5s of a classpath's `.jar`s, and
 * the lookup-or-populate protocol `getFromCache` runs against its
 * `CacheFileInterface`.
 */
module Md5Caching {
  import opened Wrappers
  import opened HexEncoding
  import opened Keys
  import opened CacheStore

  /** The exceptions that can propagate out of `getFromCache`. */
  datatype CacheError =
    | CopyFromCacheFailed(key: Option<string>)
    | FallbackFailed(command: Command)
    | CopyToCacheFailed(content: Path, storedKey: string)

  /** The state after `getFromCache`, and its outcome: `true` for a hit, `false` for a miss. */
  datatype Resolution = Resolution(world: World, result: Result<bool, CacheError>)

  /** What `insert(key, content)` does: nothing at all for a `null` key, else one `copyToCache`. */
  function InsertStep(w: World, key: Option<string>, content: Path): (s: Step)
    ensures key.None? ==> s == Step(w, true)
    ensures key.Some? ==>
      && s.world.trace == w.trace + [CopiedIn(content, key.value)]
      && s.world.files == w.files
      && (s.ok <==> content in w.files)
      && s.world.entries == (if s.ok then w.entries[key.value := w.files[content]] else w.entries)
  {
    if key.None? then Step(w, true) else CopyIn(w, content, key.value)
  }

  /**
   * What `getFromCache(output, key, fallback)` does to the collaborators.
   * The existence check is made for every key, `null` included.
   */
  function Resolve(w: World, output: Path, key: Option<string>, fallback: Command): (r: Resolution)
    // A hit: the entry is copied out, the fallback never runs, the store is untouched.
    ensures InCache(w, key) ==>
      && r.result == Success(true)
      && r.world.trace == w.trace + [Prepared(output), LookedUp(key), CopiedOut(key, output)]
      && r.world.entries == w.entries
      && r.world.files == w.files[output := w.entries[key.value]]
    // A miss: the fallback runs exactly once, after the lookup, and copyToCache is
    // called after it, once, exactly when the fallback succeeded and the key is not null.
    ensures !InCache(w, key) ==>
      && r.world.trace == w.trace + [Prepared(output), LookedUp(key), Executed(fallback)]
                          + (if fallback.writes.Some? && key.Some? then [CopiedIn(output, key.value)] else [])
    // A failed fallback propagates and nothing is inserted.
    ensures !InCache(w, key) && fallback.writes.None? ==>
      && r.result == Failure(FallbackFailed(fallback))
      && r.world.files == w.files && r.world.entries == w.entries
    // A successful fallback leaves its output in place, whatever the insert does.
    ensures !InCache(w, key) && fallback.writes.Some? ==>
      && r.world.files == w.files[fallback.target := fallback.writes.value]
      && (key.None? ==> r.result == Success(false) && r.world.entries == w.entries)
      && (key.Some? && output in r.world.files ==>
            r.result == Success(false) && r.world.entries == w.entries[key.value := r.world.files[output]])
      && (key.Some? && output !in r.world.files ==>
            r.result == Failure(CopyToCacheFailed(output, key.value)) && r.world.entries == w.entries)
  {
    var looked := LookUp(Prepare(w, output), key);
    if InCache(w, key) then
      var copied := CopyOut(looked, key, output);
      Resolution(copied.world, if copied.ok then Success(true) else Failure(CopyFromCacheFailed(key)))
    else
      var ran := Run(looked, fallback);
      if !ran.ok then Resolution(ran.world, Failure(FallbackFailed(fallback)))
      else
        var inserted := InsertStep(ran.world, key, output);
        Resolution(inserted.world,
                   if inserted.ok then Success(false) else Failure(CopyToCacheFailed(output, key.value)))
  }

  /**
   * A miss with a key stores the fallback's output, so the next lookup of
   * that key, with any destination and any fallback, is a hit that serves
   * those bytes and never runs its own fallback.
   */
  lemma MissThenHit(w: World, output1: Path, key: string, fallback1: Command,
                    output2: Path, fallback2: Command)
    requires Resolve(w, output1, Some(key), fallback1).result == Success(false)
    ensures var w1 := Resolve(w, output1, Some(key), fallback1).world;
            var r2 := Resolve(w1, output2, Some(key), fallback2);
            && output1 in w1.files
            && w1.entries == w.entries[key := w1.files[output1]]
            && r2.result == Success(true)
            && r2.world.entries == w1.entries
            && r2.world.files[output2] == w1.files[output1]
            && Executed(fallback2) !in r2.world.trace[|w1.trace|..]
  {
  }

  /** A `null` key never changes the store's entries, so every call runs its fallback. */
  lemma UncacheableAlwaysRuns(w: World, output1: Path, fallback1: Command, output2: Path, fallback2: Command)
    ensures var r1 := Resolve(w, output1, None, fallback1);
            var r2 := Resolve(r1.world, output2, None, fallback2);
            && r1.world.entries == w.entries && r2.world.entries == w.entries
            && r1.world.trace == w.trace + [Prepared(output1), LookedUp(None), Executed(fallback1)]
            && r2.world.trace == r1.world.trace + [Prepared(output2), LookedUp(None), Executed(fallback2)]
            && r1.result != Success(true) && r2.result != Success(true)
  {
  }

  /** The cache accessor: its prefix and its collaborator, both fixed at construction. */
  class Md5Cache {
    const keyPrefix: string
    const cacheFileInterface: Host

    constructor (keyPrefix: string, cacheFileInterface: Host)
      ensures this.keyPrefix == keyPrefix && this.cacheFileInterface == cacheFileInterface
    {
      this.keyPrefix := keyPrefix;
      this.cacheFileInterface := cacheFileInterface;
    }

    method GetFromCache(output: Path, key: Option<string>, fallbackCommand: Command)
      returns (r: Result<bool, CacheError>)
      modifies cacheFileInterface
      ensures var res := Resolve(old(cacheFileInterface.State()), output, key, fallbackCommand);
              cacheFileInterface.State() == res.world && r == res.result
    {
      cacheFileInterface.PrepareDestination(output);
      var found := cacheFileInterface.ExistsInCache(key);
      if found {
        var copied := cacheFileInterface.CopyFromCache(key, output);
        r := if copied then Success(true) else Failure(CopyFromCacheFailed(key));
        return;
      }
      var ran := cacheFileInterface.Execute(fallbackCommand);
      if !ran {
        return Failure(FallbackFailed(fallbackCommand));
      }
      var inserted := Insert(key, output);
      r := if inserted then Success(false) else Failure(CopyToCacheFailed(output, key.value));
    }

    method Insert(key: Option<string>, content: Path) returns (ok: bool)
      modifies cacheFileInterface
      ensures Step(cacheFileInterface.State(), ok) == InsertStep(old(cacheFileInterface.State()), key, content)
    {
      if key.None? {
        return true;
      }
      ok := cacheFileInterface.CopyToCache(content, key.value);
    }

    /**
     * `md5(file)`: the hex rendering of the digest of the whole file, or the
     * exception when the file cannot be read.
     */
    static method Md5(file: Path, files: map<Path, Bytes>, digest: DigestFn) returns (r: Result<string, Path>)
      ensures r.Success? <==> file in files
      ensures r.Success? ==> r.value == Hex(digest(files[file]))
      ensures r.Success? ==> |r.value| == 32 && IsLowerHex(r.value)
      ensures r.Failure? ==> r.error == file
    {
      if file !in files {
        return Failure(file);
      }
      var hex := ByteArrayToHexString(digest(files[file]));
      return Success(hex);
    }

    /** `makeKey(Classpath)`: the loop that appends one "-" and digest per element. */
    method MakeKey(classpath: seq<Path>, files: map<Path, Bytes>, digest: DigestFn)
      returns (r: Result<Option<string>, Path>)
      ensures r == ClasspathKey(keyPrefix, files, digest, classpath)
    {
      var key := keyPrefix;
      for i := 0 to |classpath|
        invariant ClasspathKey(keyPrefix, files, digest, classpath[..i]) == Success(Some(key))
      {
        var element := classpath[i];
        assert classpath[..i + 1][..i] == classpath[..i];
        if !IsJar(element) {
          StoppedStaysStopped(keyPrefix, files, digest, classpath, i + 1);
          return Success(None);
        }
        var hash := Md5(element, files, digest);
        if hash.Failure? {
          StoppedStaysStopped(keyPrefix, files, digest, classpath, i + 1);
          return Failure(hash.error);
        }
        key := key + "-" + hash.value;
      }
      assert classpath[..|classpath|] == classpath;
      return Success(Some(key));
    }

    /** `makeKey(File)`: no `.jar` check, so a key whenever the file can be read. */
    function MakeKeyForFile(file: Path, files: map<Path, Bytes>, digest: DigestFn): (r: Result<string, Path>)
      ensures r.Success? <==> file in files
      ensures r.Success? ==> r.value == KeyFor(keyPrefix, [digest(files[file])])
      ensures r.Failure? ==> r.error == file
    {
      if file in files then Success(keyPrefix + "-" + Hex(digest(files[file]))) else Failure(file)
    }
  }

  /**
   * The one-file key agrees with the classpath key of a one-`.jar`
   * classpath, and is still produced where the classpath form says `null`.
   */
  lemma OneFileKeys(cache: Md5Cache, file: Path, files: map<Path, Bytes>, digest: DigestFn)
    requires file in files
    ensures IsJar(file) ==>
      ClasspathKey(cache.keyPrefix, files, digest, [file]) == Success(Some(cache.MakeKeyForFile(file, files, digest).value))
    ensures !IsJar(file) ==>
      ClasspathKey(cache.keyPrefix, files, digest, [file]) == Success(None)
      && cache.MakeKeyForFile(file, files, digest).Success?
  {
  }

  /**
   * Prefix "dex", one input `a.jar`: the key is "dex-" and the input's
   * hex digest; a first lookup is a miss that stores the fallback's "OUT";
   * a second lookup, whose own fallback would write "DIFFERENT", is a hit
   * whose destination receives "OUT".
   */
  lemma DexScenario(digest: DigestFn, content: Bytes, files: map<Path, Bytes>, dest: Path, dest2: Path)
    requires files == map["a.jar" := content]
    ensures ClasspathKey("dex", files, digest, ["a.jar"]) == Success(Some("dex-" + Hex(digest(content))))
    ensures var key := "dex-" + Hex(digest(content));
            var out: Bytes := [79, 85, 84];
            var different: Bytes := [68, 73, 70, 70, 69, 82, 69, 78, 84];
            var w := World(files, map[], []);
            var r1 := Resolve(w, dest, Some(key), Command(dest, Some(out)));
            var r2 := Resolve(r1.world, dest2, Some(key), Command(dest2, Some(different)));
            && r1.result == Success(false) && r1.world.files[dest] == out
            && r1.world.entries == map[key := out]
            && r2.result == Success(true) && r2.world.files[dest2] == out
            && Executed(Command(dest2, Some(different))) !in r2.world.trace
  {
    assert ["a.jar"][..0] == [];
    assert IsJar("a.jar");
    assert "dex" + "-" + Hex(digest(content)) == "dex-" + Hex(digest(content));
    var key := "dex-" + Hex(digest(content));
    var out: Bytes := [79, 85, 84];
    var different: Bytes := [68, 73, 70, 70, 69, 82, 69, 78, 84];
    var w := World(files, map[], []);
    var r1 := Resolve(w, dest, Some(key), Command(dest, Some(out)));
    MissThenHit(w, dest, key, Command(dest, Some(out)), dest2, Command(dest2, Some(different)));
    var r2 := Resolve(r1.world, dest2, Some(key), Command(dest2, Some(different)));
    assert r2.world.trace == r1.world.trace + [Prepared(dest2), LookedUp(Some(key)), CopiedOut(Some(key), dest2)];
    assert r1.world.trace == [Prepared(dest), LookedUp(Some(key)), Executed(Command(dest, Some(out))), CopiedIn(dest, key)];
  }
}
