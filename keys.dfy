/**
 * Cache-key derivation: the prefix followed by "-" and the hex MD5 of each
 * input file, or no key at all when some input is not a `.jar`.
 */
module Keys {
  import opened Wrappers
  import opened HexEncoding

  type Path = string

  /** An MD5 digest: 16 bytes (section 3.5 of RFC 1321). */
  type Digest = d: Bytes | |d| == 16 witness [0, 0, 0, 0, 0, 0, 0, 0, 0, 0, 0, 0, 0, 0, 0, 0]

  /**
   * The MD5 algorithm, left uninterpreted: any function from file content
   * to a 16-byte digest.
   */
  type DigestFn = Bytes -> Digest

  /** Java's `String.endsWith`: exact and case-sensitive. */
  function EndsWith(s: string, suffix: string): (b: bool)
    ensures b <==> exists t :: s == t + suffix
  {
    var n := |s| - |suffix|;
    assert |suffix| <= |s| ==> s == s[..n] + s[n..];
    |suffix| <= |s| && s[n..] == suffix
  }

  /** The cacheability test on a path's string form: the name ends in ".jar". */
  function IsJar(p: Path): (b: bool)
    ensures b <==> exists name :: p == name + ".jar"
  {
    EndsWith(p, ".jar")
  }

  /** The test is exact: no other suffix, no other case, nothing shorter. */
  lemma IsJarExamples()
    ensures IsJar("a.jar") && IsJar(".jar")
    ensures !IsJar("jar") && !IsJar("a.jarx") && !IsJar("A.JAR") && !IsJar("")
  {
    assert "a.jar" == "a" + ".jar";
    assert ".jar" == "" + ".jar";
  }

  /** One "-" and 32 hex digits per digest after the prefix. */
  function KeyFor(prefix: string, digests: seq<Digest>): (key: string)
    ensures |key| == |prefix| + 33 * |digests|
    ensures key[..|prefix|] == prefix
    decreases |digests|
  {
    if digests == [] then prefix
    else KeyFor(prefix, digests[..|digests| - 1]) + "-" + Hex(digests[|digests| - 1])
  }

  /**
   * What `makeKey(Classpath)` yields for `elements`: Success(Some(key)),
   * Success(None) for Java's `null`, or Failure(path) for the exception
   * `md5` throws when `path` cannot be read. Defined element by element,
   * left to right, as the loop runs.
   */
  function ClasspathKey(prefix: string, files: map<Path, Bytes>, digest: DigestFn, elements: seq<Path>)
    : (r: Result<Option<string>, Path>)
    ensures r.Success? && r.value.Some? ==>
      |r.value.value| == |prefix| + 33 * |elements| && r.value.value[..|prefix|] == prefix
    ensures r.Failure? ==> r.error in elements && IsJar(r.error) && r.error !in files
    decreases |elements|
  {
    if elements == [] then Success(Some(prefix))
    else
      var last := elements[|elements| - 1];
      match ClasspathKey(prefix, files, digest, elements[..|elements| - 1])
      case Success(Some(key)) =>
        if !IsJar(last) then Success(None)
        else if last !in files then Failure(last)
        else Success(Some(key + "-" + Hex(digest(files[last]))))
      case stopped => stopped
  }

  /** Every one of the first `n` elements is a readable `.jar`. */
  predicate CleanUpTo(files: map<Path, Bytes>, elements: seq<Path>, n: nat)
    requires n <= |elements|
  {
    forall j :: 0 <= j < n ==> IsJar(elements[j]) && elements[j] in files
  }

  /** `ds` lists the digests of `elements`, one per element, in order. */
  predicate DigestsOf(files: map<Path, Bytes>, digest: DigestFn, elements: seq<Path>, ds: seq<Digest>) {
    |ds| == |elements| &&
    forall i :: 0 <= i < |elements| ==> elements[i] in files && ds[i] == digest(files[elements[i]])
  }

  /** Once the derivation has stopped, later elements do not change the outcome. */
  lemma {:induction false} StoppedStaysStopped(prefix: string, files: map<Path, Bytes>, digest: DigestFn,
                                               elements: seq<Path>, n: nat)
    requires n <= |elements|
    requires !ClasspathKey(prefix, files, digest, elements[..n]).Success?
          || ClasspathKey(prefix, files, digest, elements[..n]).value.None?
    ensures ClasspathKey(prefix, files, digest, elements) == ClasspathKey(prefix, files, digest, elements[..n])
    decreases |elements| - n
  {
    if n == |elements| {
      assert elements[..n] == elements;
    } else {
      var m := |elements| - 1;
      assert elements[..m][..n] == elements[..n];
      StoppedStaysStopped(prefix, files, digest, elements[..m], n);
    }
  }

  /** With only readable `.jar` inputs the key is the prefix and each digest in order. */
  lemma {:induction false} AllJarsKey(prefix: string, files: map<Path, Bytes>, digest: DigestFn,
                                      elements: seq<Path>, ds: seq<Digest>)
    requires forall i :: 0 <= i < |elements| ==> IsJar(elements[i])
    requires DigestsOf(files, digest, elements, ds)
    ensures ClasspathKey(prefix, files, digest, elements) == Success(Some(KeyFor(prefix, ds)))
    decreases |elements|
  {
    if elements != [] {
      var m := |elements| - 1;
      AllJarsKey(prefix, files, digest, elements[..m], ds[..m]);
    }
  }

  /** The empty classpath is cacheable and its key is exactly the prefix. */
  lemma EmptyClasspathKey(prefix: string, files: map<Path, Bytes>, digest: DigestFn)
    ensures ClasspathKey(prefix, files, digest, []) == Success(Some(prefix))
    ensures KeyFor(prefix, []) == prefix
  {
  }

  /** The index of the first element that is not a readable `.jar`, or the length when there is none. */
  function FirstFault(files: map<Path, Bytes>, elements: seq<Path>): (i: nat)
    ensures i <= |elements|
    ensures CleanUpTo(files, elements, i)
    ensures i < |elements| ==> !(IsJar(elements[i]) && elements[i] in files)
    decreases |elements|
  {
    if elements == [] || !(IsJar(elements[0]) && elements[0] in files) then 0
    else 1 + FirstFault(files, elements[1..])
  }

  /** With only readable `.jar`s the derivation yields a key. */
  lemma {:induction false} CleanHasKey(prefix: string, files: map<Path, Bytes>, digest: DigestFn,
                                       elements: seq<Path>)
    requires CleanUpTo(files, elements, |elements|)
    ensures ClasspathKey(prefix, files, digest, elements).Success?
    ensures ClasspathKey(prefix, files, digest, elements).value.Some?
    decreases |elements|
  {
    if elements != [] {
      CleanHasKey(prefix, files, digest, elements[..|elements| - 1]);
    }
  }

  /** The first element that is not a readable `.jar` decides the outcome. */
  lemma FaultDecides(prefix: string, files: map<Path, Bytes>, digest: DigestFn, elements: seq<Path>, i: nat)
    requires i < |elements| && CleanUpTo(files, elements, i)
    requires !(IsJar(elements[i]) && elements[i] in files)
    ensures ClasspathKey(prefix, files, digest, elements)
         == if IsJar(elements[i]) then Failure(elements[i]) else Success(None)
  {
    var upto := elements[..i + 1];
    assert upto[..i] == elements[..i];
    CleanHasKey(prefix, files, digest, elements[..i]);
    StoppedStaysStopped(prefix, files, digest, elements, i + 1);
  }

  /** Two elements that are each the first not to be a readable `.jar` are the same element. */
  lemma OneFirstFault(files: map<Path, Bytes>, elements: seq<Path>, i: nat, j: nat)
    requires i < |elements| && CleanUpTo(files, elements, i) && !(IsJar(elements[i]) && elements[i] in files)
    requires j < |elements| && CleanUpTo(files, elements, j) && !(IsJar(elements[j]) && elements[j] in files)
    ensures i == j
  {
  }

  /**
   * The three outcomes, each with its exact condition: a key when every
   * element is a readable `.jar`; `null` when the first element that is
   * not a readable `.jar` is not a `.jar` at all (however many `.jar`s came
   * before it); the exception, naming that element, when it is an
   * unreadable `.jar`.
   */
  lemma ClasspathKeyCases(prefix: string, files: map<Path, Bytes>, digest: DigestFn, elements: seq<Path>)
    ensures ClasspathKey(prefix, files, digest, elements).Success?
            && ClasspathKey(prefix, files, digest, elements).value.Some?
        <==> CleanUpTo(files, elements, |elements|)
    ensures ClasspathKey(prefix, files, digest, elements) == Success(None)
        <==> exists i :: 0 <= i < |elements| && !IsJar(elements[i]) && CleanUpTo(files, elements, i)
    ensures ClasspathKey(prefix, files, digest, elements).Failure?
        <==> exists i :: 0 <= i < |elements| && IsJar(elements[i]) && elements[i] !in files
                         && CleanUpTo(files, elements, i)
    ensures forall i :: 0 <= i < |elements| && IsJar(elements[i]) && elements[i] !in files
                        && CleanUpTo(files, elements, i)
                        ==> ClasspathKey(prefix, files, digest, elements) == Failure(elements[i])
  {
    var f := FirstFault(files, elements);
    if f == |elements| {
      CleanHasKey(prefix, files, digest, elements);
    } else {
      FaultDecides(prefix, files, digest, elements, f);
      forall i | 0 <= i < |elements| && CleanUpTo(files, elements, i)
                 && !(IsJar(elements[i]) && elements[i] in files)
        ensures i == f
      {
        OneFirstFault(files, elements, i, f);
      }
    }
  }

  /** Two keys ending in "-" and equally long heads are equal only if heads and tails are. */
  lemma SplitAtDash(a1: string, t1: string, a2: string, t2: string)
    requires a1 + "-" + t1 == a2 + "-" + t2 && |a1| == |a2|
    ensures a1 == a2 && t1 == t2
  {
    var k := a1 + "-" + t1;
    assert a1 == k[..|a1|] && t1 == k[|a1| + 1..];
    assert a2 == k[..|a2|] && t2 == k[|a2| + 1..];
  }

  /** Equal non-empty keys of equally many digests agree on the shorter key and on the last digest's rendering. */
  lemma KeyForLast(prefix: string, ds1: seq<Digest>, ds2: seq<Digest>)
    requires |ds1| == |ds2| > 0
    requires KeyFor(prefix, ds1) == KeyFor(prefix, ds2)
    ensures KeyFor(prefix, ds1[..|ds1| - 1]) == KeyFor(prefix, ds2[..|ds2| - 1])
    ensures Hex(ds1[|ds1| - 1]) == Hex(ds2[|ds2| - 1])
  {
    var m := |ds1| - 1;
    SplitAtDash(KeyFor(prefix, ds1[..m]), Hex(ds1[m]), KeyFor(prefix, ds2[..m]), Hex(ds2[m]));
  }

  /** For a fixed prefix, the key determines the digest sequence, order included. */
  lemma {:induction false} KeyForInjective(prefix: string, ds1: seq<Digest>, ds2: seq<Digest>)
    ensures KeyFor(prefix, ds1) == KeyFor(prefix, ds2) <==> ds1 == ds2
    decreases |ds1|
  {
    if KeyFor(prefix, ds1) == KeyFor(prefix, ds2) && ds1 != [] {
      assert |ds1| == |ds2|;
      var m := |ds1| - 1;
      KeyForLast(prefix, ds1, ds2);
      HexInjective(ds1[m], ds2[m]);
      KeyForInjective(prefix, ds1[..m], ds2[..m]);
      assert ds1 == ds1[..m] + [ds1[m]] && ds2 == ds2[..m] + [ds2[m]];
    }
  }

  /**
   * Two classpaths of readable `.jar`s get the same key exactly when their
   * digest sequences are equal.
   */
  lemma ClasspathKeysEqualIff(prefix: string, digest: DigestFn,
                              files1: map<Path, Bytes>, elements1: seq<Path>, ds1: seq<Digest>,
                              files2: map<Path, Bytes>, elements2: seq<Path>, ds2: seq<Digest>)
    requires forall i :: 0 <= i < |elements1| ==> IsJar(elements1[i])
    requires forall i :: 0 <= i < |elements2| ==> IsJar(elements2[i])
    requires DigestsOf(files1, digest, elements1, ds1)
    requires DigestsOf(files2, digest, elements2, ds2)
    ensures ClasspathKey(prefix, files1, digest, elements1) == ClasspathKey(prefix, files2, digest, elements2)
        <==> ds1 == ds2
  {
    AllJarsKey(prefix, files1, digest, elements1, ds1);
    AllJarsKey(prefix, files2, digest, elements2, ds2);
    KeyForInjective(prefix, ds1, ds2);
  }

  /** Swapping two `.jar`s with different digests changes the key. */
  lemma OrderSensitive(prefix: string, files: map<Path, Bytes>, digest: DigestFn, a: Path, b: Path)
    requires IsJar(a) && IsJar(b) && a in files && b in files
    requires digest(files[a]) != digest(files[b])
    ensures ClasspathKey(prefix, files, digest, [a, b]) != ClasspathKey(prefix, files, digest, [b, a])
  {
    var da, db := digest(files[a]), digest(files[b]);
    ClasspathKeysEqualIff(prefix, digest, files, [a, b], [da, db], files, [b, a], [db, da]);
  }
}
