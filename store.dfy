/**
 * The collaborators `Md5Cache` talks to: the local file system, a
 * `CacheFileInterface` backed by a map from key to stored bytes, and the
 * fallback `Command`. A `World` is their joint state together with the
 * trace of calls made so far; `Host` holds that state in fields.
 */
module CacheStore {
  import opened Wrappers
  import opened HexEncoding
  import opened Keys

  /**
   * A fallback command, seen only through its effect: it writes `writes`
   * to `target`, or it fails (`writes == None`) and writes nothing.
   */
  datatype Command = Command(target: Path, writes: Option<Bytes>)

  /** One call to a collaborator, in the order made. */
  datatype Event =
    | Prepared(output: Path)
    | LookedUp(key: Option<string>)
    | CopiedOut(key: Option<string>, output: Path)
    | Executed(command: Command)
    | CopiedIn(content: Path, storedKey: string)

  datatype World = World(files: map<Path, Bytes>, entries: map<string, Bytes>, trace: seq<Event>)

  /** The state after a collaborator call, and whether the call succeeded (did not throw). */
  datatype Step = Step(world: World, ok: bool)

  /** `prepareDestination(output)`: directories are not modelled, so only the call is recorded. */
  function Prepare(w: World, output: Path): World {
    w.(trace := w.trace + [Prepared(output)])
  }

  /** The answer of `existsInCache(key)`; a `null` key names no entry. */
  predicate InCache(w: World, key: Option<string>) {
    key.Some? && key.value in w.entries
  }

  /** `existsInCache(key)` changes nothing but the trace. */
  function LookUp(w: World, key: Option<string>): World {
    w.(trace := w.trace + [LookedUp(key)])
  }

  /** `copyFromCache(key, output)`: overwrites `output` with the entry; fails if there is none. */
  function CopyOut(w: World, key: Option<string>, output: Path): Step {
    var w' := w.(trace := w.trace + [CopiedOut(key, output)]);
    if InCache(w, key) then Step(w'.(files := w.files[output := w.entries[key.value]]), true)
    else Step(w', false)
  }

  /** `fallbackCommand.execute()`. */
  function Run(w: World, command: Command): Step {
    var w' := w.(trace := w.trace + [Executed(command)]);
    match command.writes
    case Some(bytes) => Step(w'.(files := w.files[command.target := bytes]), true)
    case None => Step(w', false)
  }

  /** `copyToCache(content, key)`: stores the file's bytes under `key`; fails if the file is missing. */
  function CopyIn(w: World, content: Path, key: string): Step {
    var w' := w.(trace := w.trace + [CopiedIn(content, key)]);
    if content in w.files then Step(w'.(entries := w.entries[key := w.files[content]]), true)
    else Step(w', false)
  }

  /** The collaborators' state, updated in place by each call. */
  class Host {
    var files: map<Path, Bytes>
    var entries: map<string, Bytes>
    var trace: seq<Event>

    function State(): World
      reads this
    {
      World(files, entries, trace)
    }

    constructor (files: map<Path, Bytes>, entries: map<string, Bytes>)
      ensures State() == World(files, entries, [])
    {
      this.files := files;
      this.entries := entries;
      this.trace := [];
    }

    method PrepareDestination(output: Path)
      modifies this
      ensures State() == Prepare(old(State()), output)
    {
      trace := trace + [Prepared(output)];
    }

    method ExistsInCache(key: Option<string>) returns (found: bool)
      modifies this
      ensures found == InCache(old(State()), key)
      ensures State() == LookUp(old(State()), key)
    {
      found := key.Some? && key.value in entries;
      trace := trace + [LookedUp(key)];
    }

    method CopyFromCache(key: Option<string>, output: Path) returns (ok: bool)
      modifies this
      ensures Step(State(), ok) == CopyOut(old(State()), key, output)
    {
      ok := key.Some? && key.value in entries;
      if ok {
        files := files[output := entries[key.value]];
      }
      trace := trace + [CopiedOut(key, output)];
    }

    method Execute(command: Command) returns (ok: bool)
      modifies this
      ensures Step(State(), ok) == Run(old(State()), command)
    {
      ok := command.writes.Some?;
      if ok {
        files := files[command.target := command.writes.value];
      }
      trace := trace + [Executed(command)];
    }

    method CopyToCache(content: Path, key: string) returns (ok: bool)
      modifies this
      ensures Step(State(), ok) == CopyIn(old(State()), content, key)
    {
      ok := content in files;
      if ok {
        entries := entries[key := files[content]];
      }
      trace := trace + [CopiedIn(content, key)];
    }
  }
}
