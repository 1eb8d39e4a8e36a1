/**
 * The persistent thread-to-runtime registry (extensions/deer_flow/registry.py:18-103).
 * Every public call reloads the JSON file, so several registry objects on one
 * file answer as a single shared map.
 */
module RuntimeRegistry {
  import opened Basics

  type Mapping = map<string, string>

  /** The JSON file: missing, not parsable, or holding an object. */
  datatype FileState = Absent | Malformed | Json(entries: Mapping)

  /** What load() leaves in memory when the file can be read. */
  function Loaded(f: FileState): Mapping {
    if f.Json? then f.entries else map[]
  }

  /** thread_id or "" */
  function Key(tid: Option<string>): string {
    if tid.Some? then tid.value else ""
  }

  /** The runtime of a thread without an explicit mapping. */
  function Default(tid: Option<string>): string {
    if Key(tid) == "" then "agent" else Key(tid)
  }

  /** Explicit mapping, then the default for the empty key, then the thread id itself. */
  function Resolve(m: Mapping, tid: Option<string>): string {
    if Key(tid) in m then m[Key(tid)] else Default(tid)
  }

  function KeysFor(m: Mapping, runtime: string): set<string> {
    set k | k in m && m[k] == runtime
  }

  /** The file on disk; several registry objects may share it. */
  class RegistryFile {
    var state: FileState

    constructor (initial: FileState)
      ensures state == initial
    {
      state := initial;
    }
  }

  class ThreadRuntimeRegistry {
    const file: RegistryFile
    var cache: Mapping

    constructor (file: RegistryFile)
      ensures this.file == file && cache == map[]
    {
      this.file := file;
      cache := map[];
    }

    /** `readable` is false when reading the file raises OSError. */
    method Load(readable: bool)
      modifies this`cache
      ensures cache == if readable then Loaded(file.state) else map[]
    {
      if file.state.Absent? {
        cache := map[];
      } else if !readable || file.state.Malformed? {
        cache := map[];
      } else {
        cache := file.state.entries;
      }
    }

    method Save()
      modifies file
      ensures file.state == Json(cache)
    {
      file.state := Json(cache);
    }

    method Get(tid: Option<string>, readable: bool) returns (runtime: string)
      modifies this`cache
      ensures runtime == Serve(Loaded(file.state), Lookup(tid), readable).1
      ensures cache == if readable then Loaded(file.state) else map[]
    {
      var key := if tid.Some? then tid.value else "";
      Load(readable);
      if key in cache {
        return cache[key];
      }
      if key == "" {
        return "agent";
      }
      if tid.Some? && tid.value != "" {
        return tid.value;
      }
      return "agent";
    }

    method Set(tid: string, runtime: string, readable: bool)
      modifies this`cache, file
      ensures file.state == Json(cache)
      ensures cache == Serve(Loaded(old(file.state)), Assign(tid, runtime), readable).0
    {
      Load(readable);
      cache := cache[tid := runtime];
      Save();
    }

    method Remove(tid: string, readable: bool)
      modifies this`cache, file
      ensures file.state == Json(cache)
      ensures cache == Serve(Loaded(old(file.state)), Discard(tid), readable).0
    {
      Load(readable);
      cache := cache - {tid};
      Save();
    }
  }

  // --- One shared map -------------------------------------------------------

  datatype Request =
    | Lookup(tid: Option<string>)
    | Assign(key: string, runtime: string)
    | Discard(key: string)

  /** One map shared by everybody. A call whose read raises OSError works on an empty map. */
  function Serve(m: Mapping, req: Request, readable: bool): (r: (Mapping, string)) {
    var seen := if readable then m else map[];
    match req
    case Lookup(tid) => (m, Resolve(seen, tid))
    case Assign(k, v) => (seen[k := v], "")
    case Discard(k) => (seen - {k}, "")
  }

  datatype Call = Call(who: nat, req: Request, readable: bool)

  function ServeAll(m: Mapping, calls: seq<Call>): (r: (Mapping, seq<string>))
    decreases |calls|
  {
    if calls == [] then (m, [])
    else
      var (m1, answer) := Serve(m, calls[0].req, calls[0].readable);
      var (m2, answers) := ServeAll(m1, calls[1..]);
      (m2, [answer] + answers)
  }

  // --- Many objects on one file, each with its own in-memory copy -----------

  datatype Disk = Disk(file: FileState, caches: map<nat, Mapping>)

  /** load() by one object: its copy is replaced, nothing else moves. */
  function Reload(d: Disk, who: nat, readable: bool): Disk {
    d.(caches := d.caches[who := if d.file.Json? && readable then d.file.entries else map[]])
  }

  /** One call by one object: reload its copy, work on that copy, write it back. */
  function Perform(d: Disk, call: Call): (r: (Disk, string)) {
    var d1 := Reload(d, call.who, call.readable);
    var copy := d1.caches[call.who];
    match call.req
    case Lookup(tid) => (d1, Resolve(copy, tid))
    case Assign(k, v) =>
      var edited := copy[k := v];
      (Disk(Json(edited), d1.caches[call.who := edited]), "")
    case Discard(k) =>
      var edited := copy - {k};
      (Disk(Json(edited), d1.caches[call.who := edited]), "")
  }

  function PerformAll(d: Disk, calls: seq<Call>): (r: (Disk, seq<string>))
    decreases |calls|
  {
    if calls == [] then (d, [])
    else
      var (d1, answer) := Perform(d, calls[0]);
      var (d2, answers) := PerformAll(d1, calls[1..]);
      (d2, [answer] + answers)
  }

  /**
   * Any calls, by any objects, from any stale in-memory copies, in any order,
   * answer exactly as one shared map, and the file holds that map at the end.
   */
  lemma {:induction false} ObjectsShareOneMap(d: Disk, calls: seq<Call>)
    ensures PerformAll(d, calls).1 == ServeAll(Loaded(d.file), calls).1
    ensures Loaded(PerformAll(d, calls).0.file) == ServeAll(Loaded(d.file), calls).0
    decreases |calls|
  {
    if calls != [] {
      ObjectsShareOneMap(Perform(d, calls[0]).0, calls[1..]);
    }
  }

  /** Two worlds that differ only in the in-memory copies cannot be told apart. */
  lemma StaleCopiesAreInvisible(file: FileState, a: map<nat, Mapping>, b: map<nat, Mapping>, calls: seq<Call>)
    ensures PerformAll(Disk(file, a), calls).1 == PerformAll(Disk(file, b), calls).1
  {
    ObjectsShareOneMap(Disk(file, a), calls);
    ObjectsShareOneMap(Disk(file, b), calls);
  }

  // --- The last word on a thread --------------------------------------------

  predicate Silent(calls: seq<Call>, k: string) {
    forall i | 0 <= i < |calls| :: !calls[i].req.Lookup? ==> calls[i].req.key != k
  }

  lemma {:induction false} SilenceKeeps(m: Mapping, calls: seq<Call>, k: string)
    requires Silent(calls, k) && forall i | 0 <= i < |calls| :: calls[i].readable
    ensures var n := ServeAll(m, calls).0; (k in n <==> k in m) && (k in m ==> n[k] == m[k])
    decreases |calls|
  {
    if calls != [] {
      SilenceKeeps(Serve(m, calls[0].req, true).0, calls[1..], k);
    }
  }

  lemma {:induction false} LastWriteStands(m: Mapping, calls: seq<Call>, i: nat)
    requires i < |calls| && !calls[i].req.Lookup? && Silent(calls[i + 1..], calls[i].req.key)
    requires forall j | 0 <= j < |calls| :: calls[j].readable
    ensures var n := ServeAll(m, calls).0;
      match calls[i].req
      case Assign(k, v) => k in n && n[k] == v
      case Discard(k) => k !in n
    decreases |calls|
  {
    var m1 := Serve(m, calls[0].req, true).0;
    if i == 0 {
      SilenceKeeps(m1, calls[1..], calls[0].req.key);
    } else {
      assert calls[1..][i - 1..] == calls[i..] && calls[1..][i..] == calls[i + 1..];
      LastWriteStands(m1, calls[1..], i - 1);
    }
  }

  /** "agent" for no thread or the empty id, otherwise the thread's own id. */
  ghost predicate IsDefault(tid: Option<string>, runtime: string) {
    if tid.Some? && tid.value != "" then runtime == tid.value else runtime == "agent"
  }

  /**
   * After any readable calls by any objects on a new file, a thread runs where the last call
   * that wrote about it said, and at its default if that was a removal or there was none.
   */
  lemma LastWordIsAnswered(d: Disk, calls: seq<Call>, who: nat, tid: Option<string>, k: string)
    requires !d.file.Json? && forall j | 0 <= j < |calls| :: calls[j].readable
    requires k == match tid case Some(t) => t case None => ""
    ensures var answer := Perform(PerformAll(d, calls).0, Call(who, Lookup(tid), true)).1;
      && (Silent(calls, k) ==> IsDefault(tid, answer))
      && forall i | 0 <= i < |calls| && Silent(calls[i + 1..], k) ::
           match calls[i].req
           case Assign(key, v) => key == k ==> answer == v
           case Discard(key) => key == k ==> IsDefault(tid, answer)
           case Lookup(_) => true
  {
    ObjectsShareOneMap(d, calls);
    if Silent(calls, k) {
      SilenceKeeps(map[], calls, k);
    }
    forall i | 0 <= i < |calls| && Silent(calls[i + 1..], k) && !calls[i].req.Lookup? && calls[i].req.key == k
      ensures match calls[i].req case Assign(_, v) => k in ServeAll(map[], calls).0 && ServeAll(map[], calls).0[k] == v
                                 case _ => k !in ServeAll(map[], calls).0
    {
      LastWriteStands(map[], calls, i);
    }
  }

  /** Every thread but the one written about keeps its runtime. */
  ghost predicate KeepsOthers(m: Mapping, req: Request, readable: bool)
    requires !req.Lookup?
  {
    forall t: Option<string> | Key(t) != req.key :: Resolve(Serve(m, req, readable).0, t) == Resolve(m, t)
  }

  /**
   * A set() or remove() whose reload raised OSError starts from an empty map and then
   * saves it. So a write keeps every other thread's runtime exactly when its reload
   * succeeded or no other thread had an explicit mapping away from its default.
   */
  lemma WriteKeepsOthersIff(m: Mapping, req: Request, readable: bool)
    requires !req.Lookup?
    ensures KeepsOthers(m, req, readable) <==> readable || forall k | k in m && k != req.key :: m[k] == Default(Some(k))
  {
    if KeepsOthers(m, req, readable) && !readable {
      forall k | k in m && k != req.key
        ensures m[k] == Default(Some(k))
      {
        assert Key(Some(k)) == k;
        assert Resolve(Serve(m, req, readable).0, Some(k)) == Resolve(m, Some(k));
      }
    }
  }

  /** So one unreadable moment can move a thread: here "a" loses its runtime when "b" is recorded or removed. */
  lemma UnreadableWriteLosesMapping(req: Request)
    requires req == Assign("b", "vm2") || req == Discard("b")
    ensures Resolve(map["a" := "vm"], Some("a")) == "vm"
    ensures Resolve(Serve(map["a" := "vm"], req, false).0, Some("a")) == "a"
  {
    assert Key(Some("a")) == "a" && "a" != "b" && "a" != "";
  }
}
