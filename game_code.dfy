/**
 * LoadGameCode (src/platform.c:298-337): the game module is copied to a
 * second file name, loaded from the copy, and its `Tick` entry point looked
 * up. Any module held from before is released first and the record
 * zeroed, so a failed load leaves no game code at all. The OS calls are not executed:
 * their outcomes are parameters, and the calls made are returned as a trace.
 */
module GameCodeLoader {
  import opened Common

  /** A module handle; 0 is the null handle. */
  type Handle = nat
  const NullHandle: Handle := 0

  const GameDll: string := "azur_game.dll"
  const LoadedDll: string := "azur_game_loaded.dll"
  const TickSymbol: string := "Tick"

  /** One OS call, with the arguments it was made with (and, for a load, the handle it gave back). */
  datatype OsCall =
    | FreeLibrary(library: Handle)
    | CopyFile(from: string, to: string)
    | LoadLibrary(path: string, result: Handle)
    | GetProcAddress(inModule: Handle, symbol: string)
    | GetFileAttributes(path: string)

  /**
   * What the OS answers, for each call LoadGameCode may make: whether the copy
   * succeeded, the handle the load returns, the address the lookup returns and
   * the last-write time the attribute query reports (None when it fails).
   */
  datatype LoadOutcomes = LoadOutcomes(copied: bool, loaded: Handle, tick: Proc, lastWriteTime: Option<uint64>)

  /** The modules held after a trace of calls, starting from `held`. */
  function Held(held: set<Handle>, calls: seq<OsCall>): set<Handle>
    decreases |calls|
  {
    if calls == [] then held else Held(AfterCall(held, calls[0]), calls[1..])
  }

  /** The modules held after one call: a release drops its module, a successful load adds one. */
  function AfterCall(held: set<Handle>, c: OsCall): set<Handle>
  {
    match c
    case FreeLibrary(m) => held - {m}
    case LoadLibrary(_, r) => if r != NullHandle then held + {r} else held
    case _ => held
  }

  /** The modules a record holds: its module, unless that is null. */
  function HeldBy(moduleHandle: Handle): set<Handle>
  {
    if moduleHandle != NullHandle then {moduleHandle} else {}
  }

  /** Every load in the trace reads the copy, and comes after a copy from the original to it. */
  predicate LoadsOnlyTheCopy(calls: seq<OsCall>)
  {
    forall i :: 0 <= i < |calls| && calls[i].LoadLibrary? ==>
      calls[i].path == LoadedDll && CopyFile(GameDll, LoadedDll) in calls[..i]
  }

  /** The copy, the load and the lookup all succeed. */
  predicate Succeeds(os: LoadOutcomes)
  {
    os.copied && os.loaded != NullHandle && os.tick != NullProc
  }

  /** The release of the record's old module, made only when it holds one. */
  function Release(oldModule: Handle): (calls: seq<OsCall>)
  {
    if oldModule != NullHandle then [FreeLibrary(oldModule)] else []
  }

  /**
   * The calls LoadGameCode makes, as a table over the outcomes: release the
   * old module; copy; if the copy succeeded, load the copy; if that gave a
   * module, look up `Tick`; then either query the original's attributes (the
   * lookup succeeded) or release the new module (it did not). A module the
   * record held is released first, and only then; the original's attributes
   * are queried exactly when the load succeeded; `Tick` is looked up only in
   * the module just loaded.
   */
  function Protocol(oldModule: Handle, os: LoadOutcomes): (calls: seq<OsCall>)
    ensures |calls| > 0 && (oldModule != NullHandle <==> calls[0] == FreeLibrary(oldModule))
    ensures GetFileAttributes(GameDll) in calls <==> Succeeds(os)
    ensures forall c :: c in calls && c.GetFileAttributes? ==> c.path == GameDll
    ensures forall c :: c in calls && c.GetProcAddress? ==>
      c == GetProcAddress(os.loaded, TickSymbol) && os.loaded != NullHandle
  {
    Release(oldModule) + [CopyFile(GameDll, LoadedDll)] +
    if !os.copied then []
    else if os.loaded == NullHandle then [LoadLibrary(LoadedDll, os.loaded)]
    else if os.tick == NullProc then
      [LoadLibrary(LoadedDll, os.loaded), GetProcAddress(os.loaded, TickSymbol), FreeLibrary(os.loaded)]
    else
      [LoadLibrary(LoadedDll, os.loaded), GetProcAddress(os.loaded, TickSymbol), GetFileAttributes(GameDll)]
  }

  /** The module loaded is always the copy, and the copy is made before it is loaded. */
  lemma LoadsCopyAfterCopying(oldModule: Handle, os: LoadOutcomes)
    ensures LoadsOnlyTheCopy(Protocol(oldModule, os))
    ensures (exists c :: c in Protocol(oldModule, os) && c.LoadLibrary?) <==> os.copied
  {
    var calls := Protocol(oldModule, os);
    var r := |Release(oldModule)|;
    assert calls[r] == CopyFile(GameDll, LoadedDll);
    forall i | 0 <= i < |calls| && calls[i].LoadLibrary?
      ensures calls[i].path == LoadedDll && CopyFile(GameDll, LoadedDll) in calls[..i]
    {
      assert i == r + 1;
      assert calls[..i][r] == CopyFile(GameDll, LoadedDll);
    }
    if os.copied {
      assert calls[r + 1].LoadLibrary?;
    }
  }

  /**
   * No module leaks: starting from the old module, the modules held after the
   * calls are the new one on success and none on failure.
   */
  lemma {:induction false} HoldsOnlyNewModule(oldModule: Handle, os: LoadOutcomes)
    ensures Held(HeldBy(oldModule), Protocol(oldModule, os)) ==
      if Succeeds(os) then {os.loaded} else {}
  {
    var calls := Protocol(oldModule, os);
    var rest := calls[|Release(oldModule)|..];
    if oldModule != NullHandle {
      assert calls[0] == FreeLibrary(oldModule) && calls[1..] == rest;
      assert AfterCall(HeldBy(oldModule), calls[0]) == {};
    }
    assert Held(HeldBy(oldModule), calls) == Held({}, rest);
    var tail := rest[1..];
    assert rest[0] == CopyFile(GameDll, LoadedDll);
    assert Held({}, rest) == Held({}, tail);
    if os.copied {
      var loaded := HeldBy(os.loaded);
      assert tail[0] == LoadLibrary(LoadedDll, os.loaded);
      assert AfterCall({}, tail[0]) == loaded;
      assert Held({}, tail) == Held(loaded, tail[1..]);
      if os.loaded != NullHandle {
        var last := tail[2..];
        assert tail[1..][1..] == last;
        assert Held(loaded, tail[1..]) == Held(loaded, last);
        assert Held(loaded, last) == Held(AfterCall(loaded, last[0]), []);
      }
    }
  }

  class GameCode {
    var moduleHandle: Handle
    var tickFunc: Proc
    /** The FILETIME of the original module, as one 64-bit count. */
    var timestamp: uint64

    /** The zero-initialised global record. */
    constructor ()
      ensures moduleHandle == NullHandle && tickFunc == NullProc && timestamp == 0
    {
      moduleHandle, tickFunc, timestamp := NullHandle, NullProc, 0;
    }

    /**
     * LoadGameCode. The old module is released first; the new one is kept
     * only when the copy, the load and the lookup all succeed, and released
     * otherwise. The calls made are those of Protocol, whose properties are
     * the lemmas above.
     */
    method Load(os: LoadOutcomes) returns (succeeded: bool, calls: seq<OsCall>)
      modifies this
      ensures calls == Protocol(old(moduleHandle), os)
      ensures succeeded <==> Succeeds(os)
      ensures succeeded ==> moduleHandle == os.loaded && tickFunc == os.tick
      ensures succeeded ==> timestamp == (if os.lastWriteTime.Some? then os.lastWriteTime.value else 0)
      ensures !succeeded ==> moduleHandle == NullHandle && tickFunc == NullProc && timestamp == 0
    {
      succeeded := false;
      calls := [];
      if moduleHandle != NullHandle {
        calls := calls + [FreeLibrary(moduleHandle)];
      }
      moduleHandle, tickFunc, timestamp := NullHandle, NullProc, 0;

      calls := calls + [CopyFile(GameDll, LoadedDll)];
      if os.copied {
        var loaded := os.loaded;
        calls := calls + [LoadLibrary(LoadedDll, loaded)];
        if loaded != NullHandle {
          calls := calls + [GetProcAddress(loaded, TickSymbol)];
          var tick := os.tick;
          if tick != NullProc {
            moduleHandle, tickFunc, timestamp := loaded, tick, 0;
            calls := calls + [GetFileAttributes(GameDll)];
            if os.lastWriteTime.Some? {
              timestamp := os.lastWriteTime.value;
            }
            succeeded := true;
          }
        }
        if !succeeded && loaded != NullHandle {
          calls := calls + [FreeLibrary(loaded)];
        }
      }
    }
  }
}
