/**
 * The host's global state and its control flow (src/platform.c:23-38,
 * 339-349, 363-533, 535-613): the two arenas are created, the working
 * directory is set from the executable's path, the game code is loaded, and
 * the main loop runs until a close message arrives. Window and OpenGL setup,
 * message delivery and the OS calls are not executed: their outcomes are
 * parameters.
 */
module Host {
  import opened Common
  import BumpSpec
  import opened Arena
  import opened ExePath
  import opened Letterbox
  import opened GameCodeLoader

  /** The window message asking the window to close. */
  const WM_CLOSE: uint32 := 0x0010

  /** The capacity of each arena, 1 << 20 bytes. */
  const ArenaCapacity: uint32 := 0x10_0000

  /** The capacity of the executable-path buffer, 1 << 15 wide characters. */
  const PathCap: nat := 0x8000

  /** The bytes pushed for the path buffer: its capacity plus a terminator, two bytes each. */
  const PathBufferBytes: uint64 := (PathCap + 1) * 2

  /** What the OS reports during Setup; the window and OpenGL setup is one outcome. */
  datatype SetupOutcomes = SetupOutcomes(
    platformReserved: bool,
    frameReserved: bool,
    moduleFileName: seq<wchar>,
    setDirectoryOk: bool,
    windowAndGlOk: bool,
    game: LoadOutcomes)

  /** Every step of Setup succeeds: both arenas, the path, the directory, the window and OpenGL, the game code. */
  predicate SetupSucceeds(os: SetupOutcomes)
  {
    && os.platformReserved && os.frameReserved
    && |os.moduleFileName| < PathCap && os.setDirectoryOk
    && os.windowAndGlOk && Succeeds(os.game)
  }

  /** One iteration of the main loop: the messages waiting for it and the client area size. */
  datatype FrameInput = FrameInput(messages: seq<uint32>, clientWidth: uint32, clientHeight: uint32)

  /**
   * How many iterations the main loop runs over the given inputs: up to and
   * including the first whose messages hold a close request, or all of them.
   */
  function IterationsRun(frames: seq<FrameInput>): (n: nat)
    ensures n <= |frames|
    ensures forall k :: 0 <= k < n - 1 ==> WM_CLOSE !in frames[k].messages
    ensures ClosedBy(frames) ==> 0 < n && WM_CLOSE in frames[n - 1].messages
    ensures !ClosedBy(frames) ==> n == |frames|
  {
    if frames == [] then 0
    else if WM_CLOSE in frames[0].messages then 1
    else 1 + IterationsRun(frames[1..])
  }

  /** Some input asks the window to close. */
  ghost predicate ClosedBy(frames: seq<FrameInput>)
  {
    exists k :: 0 <= k < |frames| && WM_CLOSE in frames[k].messages
  }

  /** The iteration count is determined by where the first close request is. */
  lemma {:induction false} IterationsRunIsFirstClose(frames: seq<FrameInput>, n: nat)
    requires n <= |frames|
    requires forall k :: 0 <= k < n - 1 ==> WM_CLOSE !in frames[k].messages
    requires (0 < n && WM_CLOSE in frames[n - 1].messages) || (n == |frames| && !ClosedBy(frames))
    ensures IterationsRun(frames) == n
    decreases n
  {
    if n > 0 && WM_CLOSE !in frames[0].messages {
      var rest := frames[1..];
      if ClosedBy(rest) {
        var k :| 0 <= k < |rest| && WM_CLOSE in rest[k].messages;
        assert WM_CLOSE in frames[k + 1].messages;
      }
      IterationsRunIsFirstClose(rest, n - 1);
    }
  }

  /** The contents of GetModuleFileNameW's buffer of PathCap characters, and the length it returns. */
  method GetModuleFileName(path: array<wchar>, fileName: seq<wchar>) returns (len: nat)
    requires path.Length == PathCap + 1
    modifies path
    ensures len == if |fileName| < PathCap then |fileName| else PathCap
    ensures |fileName| < PathCap ==> path[..len] == fileName && path[len] == Terminator
  {
    if |fileName| < PathCap {
      len := |fileName|;
    } else {
      // The name is cut to fit, terminator included, and the length reported is the capacity.
      len := PathCap;
    }
    var copied := if |fileName| < PathCap then |fileName| else PathCap - 1;
    forall i | 0 <= i < copied {
      path[i] := fileName[i];
    }
    path[copied] := Terminator;
  }

  class Globals {
    var platformBump: Bump
    var frameBump: Bump
    var gameCode: GameCode
    var running: bool

    /** The zero-initialised globals. */
    constructor ()
      ensures fresh(platformBump) && fresh(frameBump) && fresh(gameCode)
      ensures platformBump != frameBump && !running
      ensures platformBump.Valid() && platformBump.Model() == BumpSpec.State(0, 0, 0)
      ensures frameBump.Valid() && frameBump.Model() == BumpSpec.State(0, 0, 0)
      ensures gameCode.moduleHandle == NullHandle
    {
      platformBump := new Bump();
      frameBump := new Bump();
      gameCode := new GameCode();
      running := false;
    }

    /** WndProc: a close request clears `running` and is answered with 0; every other message goes to the default handling. */
    method WndProc(msgCode: uint32, defaultResult: int) returns (result: int)
      modifies this`running
      ensures msgCode == WM_CLOSE ==> !running && result == 0
      ensures msgCode != WM_CLOSE ==> running == old(running) && result == defaultResult
    {
      if msgCode == WM_CLOSE {
        running := false;
        return 0;
      }
      return defaultResult;
    }

    /** The arena creation in Setup: the frame arena is created only when the platform arena was. */
    method CreateArenas(platformReserved: bool, frameReserved: bool) returns (ok: bool)
      requires platformBump != frameBump
      modifies platformBump, frameBump
      ensures ok <==> platformReserved && frameReserved
      ensures platformBump.Valid() && platformBump.Model() == BumpSpec.Create(ArenaCapacity)
      ensures platformReserved ==> frameBump.Valid() && frameBump.Model() == BumpSpec.Create(ArenaCapacity)
      ensures !platformReserved ==> unchanged(frameBump)
    {
      ok := platformBump.Create(ArenaCapacity, platformReserved);
      if ok {
        ok := frameBump.Create(ArenaCapacity, frameReserved);
      }
    }

    /**
     * The working-directory block of Setup. A buffer for the path is pushed on
     * the platform arena, filled with the executable's path and cut back to its
     * directory; the arena is popped back to its mark only when the directory
     * was set. `dir` is the directory passed to the OS (None when the path
     * filled the buffer and no directory was passed).
     */
    method SetWorkingDirectory(moduleFileName: seq<wchar>, setDirectoryOk: bool) returns (ok: bool, dir: Option<seq<wchar>>)
      requires platformBump.Valid()
      requires platformBump.cursor as int + PathBufferBytes <= platformBump.capacity
      requires Terminator !in moduleFileName
      modifies platformBump`cursor, platformBump`highWatermark
      ensures platformBump.Valid()
      ensures dir == if |moduleFileName| < PathCap then Some(Directory(moduleFileName)) else None
      ensures ok <==> |moduleFileName| < PathCap && setDirectoryOk
      ensures ok ==> platformBump.cursor == old(platformBump.cursor)
      ensures !ok ==> platformBump.cursor == old(platformBump.cursor) + PathBufferBytes
      ensures platformBump.highWatermark == Max(old(platformBump.highWatermark), old(platformBump.cursor) + PathBufferBytes)
    {
      var mark := platformBump.GetMark();
      var offset := platformBump.Push(PathBufferBytes, 1);
      var path := new wchar[PathCap + 1];
      var pathLen := GetModuleFileName(path, moduleFileName);
      if pathLen == PathCap {
        return false, None;
      }
      ghost var written := path[..];
      assert written[..pathLen] == moduleFileName;
      TrimToDirectory(path, pathLen);
      TrimmedIsDirectory(written, pathLen);
      dir := Some(path[..CStringLength(path[..])]);
      if !setDirectoryOk {
        return false, dir;
      }
      platformBump.PopToMark(mark);
      ok := true;
    }

    /**
     * The main loop. Each iteration first delivers the waiting messages to
     * WndProc, then does its screen work; a close request ends the loop after
     * the iteration that received it. The loop also ends when the inputs run out.
     */
    method RunLoop(frames: seq<FrameInput>) returns (actions: seq<FrameAction>)
      modifies this`running
      ensures |actions| == IterationsRun(frames)
      ensures forall k :: 0 <= k < |actions| ==> actions[k] == Frame(frames[k].clientWidth, frames[k].clientHeight)
      ensures running <==> !ClosedBy(frames)
    {
      running := true;
      actions := [];
      var i := 0;
      while running && i < |frames|
        invariant 0 <= i <= |frames| && |actions| == i
        invariant forall k :: 0 <= k < i ==> actions[k] == Frame(frames[k].clientWidth, frames[k].clientHeight)
        invariant running ==> forall k :: 0 <= k < i ==> WM_CLOSE !in frames[k].messages
        invariant !running ==> 0 < i && WM_CLOSE in frames[i - 1].messages
        invariant forall k :: 0 <= k < i - 1 ==> WM_CLOSE !in frames[k].messages
        decreases |frames| - i
      {
        var messages := frames[i].messages;
        var j := 0;
        while j < |messages|
          invariant 0 <= j <= |messages|
          invariant running <==> WM_CLOSE !in messages[..j]
          decreases |messages| - j
        {
          var _ := WndProc(messages[j], 0);
          assert messages[..j + 1] == messages[..j] + [messages[j]];
          j := j + 1;
        }
        assert messages[..j] == messages;
        actions := actions + [Frame(frames[i].clientWidth, frames[i].clientHeight)];
        i := i + 1;
      }
      if running {
        assert !ClosedBy(frames);
      }
      IterationsRunIsFirstClose(frames, i);
    }

    /**
     * Setup: the arenas, then the working directory, then the window and
     * OpenGL (one outcome here), then the game code; the first failure ends it.
     * On success the platform arena is back at its start, with the path
     * buffer's size as its high-water mark, and the game code is loaded.
     */
    method Setup(os: SetupOutcomes) returns (ok: bool)
      requires platformBump != frameBump
      requires Terminator !in os.moduleFileName
      modifies platformBump, frameBump, gameCode
      ensures ok <==> SetupSucceeds(os)
      ensures ok ==> platformBump.Valid() && platformBump.Model() == BumpSpec.State(0, ArenaCapacity, PathBufferBytes)
      ensures ok ==> frameBump.Valid() && frameBump.Model() == BumpSpec.Create(ArenaCapacity)
      ensures ok ==> gameCode.moduleHandle == os.game.loaded && gameCode.tickFunc == os.game.tick
    {
      ok := CreateArenas(os.platformReserved, os.frameReserved);
      if !ok {
        return;
      }
      var dir;
      ok, dir := SetWorkingDirectory(os.moduleFileName, os.setDirectoryOk);
      if !ok {
        return;
      }
      if !os.windowAndGlOk {
        return false;
      }
      var calls;
      ok, calls := gameCode.Load(os.game);
    }

    /**
     * wWinMain: exit code 1 when Setup fails; otherwise `running` is set and
     * the main loop runs, and the exit code is 0.
     */
    method Run(os: SetupOutcomes, frames: seq<FrameInput>) returns (exitCode: int, actions: seq<FrameAction>)
      requires platformBump != frameBump
      requires Terminator !in os.moduleFileName
      modifies this, platformBump, frameBump, gameCode
      ensures exitCode == (if SetupSucceeds(os) then 0 else 1)
      ensures exitCode == 1 ==> actions == []
      ensures exitCode == 0 ==> |actions| == IterationsRun(frames)
      ensures exitCode == 0 ==> forall k :: 0 <= k < |actions| ==> actions[k] == Frame(frames[k].clientWidth, frames[k].clientHeight)
    {
      var ok := Setup(os);
      if !ok {
        return 1, [];
      }
      actions := RunLoop(frames);
      exitCode := 0;
    }
  }
}
