# azur host core, modelled in Dafny

azur is a small Windows game host written in C. It reserves two arenas (bump allocators).
It sets the working directory to the executable's folder and opens an OpenGL window, after
checking the driver's WGL extension list. It loads the game code from a copied DLL and runs
a frame loop. Each frame draws into a centred 16:9 viewport, until the window is closed.

This project models the logic inside that host:

- `bits.dfy` (module `Bits`): bitwise AND on naturals, and the two bit tricks the arena uses.
  These are the power-of-two test `(n - 1) & n == 0` and the alignment mask
  `x & (u64)-(s64)a`.
- `common.dfy` (module `Common`): the fixed-width integer types, the length-prefixed `String`
  and `String_Equal`.
- `bump_spec.dfy` (module `BumpSpec`): the arena as values. Each operation maps a
  `(cursor, capacity, high-water mark)` state to its successor, and a failed `ASSERT` is `None`.
  Lemmas about sequences of calls sit here.
- `bump.dfy` (module `Arena`): the `Bump` record as a class whose methods update its fields in
  place. Each method is tied to `BumpSpec` through `Model()`. The `ASSERT`s are the methods'
  preconditions: a violation crashes the process on purpose.
- `wgl_extensions.dfy` (module `WglExtensions`): the extension-string scan in
  `LoadWGLFunctions`. It holds the loop as written (see Findings) and the scan with the
  terminator respected.
- `exe_path.dfy` (module `ExePath`): cutting the executable path back to its directory.
- `letterbox.dfy` (module `Letterbox`): the per-frame viewport arithmetic.
- `game_code.dfy` (module `GameCodeLoader`): `LoadGameCode` as a state change of the
  `Game_Code` record. It also returns the trace of OS calls it makes.
- `host.dfy` (module `Host`): the globals, `WndProc`, the steps of `Setup` and the main loop.

The OS calls are not executed. Their outcomes are parameters: the reservation result, the
module file name, the copy, load and lookup results, the window messages and the client size.

The model follows the code in four places where the design intends something the code does
not do:
- `LoadGameCode` releases the old module and zeroes the record before it tries the new one, so a
  failed load leaves no game code.
- The code has no reload when the DLL's timestamp changes, although the design intends one, and
  no step that keeps the old module when a load fails.
- The frame loop neither clears the frame arena nor calls the game's `Tick`.
- A close request ends the loop only after the rest of the current iteration, rendering
  included.

## Model

| member | source | states |
|---|---|---|
| Bits.PowerOfTwoTest | src/common.h:84 | `n > 0 && (n - 1) & n == 0` holds exactly when n is a power of two |
| Bits.NegatedPowerOfTwoMask | src/common.h:86 | for a power of two a and a w-bit x, `x & (2^w - a)` is x with its bits below a cleared, `x - x % a` |
| Common.StringEqual | src/common.h:52-66 | true iff the lengths agree and every byte below the length agrees, that is, the two denoted byte strings are equal |
| BumpSpec.Create | src/platform.c:40-53 | the created state has cursor 0, high-water mark 0 and the requested capacity, and satisfies the invariant |
| BumpSpec.RoundUpIsLeastMultiple | src/common.h:86 | the rounded-up cursor is a multiple of the alignment, lies in `[cursor, cursor + alignment)`, and is the least such multiple |
| BumpSpec.AlignCursor | src/common.h:86 | the masked sum `(cursor + alignment - 1) & -alignment` equals the least multiple of the alignment at or above the cursor |
| BumpSpec.Push | src/common.h:81-94 | succeeds iff the alignment is a power of two and the aligned block fits in the capacity; the offset is the rounded-up cursor; the new cursor is offset + size; the capacity is unchanged; the high-water mark becomes the larger of the old mark and the new cursor; the invariant is preserved |
| BumpSpec.Pop | src/common.h:96-101 | succeeds iff size <= cursor; the cursor drops by exactly size; capacity and high-water mark are unchanged; the invariant is preserved |
| BumpSpec.GetMark | src/common.h:103-107 | the mark is the current cursor: popping back to it at once is allowed and leaves the state unchanged |
| BumpSpec.PopToMark | src/common.h:109-114 | succeeds iff mark <= cursor; only the cursor changes, and it becomes the mark |
| BumpSpec.Clear | src/platform.c:62-66 | cursor 0; capacity and high-water mark unchanged; the invariant is preserved |
| BumpSpec.RunKeepsInvariant | src/common.h:71-114 | after any sequence of calls none of which traps, cursor <= high-water mark <= capacity still holds, the capacity is the same and the high-water mark has not decreased |
| BumpSpec.PushesOnlyAdvance | src/common.h:81-94 | successful pushes never move the cursor back or lower the high-water mark |
| BumpSpec.MarkRestoresCursor | src/common.h:103-114 | GetMark, any successful pushes, then PopToMark: the pop is allowed and restores the cursor and capacity, and the high-water mark keeps what the pushes reached |
| BumpSpec.PushPopStackRestores | src/common.h:81-101 | successful pushes with alignment 1, then pops of the same sizes in reverse order, give back the starting cursor |
| BumpSpec.PushThenPopRestores | src/common.h:86-100 | with alignment 1, a push then a pop of the same size restore the cursor exactly |
| BumpSpec.PopDoesNotUndoPadding | src/common.h:86-100 | with alignment 2, a one-byte push at cursor 1 lands at offset 2, and popping one byte leaves the cursor at 2, not 1 |
| BumpSpec.PushBeyondCapacityTraps | src/common.h:88 | a request larger than the room left after the cursor always traps, whatever the alignment |
| BumpSpec.ClearThenPushIsFirstPush | src/platform.c:62-66 | after Clear a push has the same outcome as the first push on a fresh arena of that capacity, and its block starts at offset 0 |
| Arena.Bump.constructor | src/platform.c:23-38 | a zeroed record: no memory, cursor, capacity and high-water mark all 0 |
| Arena.Bump.Create | src/platform.c:40-53 | the whole record is overwritten with the state `BumpSpec.Create` gives; the memory is fresh exactly when the reservation succeeded; the result says whether the memory pointer is non-null |
| Arena.Bump.Destroy | src/platform.c:55-60 | the memory is released and the whole record zeroed |
| Arena.Bump.Clear | src/platform.c:62-66 | only the cursor changes, to `BumpSpec.Clear` of the old state |
| Arena.Bump.Push | src/common.h:81-94 | under the two ASSERTs, the new state and the offset are those of `BumpSpec.Push`; the block is aligned, starts less than one alignment past the old cursor, and lies inside the memory |
| Arena.Bump.Pop | src/common.h:96-101 | under the ASSERT, the cursor drops by exactly size, as `BumpSpec.Pop` says; nothing else changes |
| Arena.Bump.GetMark | src/common.h:103-107 | the mark is the cursor, is within the capacity, and PopToMark back to it is always allowed and changes nothing |
| Arena.Bump.PopToMark | src/common.h:109-114 | under the ASSERT, the cursor becomes the mark, as `BumpSpec.PopToMark` says; nothing else changes |
| WglExtensions.SkipSpaces | src/platform.c:142 | the first index at or after p that is not a space; every byte skipped is a space |
| WglExtensions.WordEnd | src/platform.c:145 | the first index at or after p holding the terminator or a space; every byte passed is neither |
| WglExtensions.NextScanAsWritten | src/platform.c:140-145 | as written, each iteration moves `scan` forward, possibly one past the terminator |
| WglExtensions.OverrunsAsWritten | src/platform.c:140-145 | whether the loop as written, entered at an index, ever tests the byte after the terminator; characterised by `OverrunsAsWrittenIff` |
| WglExtensions.AsWrittenStepAgrees | src/platform.c:140-145 | wherever the loop as written stays inside the string, its step equals the corrected step: past the word and its space, or onto the terminator |
| WglExtensions.OverrunsAsWrittenIff | src/platform.c:140-145 | the loop as written reads past the terminator exactly when the string is non-empty and does not end in a word followed by exactly one space |
| WglExtensions.OverrunWithoutTrailingSpace | src/platform.c:140-145 | the string "WGL_ARB_pixel_format WGL_EXT_swap_control", without a trailing space, makes the loop as written read past its end |
| WglExtensions.NamesDistinct | src/platform.c:149-160 | the three names are non-empty and pairwise different, so a word matches at most one of them |
| WglExtensions.OnlyWordInSegment | src/platform.c:140-147 | between the start of an iteration and the end of the word it finds, the only whole word is that word |
| WglExtensions.WordsBeforeStep | src/platform.c:140-147 | the words starting before the next iteration are those starting before this one, plus the word this iteration found |
| WglExtensions.SlotStep | src/platform.c:149-160 | across one iteration, a slot holds its address exactly when its name is a word starting before the next iteration |
| WglExtensions.NextWord | src/platform.c:142-145 | the two inner loops stop at `SkipSpaces` and then at `WordEnd` |
| WglExtensions.Fill | src/platform.c:149-160 | the slot whose name the word equals is set to its looked-up address; the other two slots are unchanged |
| WglExtensions.FillStep | src/platform.c:140-161 | after one iteration, each of the three slots holds its address exactly when its name is a word starting before the next iteration |
| WglExtensions.MatchName | src/platform.c:149-160 | the chain of `String_Equal` tests reports exactly which of the three names the word equals (`Classify`), or none; since the names differ, the order of the tests does not matter |
| WglExtensions.ScanWord | src/platform.c:140-161 | one iteration keeps "each slot holds its address iff its name is a word before `scan`" and moves `scan` forward without passing the terminator |
| WglExtensions.ScanExtensions | src/platform.c:137-167 | each slot holds its looked-up address iff its extension's name is a whole space-separated word of the string, and null otherwise; success iff no slot is null |
| ExePath.LastSeparator | src/platform.c:389-396 | the index the backward scan stops at: the largest i with `1 <= i < len` holding `/` or `\`, or none; index 0 is never a result |
| ExePath.TrimToDirectory | src/platform.c:389-396 | the buffer afterwards has a terminator right after the last separator at index 1 or above, and is otherwise unchanged |
| ExePath.CStringLength | src/platform.c:398 | the length of the NUL-terminated string the OS reads: no terminator before it, a terminator at it |
| ExePath.Trimmed | src/platform.c:389-396 | the buffer after the backward scan: when an index from 1 to len - 1 holds a separator, the slot right after the last such index becomes a terminator; otherwise the buffer is unchanged |
| ExePath.Directory | src/platform.c:389-398 | a prefix of the path; when the path holds a separator at index 1 or above, the prefix runs exactly through the last one; otherwise it is the whole path |
| ExePath.TrimmedIsDirectory | src/platform.c:389-398 | read as a NUL-terminated string, the trimmed buffer is the directory of the path it held |
| Letterbox.ToInt32 | src/platform.c:573 | the GLint conversion: congruent to the value modulo 2^32, and the identity on non-negative values that fit |
| Letterbox.HalfTowardZero | src/platform.c:573 | C's signed division by 2, rounding toward zero |
| Letterbox.Cells | src/platform.c:569-571 | `min(w / 16, h / 9)` cells fit in both directions, and one more does not |
| Letterbox.Frame | src/platform.c:556-573 | sleeps 16 ms iff width or height is 0; otherwise the viewport is 16:9, non-negative, fits inside the client area, is centred (to within one pixel, rounding down), and no larger whole-cell 16:9 rectangle fits |
| GameCodeLoader.Protocol | src/platform.c:302-337 | the calls LoadGameCode makes for given outcomes: the old module is released first, and only if there is one; the original's attributes are queried iff the load succeeded; `Tick` is looked up only in the module just loaded |
| GameCodeLoader.LoadsCopyAfterCopying | src/platform.c:310-312 | every load reads the copy, only after the copy from the original to it; a load happens iff the copy succeeded |
| GameCodeLoader.HoldsOnlyNewModule | src/platform.c:307-333 | no module leaks: starting from the old module, the modules held after the calls are the new one on success and none on failure |
| GameCodeLoader.GameCode.constructor | src/platform.c:23-38 | the zeroed record |
| GameCodeLoader.GameCode.Load | src/platform.c:302-337 | makes exactly the calls of `Protocol`; succeeds iff copy, load and lookup all succeed; on success the record holds the module and `Tick`, with the original's last-write time, or 0 when that query fails; on failure the record is all zero |
| Host.IterationsRun | src/platform.c:547-609 | over a sequence of inputs, the loop runs up to and including the first iteration that receives a close request, or over all inputs when none does |
| Host.IterationsRunIsFirstClose | src/platform.c:547-609 | the iteration count is fixed by where the first close request is |
| Host.GetModuleFileName | src/platform.c:380 | the length reported is the name's length when it fits, and the capacity otherwise; a name that fits is copied with a terminator |
| Host.Globals.constructor | src/platform.c:23-38 | zeroed globals: two distinct zeroed arenas, no game module, not running |
| Host.Globals.WndProc | src/platform.c:339-349 | a close request clears `running` and answers 0; any other message leaves `running` and returns the default handling's result |
| Host.Globals.CreateArenas | src/platform.c:368-372 | succeeds iff both reservations do; the frame arena is created only when the platform arena was, each with capacity 1 << 20 |
| Host.Globals.SetWorkingDirectory | src/platform.c:374-406 | the directory handed to the OS is the executable path's directory; a path that fills the buffer is an error; on success the arena is popped back to its mark; on either error the path buffer stays pushed; the high-water mark records the buffer |
| Host.Globals.RunLoop | src/platform.c:547-609 | runs `IterationsRun` iterations, each doing the screen work `Frame` gives for its client size; `running` stays set iff no input asked to close |
| Host.Globals.Setup | src/platform.c:363-533 | succeeds iff every step succeeds; then the platform arena is back at cursor 0 with the path buffer's size as its high-water mark, the frame arena is in its created state, and the game code holds the loaded module and `Tick` |
| Host.Globals.Run | src/platform.c:535-613 | exit code 1 and no frames when Setup fails; otherwise exit code 0 after the loop's frames |

## Left out

- Window, device-context and OpenGL setup, shader source, texture upload, drawing and `SwapBuffers` are left out. They are foreign API calls, and in `Setup` they are one success outcome.
- The palette conversion (`HEX_TO_RGBA_TRIPLET`) is left out: it is floating-point arithmetic.
- The byte-fill test pattern written each frame is left out. It is scratch content handed straight to OpenGL.
- Message retrieval and dispatch (`PeekMessageW`, `TranslateMessage`, `DispatchMessageW`) are left out. Each iteration is given the messages it receives, and each one goes to `WndProc`. A close request sent from inside rendering is not modelled.
- `Sleep`, `MessageBoxA` error reporting and `FatalError` are left out: they are I/O.
- `VirtualAlloc`/`VirtualFree`, `SetCurrentDirectoryW`, `CopyFileW`, `LoadLibraryW`, `GetProcAddress`, `FreeLibrary` and `GetFileAttributesExW` appear only as outcomes (parameters), not as behaviour.
- Host.GetModuleFileName: the file name itself is a parameter. The fill of the buffer is modelled with the truncation rule of Windows Vista and later: a name that does not fit is cut to `PathCap - 1` characters plus a terminator, and the capacity is reported. Windows XP leaves such a name unterminated, and that behaviour is not modelled.
- `wglGetExtensionsStringARB` and `wglGetProcAddress` are also outcomes: the string and the three addresses are parameters. The string is assumed shorter than 2^32 bytes, so the `u32` word length does not wrap.
- Arena.Bump.Push: it returns the block's offset rather than a pointer. The address is `memory + offset`.
- Host.Globals.SetWorkingDirectory: the path buffer is a separate array of wide characters, not the bytes pushed on the platform arena. The aliasing between the arena's memory and the buffer is not modelled.
- Host.Globals.RunLoop: the loop is bounded by the given inputs. It stops when they run out, even if no close request came.
- Letterbox.Frame: the viewport properties are stated for client sizes up to 2^31 - 1. Above that the GLint and GLsizei conversions wrap, and the model computes the wrapped values without proving anything about them.
- Arena.Bump.Destroy: releasing the memory is modelled as dropping the reference to it.
- The per-frame `Bump_Clear` of the frame arena, the game's `Tick` call and any reload of the game code are not modelled because the code does not do them.

## Findings

| source | as written | input that shows it | evidently intended | confidence | as-written member | corrected member |
|---|---|---|---|---|---|---|
| src/platform.c:140-145 | after the inner loop stops on the terminating NUL, the `for` loop's `++scan` steps past it, and the next test `*scan != 0` reads the byte after the string | any extension string whose last word has no trailing space (or has two or more), e.g. "WGL_ARB_pixel_format WGL_EXT_swap_control" | stop at the terminator: step past a space only, never past the NUL | high, not executed | WglExtensions.OverrunWithoutTrailingSpace | WglExtensions.ScanExtensions |
