/**
 * The arena as the source keeps it: a `Bump` record whose fields the
 * allocator updates in place (src/common.h:71-114), created, cleared and
 * destroyed by the host (src/platform.c:40-66). Each method is tied to its
 * value-level counterpart in BumpSpec through `Model()`.
 */
module Arena {
  import opened Common
  import opened Bits
  import BumpSpec

  class Bump {
    /** The reserved block; null when the reservation failed or after Destroy. */
    var memory: array?<uint8>
    var cursor: uint32
    var capacity: uint32
    var highWatermark: uint32

    ghost function Model(): BumpSpec.State
      reads this
    {
      BumpSpec.State(cursor, capacity, highWatermark)
    }

    ghost predicate Valid()
      reads this
    {
      Model().Valid() && (memory != null ==> memory.Length == capacity)
    }

    /** A zero-initialised record, as a global `Bump` starts out. */
    constructor ()
      ensures Valid() && Model() == BumpSpec.State(0, 0, 0) && memory == null
    {
      memory := null;
      cursor, capacity, highWatermark := 0, 0, 0;
    }

    /**
     * Bump_Create: the whole record is overwritten. `reserved` is the outcome of
     * the OS reservation; the result says whether the memory pointer is non-null.
     */
    method Create(requested: uint32, reserved: bool) returns (ok: bool)
      modifies this
      ensures Valid() && Model() == BumpSpec.Create(requested)
      ensures reserved ==> fresh(memory) && memory != null
      ensures !reserved ==> memory == null
      ensures ok <==> memory != null
    {
      if reserved {
        memory := new uint8[requested];
      } else {
        memory := null;
      }
      cursor, capacity, highWatermark := 0, requested, 0;
      ok := memory != null;
    }

    /** Bump_Destroy: the block is released and the record zeroed. */
    method Destroy()
      modifies this
      ensures Valid() && Model() == BumpSpec.State(0, 0, 0) && memory == null
    {
      memory := null;
      cursor, capacity, highWatermark := 0, 0, 0;
    }

    /** Bump_Clear: only the cursor changes. */
    method Clear()
      requires Valid()
      modifies this`cursor
      ensures Valid() && Model() == BumpSpec.Clear(old(Model()))
    {
      cursor := 0;
    }

    /**
     * Bump_Push. The requires clauses are the two ASSERTs (a failed one crashes
     * the process on purpose). The result is the offset of the block: the
     * address returned is `memory + offset`.
     */
    method Push(size: uint64, alignment: uint8) returns (offset: uint64)
      requires Valid()
      requires alignment > 0 && BitAnd(alignment - 1, alignment) == 0
      requires size < UINT64_MAX - BumpSpec.AlignCursor(cursor, alignment)
      requires BumpSpec.AlignCursor(cursor, alignment) + size <= capacity
      modifies this`cursor, this`highWatermark
      ensures Valid()
      ensures BumpSpec.Push(old(Model()), size, alignment) == Some(BumpSpec.Allocation(Model(), offset))
      ensures offset % alignment == 0 && old(cursor) <= offset < old(cursor) + alignment
      ensures cursor == offset + size && highWatermark == Max(old(highWatermark), cursor)
      ensures memory != null ==> offset + size <= memory.Length
    {
      var aligned := BumpSpec.AlignCursor(cursor, alignment);
      cursor := aligned + size;
      highWatermark := if cursor > highWatermark then cursor else highWatermark;
      offset := aligned;
    }

    /** Bump_Pop: requires the cursor to be at least `size`, then rewinds by `size`. */
    method Pop(size: uint64)
      requires Valid()
      requires cursor >= size
      modifies this`cursor
      ensures Valid()
      ensures BumpSpec.Pop(old(Model()), size) == Some(Model())
      ensures cursor == old(cursor) - size
    {
      cursor := cursor - size;
    }

    /** Bump_GetMark: the cursor, as a token for PopToMark; popping back to it is always allowed. */
    function GetMark(): (mark: uint32)
      reads this
      requires Valid()
      ensures mark == BumpSpec.GetMark(Model())
      ensures mark <= capacity && BumpSpec.PopToMark(Model(), mark) == Some(Model())
    {
      cursor
    }

    /** Bump_PopToMark: requires the mark not to be ahead of the cursor, then sets the cursor to it. */
    method PopToMark(mark: uint32)
      requires Valid()
      requires mark <= cursor
      modifies this`cursor
      ensures Valid()
      ensures BumpSpec.PopToMark(old(Model()), mark) == Some(Model())
      ensures cursor == mark
    {
      cursor := mark;
    }
  }
}
