/**
 * The arena (bump allocator) of src/common.h as values: the state is the
 * triple (cursor, capacity, high-water mark), each operation maps a state to
 * its successor, and a deliberate crash (a failed ASSERT) is `None`.
 */
module BumpSpec {
  import opened Common
  import opened Bits

  datatype State = State(cursor: uint32, capacity: uint32, highWatermark: uint32)
  {
    /** cursor <= high-water mark <= capacity */
    predicate Valid()
    {
      cursor <= highWatermark <= capacity
    }
  }

  /** The state Bump_Create leaves behind for the requested capacity. */
  function Create(capacity: uint32): (s: State)
    ensures s.Valid() && s.cursor == 0 && s.highWatermark == 0 && s.capacity == capacity
  {
    State(0, capacity, 0)
  }

  /** The first ASSERT of Bump_Push: a non-zero alignment with `(alignment - 1) & alignment == 0`. */
  predicate AlignmentOk(alignment: uint8)
  {
    alignment > 0 && BitAnd(alignment - 1, alignment) == 0
  }

  /** The smallest multiple of `alignment` that is at least `cursor`, in plain arithmetic. */
  function RoundUp(cursor: nat, alignment: nat): nat
    requires alignment > 0
  {
    (cursor + alignment - 1) / alignment * alignment
  }

  lemma {:induction false} RoundUpIsLeastMultiple(cursor: nat, alignment: nat)
    requires alignment > 0
    ensures RoundUp(cursor, alignment) % alignment == 0
    ensures cursor <= RoundUp(cursor, alignment) < cursor + alignment
    ensures forall m: nat :: m % alignment == 0 && cursor <= m ==> RoundUp(cursor, alignment) <= m
  {
    var x := cursor + alignment - 1;
    var q := x / alignment;
    var r := RoundUp(cursor, alignment);
    assert x == alignment * q + x % alignment;
    assert r == alignment * q;
    ModUnique(r, alignment, q, 0);
    forall m: nat | m % alignment == 0 && cursor <= m
      ensures r <= m
    {
      var k := m / alignment;
      assert m == alignment * k + m % alignment;
      if k < q {
        assert alignment * q == alignment * k + alignment * (q - k);
        MulAtLeast(alignment, q - k);
      }
    }
  }

  /**
   * The aligned cursor, computed as the source does:
   * `((u64)cursor + (alignment - 1)) & (u64)-(s64)alignment`. Under the first
   * ASSERT it is the round-up of the cursor to the alignment.
   */
  function AlignCursor(cursor: uint32, alignment: uint8): (aligned: uint64)
    requires AlignmentOk(alignment)
    ensures aligned == RoundUp(cursor, alignment)
    ensures aligned % alignment == 0 && cursor <= aligned < cursor + alignment
  {
    PowerOfTwoTest(alignment);
    Pow2Of64();
    NegatedPowerOfTwoMask(cursor + (alignment - 1), alignment, 64);
    RoundUpByRemainder(cursor, alignment);
    RoundUpIsLeastMultiple(cursor, alignment);
    BitAnd(cursor + (alignment - 1), UINT64_MODULUS - alignment)
  }

  lemma {:induction false} RoundUpByRemainder(cursor: nat, alignment: nat)
    requires alignment > 0
    ensures RoundUp(cursor, alignment) == (cursor + alignment - 1) - (cursor + alignment - 1) % alignment
  {
    var x := cursor + alignment - 1;
    assert x == alignment * (x / alignment) + x % alignment;
  }

  /** The second ASSERT of Bump_Push: no u64 overflow, and the block fits in the capacity. */
  predicate Fits(s: State, size: uint64, aligned: uint64)
  {
    size < UINT64_MAX - aligned && aligned + size <= s.capacity
  }

  /** A successful push: the new state and the offset of the block in the arena's memory. */
  datatype Allocation = Allocation(after: State, offset: uint64)

  /**
   * Bump_Push. It traps unless the alignment is a power of two and the aligned
   * block fits; the overflow guard never decides anything on its own, because the
   * capacity is a u32.
   */
  function Push(s: State, size: uint64, alignment: uint8): (r: Option<Allocation>)
    ensures r.Some? <==> IsPowerOfTwo(alignment) && RoundUp(s.cursor, alignment) + size <= s.capacity
    ensures r.Some? ==>
      && r.value.offset == RoundUp(s.cursor, alignment)
      && r.value.offset % alignment == 0
      && s.cursor <= r.value.offset < s.cursor + alignment
      && r.value.after.cursor == r.value.offset + size <= s.capacity
      && r.value.after.capacity == s.capacity
      && r.value.after.highWatermark >= s.highWatermark
      && r.value.after.highWatermark >= r.value.after.cursor
      && (r.value.after.highWatermark == s.highWatermark || r.value.after.highWatermark == r.value.after.cursor)
    ensures r.Some? && s.Valid() ==> r.value.after.Valid()
  {
    PowerOfTwoTest(alignment);
    if !AlignmentOk(alignment) then None
    else
      var aligned := AlignCursor(s.cursor, alignment);
      if !Fits(s, size, aligned) then None
      else
        var cursor: uint32 := aligned + size;
        var highWatermark := if cursor > s.highWatermark then cursor else s.highWatermark;
        Some(Allocation(State(cursor, s.capacity, highWatermark), aligned))
  }

  /** Bump_Pop: traps if the cursor is below `size`, otherwise rewinds by exactly `size`. */
  function Pop(s: State, size: uint64): (r: Option<State>)
    ensures r.Some? <==> size <= s.cursor
    ensures r.Some? ==> r.value.cursor + size == s.cursor
    ensures r.Some? ==> r.value.capacity == s.capacity && r.value.highWatermark == s.highWatermark
    ensures r.Some? && s.Valid() ==> r.value.Valid()
  {
    if s.cursor < size then None else Some(s.(cursor := s.cursor - size))
  }

  /** Bump_GetMark: the current cursor, a mark that popping back to at once allows and leaves the state as it is. */
  function GetMark(s: State): (m: uint32)
    ensures PopToMark(s, m) == Some(s)
  {
    s.cursor
  }

  /** Bump_PopToMark: traps if the mark is ahead of the cursor, otherwise the cursor becomes the mark. */
  function PopToMark(s: State, mark: uint32): (r: Option<State>)
    ensures r.Some? <==> mark <= s.cursor
    ensures r.Some? ==> r.value == State(mark, s.capacity, s.highWatermark)
    ensures r.Some? && s.Valid() ==> r.value.Valid()
  {
    if mark <= s.cursor then Some(s.(cursor := mark)) else None
  }

  /** Bump_Clear: the cursor goes back to zero; capacity and high-water mark stay. */
  function Clear(s: State): (r: State)
    ensures r.cursor == 0 && r.capacity == s.capacity && r.highWatermark == s.highWatermark
    ensures s.Valid() ==> r.Valid()
  {
    s.(cursor := 0)
  }

  /** One call on an arena. */
  datatype Op =
    | PushOp(size: uint64, alignment: uint8)
    | PopOp(popSize: uint64)
    | PopToMarkOp(mark: uint32)
    | ClearOp

  function Step(s: State, op: Op): Option<State>
  {
    match op
    case PushOp(size, alignment) =>
      var r := Push(s, size, alignment);
      if r.Some? then Some(r.value.after) else None
    case PopOp(size) => Pop(s, size)
    case PopToMarkOp(mark) => PopToMark(s, mark)
    case ClearOp => Some(Clear(s))
  }

  /** A sequence of calls; `None` if any of them traps. */
  function Run(s: State, ops: seq<Op>): Option<State>
    decreases |ops|
  {
    if ops == [] then Some(s)
    else
      var t := Step(s, ops[0]);
      if t.None? then None else Run(t.value, ops[1..])
  }

  lemma {:induction false} RunAppend(s: State, ops: seq<Op>, more: seq<Op>)
    ensures Run(s, ops + more) == (var t := Run(s, ops); if t.None? then None else Run(t.value, more))
    decreases |ops|
  {
    if ops == [] {
      assert ops + more == more;
    } else {
      var all := ops + more;
      assert all[0] == ops[0];
      assert all[1..] == ops[1..] + more;
      var t := Step(s, ops[0]);
      assert Run(s, all) == if t.None? then None else Run(t.value, all[1..]);
      assert Run(s, ops) == if t.None? then None else Run(t.value, ops[1..]);
      if t.Some? {
        RunAppend(t.value, ops[1..], more);
      }
    }
  }

  /**
   * Whatever the calls, as long as none traps: the invariant
   * cursor <= high-water mark <= capacity holds, the capacity never changes and
   * the high-water mark never decreases.
   */
  lemma {:induction false} RunKeepsInvariant(s: State, ops: seq<Op>)
    requires s.Valid() && Run(s, ops).Some?
    ensures Run(s, ops).value.Valid()
    ensures Run(s, ops).value.capacity == s.capacity
    ensures Run(s, ops).value.highWatermark >= s.highWatermark
    decreases |ops|
  {
    if ops != [] {
      var t := Step(s, ops[0]).value;
      assert t.Valid() && t.capacity == s.capacity && t.highWatermark >= s.highWatermark;
      RunKeepsInvariant(t, ops[1..]);
    }
  }

  /** Only pushes, of any sizes and alignments. */
  predicate AllPushes(ops: seq<Op>)
  {
    forall i :: 0 <= i < |ops| ==> ops[i].PushOp?
  }

  lemma {:induction false} PushesOnlyAdvance(s: State, ops: seq<Op>)
    requires AllPushes(ops) && Run(s, ops).Some?
    ensures Run(s, ops).value.cursor >= s.cursor
    ensures Run(s, ops).value.capacity == s.capacity
    ensures Run(s, ops).value.highWatermark >= s.highWatermark
    decreases |ops|
  {
    if ops != [] {
      var t := Step(s, ops[0]).value;
      PushesOnlyAdvance(t, ops[1..]);
    }
  }

  /**
   * GetMark, then any pushes that succeed, then PopToMark: the pop is allowed and
   * restores the cursor; the high-water mark keeps what the pushes reached.
   */
  lemma {:induction false} MarkRestoresCursor(s: State, pushes: seq<Op>)
    requires AllPushes(pushes) && Run(s, pushes).Some?
    ensures Run(s, pushes + [PopToMarkOp(GetMark(s))]).Some?
    ensures Run(s, pushes + [PopToMarkOp(GetMark(s))]).value
      == State(s.cursor, s.capacity, Run(s, pushes).value.highWatermark)
  {
    PushesOnlyAdvance(s, pushes);
    RunAppend(s, pushes, [PopToMarkOp(GetMark(s))]);
  }

  /** Pushes of the given sizes with alignment 1, in order. */
  function BytePushes(sizes: seq<uint64>): (ops: seq<Op>)
    ensures |ops| == |sizes| && AllPushes(ops)
  {
    seq(|sizes|, i requires 0 <= i < |sizes| => PushOp(sizes[i], 1))
  }

  /** Pops of the given sizes, last size first. */
  function PopsInReverse(sizes: seq<uint64>): seq<Op>
    decreases |sizes|
  {
    if sizes == [] then [] else PopsInReverse(sizes[1..]) + [PopOp(sizes[0])]
  }

  /**
   * Stack discipline: pushes with alignment 1 that all succeed, then the same
   * sizes popped in reverse order, give back the starting cursor.
   */
  lemma {:induction false} PushPopStackRestores(s: State, sizes: seq<uint64>)
    requires Run(s, BytePushes(sizes)).Some?
    ensures Run(s, BytePushes(sizes) + PopsInReverse(sizes)).Some?
    ensures Run(s, BytePushes(sizes) + PopsInReverse(sizes)).value
      == State(s.cursor, s.capacity, Run(s, BytePushes(sizes)).value.highWatermark)
    decreases |sizes|
  {
    if sizes != [] {
      var first := Push(s, sizes[0], 1);
      assert BytePushes(sizes)[0] == PushOp(sizes[0], 1);
      assert BytePushes(sizes)[1..] == BytePushes(sizes[1..]);
      assert first.Some?;
      var t := first.value.after;
      assert t.cursor == s.cursor + sizes[0] by {
        RoundUpIsLeastMultiple(s.cursor, 1);
      }
      assert Run(s, BytePushes(sizes)) == Run(t, BytePushes(sizes[1..]));
      PushPopStackRestores(t, sizes[1..]);
      var inner := BytePushes(sizes[1..]) + PopsInReverse(sizes[1..]);
      var u := Run(t, inner).value;
      assert BytePushes(sizes) + PopsInReverse(sizes) == [PushOp(sizes[0], 1)] + inner + [PopOp(sizes[0])];
      RunAppend(s, [PushOp(sizes[0], 1)] + inner, [PopOp(sizes[0])]);
      RunAppend(s, [PushOp(sizes[0], 1)], inner);
      assert Run(s, [PushOp(sizes[0], 1)]) == Some(t);
    }
  }

  /** With alignment 1, a push followed by a pop of the same size restores the cursor. */
  lemma {:induction false} PushThenPopRestores(s: State, size: uint64)
    requires Push(s, size, 1).Some?
    ensures Pop(Push(s, size, 1).value.after, size) == Some(s.(highWatermark := Push(s, size, 1).value.after.highWatermark))
  {
    RoundUpIsLeastMultiple(s.cursor, 1);
  }

  /**
   * With a larger alignment the padding is not given back: a one-byte push at
   * cursor 1 with alignment 2 lands at offset 2, and popping one byte leaves the
   * cursor at 2.
   */
  lemma {:induction false} PopDoesNotUndoPadding()
    ensures Push(State(1, 16, 1), 1, 2) == Some(Allocation(State(3, 16, 3), 2))
    ensures Pop(State(3, 16, 3), 1) == Some(State(2, 16, 3))
  {
    assert RoundUp(1, 2) == 2;
  }

  /**
   * A request larger than the room left after the cursor never yields a block:
   * the push traps rather than truncating.
   */
  lemma {:induction false} PushBeyondCapacityTraps(s: State, size: uint64, alignment: uint8)
    requires s.Valid() && size > s.capacity - s.cursor
    ensures Push(s, size, alignment).None?
  {
    PowerOfTwoTest(alignment);
    if alignment > 0 {
      RoundUpIsLeastMultiple(s.cursor, alignment);
    }
  }

  /**
   * After Clear, a push behaves as the very first push on a freshly created
   * arena of the same capacity: same outcome, and the block starts at offset 0.
   */
  lemma {:induction false} ClearThenPushIsFirstPush(s: State, size: uint64, alignment: uint8)
    ensures Push(Clear(s), size, alignment).Some? <==> Push(Create(s.capacity), size, alignment).Some?
    ensures Push(Clear(s), size, alignment).Some? ==>
      && Push(Clear(s), size, alignment).value.offset == 0
      && Push(Create(s.capacity), size, alignment).value.offset == 0
  {
    PowerOfTwoTest(alignment);
    if alignment > 0 {
      ModUnique(alignment - 1, alignment, 0, alignment - 1);
      assert RoundUp(0, alignment) == 0;
    }
  }
}
