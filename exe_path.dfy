/**
 * The executable path is cut back to its directory before it becomes the
 * working directory (src/platform.c:382-396). The buffer holds wide characters;
 * the path is its first `pathLen` of them, followed by a terminator. The loop
 * walks backwards from the last character down to index 1 (index 0 is never
 * examined) and, at the first `/` or `\` it meets, writes a terminator just
 * after it.
 */
module ExePath {
  import opened Common

  /** A UTF-16 code unit, the element type of the Windows wide-character buffer. */
  type wchar = x: int | 0 <= x < 0x1_0000

  const Slash: wchar := 0x2F
  const Backslash: wchar := 0x5C
  const Terminator: wchar := 0

  predicate IsSeparator(c: wchar)
  {
    c == Slash || c == Backslash
  }

  /**
   * The index the backward scan stops at: the largest i with 1 <= i < len
   * holding a separator, or None when there is none.
   */
  function LastSeparator(s: seq<wchar>, len: nat): (r: Option<nat>)
    requires len <= |s|
    ensures r.Some? ==> 1 <= r.value < len && IsSeparator(s[r.value])
    ensures r.Some? ==> forall j :: r.value < j < len ==> !IsSeparator(s[j])
    ensures r.None? ==> forall j :: 1 <= j < len ==> !IsSeparator(s[j])
    decreases len
  {
    if len <= 1 then None
    else if IsSeparator(s[len - 1]) then Some(len - 1)
    else LastSeparator(s, len - 1)
  }

  /**
   * The buffer after trimming: when some index from 1 to len - 1 holds a
   * separator, the slot right after the last such index becomes a terminator;
   * otherwise the buffer is unchanged.
   */
  function Trimmed(s: seq<wchar>, len: nat): (t: seq<wchar>)
    requires len < |s|
    ensures |t| == |s|
    ensures (forall j :: 1 <= j < len ==> !IsSeparator(s[j])) ==> t == s
    ensures forall i :: 1 <= i < len && IsSeparator(s[i]) && (forall j :: i < j < len ==> !IsSeparator(s[j])) ==>
      t == s[i + 1 := Terminator]
  {
    match LastSeparator(s, len)
    case None => s
    case Some(i) => s[i + 1 := Terminator]
  }

  /**
   * The trimming loop, in place. `pathLen` is below the buffer's length, since
   * the buffer has one slot more than the capacity and a full buffer is
   * rejected before the loop.
   */
  method TrimToDirectory(path: array<wchar>, pathLen: nat)
    requires pathLen < path.Length
    modifies path
    ensures path[..] == Trimmed(old(path[..]), pathLen)
  {
    var scan := pathLen - 1;
    while scan > 0
      invariant -1 <= scan < pathLen
      invariant path[..] == old(path[..])
      invariant LastSeparator(path[..], pathLen) == LastSeparator(path[..], scan + 1)
      decreases scan
    {
      if path[scan] == Slash || path[scan] == Backslash {
        path[scan + 1] := Terminator;
        return;
      }
      scan := scan - 1;
    }
  }

  /** The length of the NUL-terminated string at the start of s (all of s when it has no terminator). */
  function CStringLength(s: seq<wchar>): (n: nat)
    ensures n <= |s|
    ensures forall j :: 0 <= j < n ==> s[j] != Terminator
    ensures n < |s| ==> s[n] == Terminator
  {
    if s == [] || s[0] == Terminator then 0 else 1 + CStringLength(s[1..])
  }

  /** The first terminator is the only terminator with none before it. */
  lemma {:induction false} CStringLengthUnique(s: seq<wchar>, n: nat)
    requires n < |s| && s[n] == Terminator
    requires forall j :: 0 <= j < n ==> s[j] != Terminator
    ensures CStringLength(s) == n
  {
  }

  /** The directory the trimmed buffer names: the path through its last separator, or the whole path. */
  function Directory(path: seq<wchar>): (dir: seq<wchar>)
    ensures |dir| <= |path| && dir == path[..|dir|]
    ensures dir != path ==> 1 <= |dir| - 1 && IsSeparator(path[|dir| - 1])
    ensures forall j :: |dir| <= j < |path| ==> !IsSeparator(path[j])
    ensures LastSeparator(path, |path|).Some? ==> |dir| == LastSeparator(path, |path|).value + 1
  {
    match LastSeparator(path, |path|)
    case None => path
    case Some(i) => path[..i + 1]
  }

  /**
   * Read as a NUL-terminated string, the trimmed buffer is the directory of the
   * path it held, provided the path was terminated and held no terminator itself.
   */
  lemma {:induction false} TrimmedIsDirectory(s: seq<wchar>, len: nat)
    requires len < |s| && s[len] == Terminator
    requires forall j :: 0 <= j < len ==> s[j] != Terminator
    ensures var t := Trimmed(s, len); t[..CStringLength(t)] == Directory(s[..len])
  {
    var path := s[..len];
    LastSeparatorAgree(path, s, len);
    var t := Trimmed(s, len);
    match LastSeparator(s, len)
    case None =>
      CStringLengthUnique(t, len);
    case Some(i) =>
      assert t[i + 1] == Terminator;
      CStringLengthUnique(t, i + 1);
      assert t[..i + 1] == s[..i + 1] == path[..i + 1];
  }

  /** Two buffers that agree below len have the same last separator below len. */
  lemma {:induction false} LastSeparatorAgree(a: seq<wchar>, b: seq<wchar>, len: nat)
    requires len <= |a| && len <= |b|
    requires forall j :: 0 <= j < len ==> a[j] == b[j]
    ensures LastSeparator(a, len) == LastSeparator(b, len)
    decreases len
  {
    if len > 1 {
      LastSeparatorAgree(a, b, len - 1);
    }
  }
}
