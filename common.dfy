/**
 * The fixed-width integer types, the length-prefixed byte string and its
 * equality test (src/common.h).
 */
module Common {

  type uint8 = x: int | 0 <= x < 0x100
  type uint32 = x: int | 0 <= x < 0x1_0000_0000
  type uint64 = x: int | 0 <= x < 0x1_0000_0000_0000_0000

  const UINT32_MAX: uint32 := 0xFFFF_FFFF
  const UINT64_MAX: uint64 := 0xFFFF_FFFF_FFFF_FFFF
  /** 2^64: the modulus of u64 arithmetic. */
  const UINT64_MODULUS: nat := 0x1_0000_0000_0000_0000

  datatype Option<T> = None | Some(value: T)

  /** A function address returned by the OS; 0 is the null pointer. */
  type Proc = nat
  const NullProc: Proc := 0

  function Max(a: int, b: int): int
  {
    if a > b then a else b
  }

  /**
   * A `String`: a pointer to bytes and a length. `data` stands for the bytes
   * reachable from the pointer, which may run past `len` (a token inside a
   * longer buffer, or a literal followed by its NUL).
   */
  datatype String = String(data: seq<uint8>, len: uint32)
  {
    predicate Valid()
    {
      len as int <= |data|
    }

    /** The bytes the string denotes. */
    function Bytes(): seq<uint8>
      requires Valid()
    {
      data[..len]
    }
  }

  /**
   * String_Equal: lengths first, then byte by byte while they still agree.
   * Only indices below `s0.len` are read, and `s1` only when the lengths match.
   */
  method StringEqual(s0: String, s1: String) returns (result: bool)
    requires s0.Valid() && s1.Valid()
    ensures result <==> s0.len == s1.len && forall i :: 0 <= i < s0.len ==> s0.data[i] == s1.data[i]
    ensures result <==> s0.Bytes() == s1.Bytes()
  {
    result := s0.len == s1.len;
    var i: uint64 := 0;
    while i < s0.len as uint64 && result
      invariant i <= s0.len
      invariant result <==> s0.len == s1.len && forall j :: 0 <= j < i ==> s0.data[j] == s1.data[j]
    {
      if s0.data[i] != s1.data[i] {
        result := false;
      }
      i := i + 1;
    }
    assert result ==> s0.Bytes() == s1.Bytes() by {
      if result {
        assert forall j :: 0 <= j < s0.len ==> s0.Bytes()[j] == s1.Bytes()[j];
      }
    }
  }
}
