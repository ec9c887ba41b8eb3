/**
 * The extension-name scan in LoadWGLFunctions (src/platform.c:137-167): the
 * NUL-terminated, space-separated extension string is split into words, and
 * each of three entry-point slots is filled when its extension's exact name
 * occurs as a word. The string is `ext`, the bytes before its terminator; the
 * terminator itself is index |ext|.
 */
module WglExtensions {
  import opened Common

  const Space: uint8 := 0x20
  const Nul: uint8 := 0

  /** The bytes of an ASCII literal. */
  function Ascii(s: string): (b: seq<uint8>)
    requires forall i :: 0 <= i < |s| ==> s[i] < 128 as char
    ensures |b| == |s| && forall i :: 0 <= i < |s| ==> b[i] == s[i] as int
  {
    seq(|s|, i requires 0 <= i < |s| => s[i] as int)
  }

  const PixelFormatName: seq<uint8> := Ascii("WGL_ARB_pixel_format")
  const CreateContextName: seq<uint8> := Ascii("WGL_ARB_create_context")
  const SwapControlName: seq<uint8> := Ascii("WGL_EXT_swap_control")

  /** The byte at index i of the NUL-terminated string: the terminator at |ext|. */
  function At(ext: seq<uint8>, i: nat): uint8
    requires i <= |ext|
  {
    if i < |ext| then ext[i] else Nul
  }

  /** t occurs in ext as a whole word starting at i: a maximal run of non-space bytes. */
  predicate WordAt(ext: seq<uint8>, i: nat, t: seq<uint8>)
  {
    && 0 < |t|
    && i + |t| <= |ext|
    && ext[i..i + |t|] == t
    && Space !in t
    && (i == 0 || ext[i - 1] == Space)
    && (i + |t| == |ext| || ext[i + |t|] == Space)
  }

  /** t is one of the words of ext. */
  ghost predicate HasWord(ext: seq<uint8>, t: seq<uint8>)
  {
    exists i: nat :: WordAt(ext, i, t)
  }

  /** t is a word of ext that starts before index p. */
  ghost predicate HasWordBefore(ext: seq<uint8>, t: seq<uint8>, p: nat)
  {
    exists i: nat :: i < p && WordAt(ext, i, t)
  }

  /** The first `while`: the first index at or after p that is not a space. */
  function SkipSpaces(ext: seq<uint8>, p: nat): (q: nat)
    requires p <= |ext|
    ensures p <= q <= |ext|
    ensures forall j :: p <= j < q ==> ext[j] == Space
    ensures q < |ext| ==> ext[q] != Space
    decreases |ext| - p
  {
    if p < |ext| && ext[p] == Space then SkipSpaces(ext, p + 1) else p
  }

  /** The second `while`: the first index at or after p holding the terminator or a space. */
  function WordEnd(ext: seq<uint8>, p: nat): (e: nat)
    requires p <= |ext|
    ensures p <= e <= |ext|
    ensures forall j :: p <= j < e ==> ext[j] != Space && ext[j] != Nul
    ensures e < |ext| ==> ext[e] == Space || ext[e] == Nul
    decreases |ext| - p
  {
    if p < |ext| && ext[p] != Nul && ext[p] != Space then WordEnd(ext, p + 1) else p
  }

  // ---------------------------------------------------------------------------
  // The loop as written: `for (scan = ext; *scan != 0; ++scan)`. After the inner
  // scans stop on the terminator, `++scan` steps past it and the next loop test
  // reads the byte after the terminator.

  /** Where `scan` points at the next loop test, for an iteration entered at p. */
  function NextScanAsWritten(ext: seq<uint8>, p: nat): (n: nat)
    requires p < |ext|
    ensures p < n <= |ext| + 1
  {
    WordEnd(ext, SkipSpaces(ext, p)) + 1
  }

  /**
   * Whether the loop as written, entered with `scan` at p, ever tests a byte
   * beyond the terminator (index |ext| + 1, outside the string).
   */
  function OverrunsAsWritten(ext: seq<uint8>, p: nat): bool
    requires p <= |ext|
    decreases |ext| - p
  {
    if p == |ext| then false
    else
      var n := NextScanAsWritten(ext, p);
      if n > |ext| then true else OverrunsAsWritten(ext, n)
  }

  /**
   * Wherever the loop as written stays inside the string, its step is the
   * corrected one: past the word and the space after it, or onto the terminator.
   */
  lemma AsWrittenStepAgrees(ext: seq<uint8>, p: nat)
    requires Nul !in ext && p < |ext| && NextScanAsWritten(ext, p) <= |ext|
    ensures var e := WordEnd(ext, SkipSpaces(ext, p));
            NextScanAsWritten(ext, p) == if e < |ext| then e + 1 else e
  {
  }

  /** The string ends in a non-space byte followed by exactly one space (or is empty). */
  predicate EndsInOneSpace(ext: seq<uint8>)
  {
    ext == [] || (|ext| >= 2 && ext[|ext| - 1] == Space && ext[|ext| - 2] != Space)
  }

  lemma {:induction false} OverrunsFrom(ext: seq<uint8>, p: nat)
    requires Nul !in ext && p < |ext|
    ensures OverrunsAsWritten(ext, p) <==>
      !(p + 2 <= |ext| && ext[|ext| - 1] == Space && ext[|ext| - 2] != Space)
    decreases |ext| - p
  {
    var q := SkipSpaces(ext, p);
    var e := WordEnd(ext, q);
    if e < |ext| {
      assert q < |ext| && ext[q] != Space;
      assert ext[e] == Space;
      if e + 1 < |ext| {
        OverrunsFrom(ext, e + 1);
      }
    }
  }

  /**
   * The loop as written stays inside the string exactly when the string is empty
   * or ends in a word followed by one space. Otherwise (no trailing space, or
   * two or more) it reads the byte after the terminator.
   */
  lemma {:induction false} OverrunsAsWrittenIff(ext: seq<uint8>)
    requires Nul !in ext
    ensures OverrunsAsWritten(ext, 0) <==> !EndsInOneSpace(ext)
  {
    if ext != [] {
      OverrunsFrom(ext, 0);
    }
  }

  /** An extension string whose last name has no trailing space makes the loop read past its end. */
  lemma {:induction false} OverrunWithoutTrailingSpace()
    ensures OverrunsAsWritten(PixelFormatName + [Space] + SwapControlName, 0)
  {
    var ext := PixelFormatName + [Space] + SwapControlName;
    assert ext[|ext| - 1] != Space;
    assert Nul !in ext;
    OverrunsAsWrittenIff(ext);
  }

  /** The names are not empty, and no word matches two of them. */
  lemma NamesDistinct()
    ensures |PixelFormatName| == 20 && |CreateContextName| == 22 && |SwapControlName| == 20
    ensures PixelFormatName != CreateContextName
    ensures PixelFormatName != SwapControlName
    ensures CreateContextName != SwapControlName
  {
    assert |PixelFormatName| == 20 && |CreateContextName| == 22 && |SwapControlName| == 20;
    assert PixelFormatName[4] != SwapControlName[4];
  }

  // ---------------------------------------------------------------------------
  // The scan with the terminator respected: the step past a separating space is
  // taken only when the word ended on a space, never on the terminator.

  /**
   * Between p (the start of an iteration) and the end e of the word found there,
   * the only place a word can start is q, the first non-space, and the word
   * there is exactly ext[q..e].
   */
  lemma {:induction false} OnlyWordInSegment(ext: seq<uint8>, p: nat, t: seq<uint8>)
    requires Nul !in ext && p <= |ext| && (p == 0 || ext[p - 1] == Space)
    ensures var q := SkipSpaces(ext, p);
            var e := WordEnd(ext, q);
            forall i: nat :: p <= i <= e && i < |ext| ==> (WordAt(ext, i, t) <==> i == q && q < e && ext[q..e] == t)
  {
    var q := SkipSpaces(ext, p);
    var e := WordEnd(ext, q);
    forall i: nat | p <= i <= e && i < |ext|
      ensures WordAt(ext, i, t) <==> i == q && q < e && ext[q..e] == t
    {
      if WordAt(ext, i, t) {
        assert ext[i] == t[0] && t[0] != Space;
        assert i == q;
        assert i + |t| == e;
      }
      if i == q && q < e && ext[q..e] == t {
        assert Space !in t by {
          forall k | 0 <= k < |t| ensures t[k] != Space {
            assert t[k] == ext[q + k];
          }
        }
        assert q == 0 || ext[q - 1] == Space;
      }
    }
  }

  /**
   * One iteration of the scan, entered at p: the words that start before the
   * next iteration's index are those that started before p, plus ext[q..e] if it
   * is not empty.
   */
  lemma {:induction false} WordsBeforeStep(ext: seq<uint8>, p: nat, t: seq<uint8>)
    requires Nul !in ext && p < |ext| && (p == 0 || ext[p - 1] == Space)
    ensures var q := SkipSpaces(ext, p);
            var e := WordEnd(ext, q);
            var next := if e < |ext| then e + 1 else e;
            HasWordBefore(ext, t, next) <==> HasWordBefore(ext, t, p) || (q < e && ext[q..e] == t)
  {
    var q := SkipSpaces(ext, p);
    var e := WordEnd(ext, q);
    var next := if e < |ext| then e + 1 else e;
    OnlyWordInSegment(ext, p, t);
    if HasWordBefore(ext, t, next) {
      var i: nat :| i < next && WordAt(ext, i, t);
      if i >= p {
        assert i <= e && i < |ext|;
      }
    }
    if q < e && ext[q..e] == t {
      assert WordAt(ext, q, t);
    }
  }

  /**
   * One slot across one iteration, entered at p, whose word is ext[q..e] and
   * whose next iteration starts at `next`: the slot takes its address when the
   * word is its name.
   */
  lemma SlotStep(ext: seq<uint8>, p: nat, q: nat, e: nat, next: nat, t: seq<uint8>, address: Proc, slot: Proc, newSlot: Proc)
    requires Nul !in ext && p < |ext| && (p == 0 || ext[p - 1] == Space) && |t| > 0
    requires q == SkipSpaces(ext, p) && e == WordEnd(ext, q) && next == if e < |ext| then e + 1 else e
    requires slot == Slot(HasWordBefore(ext, t, p), address)
    requires newSlot == if ext[q..e] == t then address else slot
    ensures newSlot == Slot(HasWordBefore(ext, t, next), address)
  {
    WordsBeforeStep(ext, p, t);
  }

  /** Every word starts before the end of the string. */
  lemma {:induction false} WordsBeforeEnd(ext: seq<uint8>, t: seq<uint8>)
    ensures HasWordBefore(ext, t, |ext|) <==> HasWord(ext, t)
  {
    if HasWord(ext, t) {
      var i: nat :| WordAt(ext, i, t);
      assert i < |ext|;
    }
  }

  /** The slot value after scanning: the looked-up address if the name was found, else null. */
  function Slot(found: bool, address: Proc): Proc
  {
    if found then address else NullProc
  }

  /** The three entry points the scan fills: wglChoosePixelFormatARB, wglCreateContextAttribsARB, wglSwapIntervalEXT. */
  datatype Entries = Entries(choosePixelFormat: Proc, createContextAttribs: Proc, swapInterval: Proc)

  /** Each slot holds its address when its name is a word starting before p, and null otherwise. */
  ghost predicate FilledBefore(ext: seq<uint8>, p: nat, slots: Entries, addresses: Entries)
  {
    && slots.choosePixelFormat == Slot(HasWordBefore(ext, PixelFormatName, p), addresses.choosePixelFormat)
    && slots.createContextAttribs == Slot(HasWordBefore(ext, CreateContextName, p), addresses.createContextAttribs)
    && slots.swapInterval == Slot(HasWordBefore(ext, SwapControlName, p), addresses.swapInterval)
  }

  /** The two inner `while` loops: skip the spaces, then the word that follows. */
  method NextWord(ext: seq<uint8>, p: nat) returns (start: nat, end: nat)
    requires p <= |ext|
    ensures start == SkipSpaces(ext, p) && end == WordEnd(ext, start)
  {
    var scan := p;
    while At(ext, scan) == Space
      invariant p <= scan <= |ext| && SkipSpaces(ext, p) == SkipSpaces(ext, scan)
      decreases |ext| - scan
    {
      scan := scan + 1;
    }
    start := scan;
    while At(ext, scan) != Nul && At(ext, scan) != Space
      invariant start <= scan <= |ext| && WordEnd(ext, start) == WordEnd(ext, scan)
      decreases |ext| - scan
    {
      scan := scan + 1;
    }
    end := scan;
  }

  /** Which of the three names a word is. */
  datatype Match = PixelFormat | CreateContext | SwapControl | NoMatch

  /** The name a word is, if any. */
  function Classify(word: seq<uint8>): Match
  {
    if word == PixelFormatName then PixelFormat
    else if word == CreateContextName then CreateContext
    else if word == SwapControlName then SwapControl
    else NoMatch
  }

  /** The slots after a word: the matching slot gets its address, the others stay. */
  function Fill(slots: Entries, addresses: Entries, matched: Match): (r: Entries)
    ensures r.choosePixelFormat == if matched.PixelFormat? then addresses.choosePixelFormat else slots.choosePixelFormat
    ensures r.createContextAttribs == if matched.CreateContext? then addresses.createContextAttribs else slots.createContextAttribs
    ensures r.swapInterval == if matched.SwapControl? then addresses.swapInterval else slots.swapInterval
  {
    match matched
    case PixelFormat => slots.(choosePixelFormat := addresses.choosePixelFormat)
    case CreateContext => slots.(createContextAttribs := addresses.createContextAttribs)
    case SwapControl => slots.(swapInterval := addresses.swapInterval)
    case NoMatch => slots
  }

  /**
   * One iteration, entered at p, whose word is ext[q..e] and whose next
   * iteration starts at `next`: filling the slot the word names keeps every
   * slot holding its address exactly when its name is a word seen so far.
   */
  lemma FillStep(ext: seq<uint8>, p: nat, q: nat, e: nat, next: nat, slots: Entries, addresses: Entries)
    requires Nul !in ext && p < |ext| && (p == 0 || ext[p - 1] == Space)
    requires q == SkipSpaces(ext, p) && e == WordEnd(ext, q) && next == if e < |ext| then e + 1 else e
    requires FilledBefore(ext, p, slots, addresses)
    ensures FilledBefore(ext, next, Fill(slots, addresses, Classify(ext[q..e])), addresses)
  {
    var filled := Fill(slots, addresses, Classify(ext[q..e]));
    NamesDistinct();
    SlotStep(ext, p, q, e, next, PixelFormatName, addresses.choosePixelFormat, slots.choosePixelFormat, filled.choosePixelFormat);
    SlotStep(ext, p, q, e, next, CreateContextName, addresses.createContextAttribs, slots.createContextAttribs, filled.createContextAttribs);
    SlotStep(ext, p, q, e, next, SwapControlName, addresses.swapInterval, slots.swapInterval, filled.swapInterval);
  }

  /** The chain of String_Equal tests against the three names, in the source's order. */
  method MatchName(name: String) returns (matched: Match)
    requires name.Valid()
    ensures matched == Classify(name.Bytes())
  {
    NamesDistinct();
    var pixelFormat := String(PixelFormatName + [Nul], |PixelFormatName|);
    assert pixelFormat.Bytes() == PixelFormatName;
    var isPixelFormat := StringEqual(name, pixelFormat);
    if isPixelFormat {
      return PixelFormat;
    }
    var createContext := String(CreateContextName + [Nul], |CreateContextName|);
    assert createContext.Bytes() == CreateContextName;
    var isCreateContext := StringEqual(name, createContext);
    if isCreateContext {
      return CreateContext;
    }
    var swapControl := String(SwapControlName + [Nul], |SwapControlName|);
    assert swapControl.Bytes() == SwapControlName;
    var isSwapControl := StringEqual(name, swapControl);
    if isSwapControl {
      return SwapControl;
    }
    return NoMatch;
  }

  /**
   * One iteration of the scan, entered at p: the next word is compared with the
   * three names in turn and, on a match, its slot gets the looked-up address.
   * The step past the space after the word is taken only when there is one.
   */
  method ScanWord(ext: seq<uint8>, p: nat, slots: Entries, addresses: Entries) returns (next: nat, filled: Entries)
    requires Nul !in ext && |ext| <= UINT32_MAX
    requires p < |ext| && (p == 0 || ext[p - 1] == Space)
    requires FilledBefore(ext, p, slots, addresses)
    ensures p < next <= |ext| && (next == |ext| || ext[next - 1] == Space)
    ensures FilledBefore(ext, next, filled, addresses)
  {
    var start, scan := NextWord(ext, p);
    var name := String(ext[start..], (scan - start) as uint32);
    assert name.Bytes() == ext[start..scan];
    var matched := MatchName(name);
    filled := Fill(slots, addresses, matched);
    next := if scan < |ext| then scan + 1 else scan;
    FillStep(ext, p, start, scan, next, slots, addresses);
  }

  /**
   * LoadWGLFunctions' scan. `addresses` are what the lookup returns for the
   * three entry points; each slot holds its address exactly when its
   * extension's name is a word of the string, and null otherwise. The scan
   * succeeds when no slot is null.
   */
  method ScanExtensions(ext: seq<uint8>, addresses: Entries) returns (slots: Entries, succeeded: bool)
    requires Nul !in ext && |ext| <= UINT32_MAX
    ensures slots.choosePixelFormat == Slot(HasWord(ext, PixelFormatName), addresses.choosePixelFormat)
    ensures slots.createContextAttribs == Slot(HasWord(ext, CreateContextName), addresses.createContextAttribs)
    ensures slots.swapInterval == Slot(HasWord(ext, SwapControlName), addresses.swapInterval)
    ensures succeeded <==> slots.choosePixelFormat != NullProc && slots.createContextAttribs != NullProc && slots.swapInterval != NullProc
  {
    slots := Entries(NullProc, NullProc, NullProc);
    var scan := 0;
    while At(ext, scan) != Nul
      invariant scan <= |ext| && (scan == 0 || scan == |ext| || ext[scan - 1] == Space)
      invariant FilledBefore(ext, scan, slots, addresses)
      decreases |ext| - scan
    {
      scan, slots := ScanWord(ext, scan, slots, addresses);
    }
    WordsBeforeEnd(ext, PixelFormatName);
    WordsBeforeEnd(ext, CreateContextName);
    WordsBeforeEnd(ext, SwapControlName);
    succeeded := slots.choosePixelFormat != NullProc && slots.createContextAttribs != NullProc && slots.swapInterval != NullProc;
  }
}
