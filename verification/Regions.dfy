/** Region lengths: page rounding and the defaults filled in at registration, with the
    64-bit size_t and the 32-bit int of the C code written out. */
module Regions {
  import opened Devices

  const PAGE_SIZE: nat := 0x1000
  const INT_LIMIT: nat := 0x8000_0000

  /** Conversion to a 32-bit int, which keeps the low bits. */
  function ToInt32(n: int): (r: int)
    ensures -(INT_LIMIT as int) <= r < INT_LIMIT
    ensures r == n - 2 * INT_LIMIT * ((n + INT_LIMIT) / (2 * INT_LIMIT))
  {
    (n + INT_LIMIT) % (2 * INT_LIMIT) - INT_LIMIT
  }

  function ToSize(n: int): Size {
    n % SIZE_LIMIT
  }

  function PageSizeAligned(i: Size): Size {
    if i % PAGE_SIZE == 0 then i else
    var lower := ToInt32(i / PAGE_SIZE);
    ToSize(PAGE_SIZE * ToInt32(lower + 1))
  }

  /** The first len: unset takes the page-aligned length; then an unset pa_len is computed. */
  function DefaultWindow(w: Window): Window {
    var len := if w.len == 0 then w.paLen else w.len;
    var paLen := if w.paLen == 0 then PageSizeAligned(ToSize(len + w.startOffset)) else w.paLen;
    Window(len, paLen, w.startOffset)
  }

  /** n is the least multiple of the page size that is at least i. */
  ghost predicate IsRoundedUp(n: int, i: int) {
    i <= n < i + PAGE_SIZE && n % PAGE_SIZE == 0
  }

  /** The number of pages, counted in an unbounded integer, that hold i bytes. */
  function Pages(i: nat): nat {
    (i + PAGE_SIZE - 1) / PAGE_SIZE
  }

  /** The page count survives its trip through a 32-bit int. */
  predicate PagesFitInt(i: Size) {
    i % PAGE_SIZE == 0 || Pages(i) < INT_LIMIT
  }

  /** A size that is not whole pages is rounded to the page count wrapped to 32 bits, a
      negative one standing for that many pages below the top of the address space. */
  lemma AlignedPages(i: Size) returns (pages: int, wraps: int)
    requires i % PAGE_SIZE != 0
    ensures 1 <= Pages(i) <= SIZE_LIMIT / PAGE_SIZE && IsRoundedUp(PAGE_SIZE * Pages(i), i)
    ensures Pages(i) == pages + wraps * (2 * INT_LIMIT) && -(INT_LIMIT as int) <= pages < INT_LIMIT
    ensures PageSizeAligned(i) == PAGE_SIZE * pages + (if pages < 0 then SIZE_LIMIT else 0)
    ensures 0 <= wraps <= SIZE_LIMIT / PAGE_SIZE / (2 * INT_LIMIT)
    ensures Pages(i) % (2 * INT_LIMIT) == pages + (if pages < 0 then 2 * INT_LIMIT else 0)
  {
    var lower := i / PAGE_SIZE;
    pages, wraps := ToInt32(lower + 1), (lower + 1 + INT_LIMIT) / (2 * INT_LIMIT);
    WrapTwice(lower);
    WrapCases(lower + 1);
  }

  lemma WrapTwice(n: int)
    ensures ToInt32(ToInt32(n) + 1) == ToInt32(n + 1)
  {
  }

  lemma WrapCases(n: int)
    requires 1 <= n <= SIZE_LIMIT / PAGE_SIZE
    ensures var wraps := (n + INT_LIMIT) / (2 * INT_LIMIT);
            0 <= wraps <= SIZE_LIMIT / PAGE_SIZE / (2 * INT_LIMIT) && n == ToInt32(n) + wraps * (2 * INT_LIMIT)
    ensures n % (2 * INT_LIMIT) == ToInt32(n) + (if ToInt32(n) < 0 then 2 * INT_LIMIT else 0)
    ensures ToSize(PAGE_SIZE * ToInt32(n)) == PAGE_SIZE * ToInt32(n) + (if ToInt32(n) < 0 then SIZE_LIMIT else 0)
  {
  }

  /** For which sizes the rounding is right: whole pages, fewer than 2^31 pages, and (by the
      product wrapping back) the topmost 2^31 page counts short of the whole address space. */
  lemma AlignedIsRoundedUp(i: Size)
    ensures IsRoundedUp(PageSizeAligned(i), i) <==>
            PagesFitInt(i) || (SIZE_LIMIT / PAGE_SIZE - INT_LIMIT <= Pages(i) < SIZE_LIMIT / PAGE_SIZE)
  {
    if i % PAGE_SIZE != 0 {
      var pages, wraps := AlignedPages(i);
      assert IsRoundedUp(PageSizeAligned(i), i) <==> PageSizeAligned(i) == PAGE_SIZE * Pages(i);
    }
  }

  /** The smallest size that goes wrong, one byte short of 2^31 pages: its page count becomes
      a negative int, and the result lands 2^43 bytes below the top of the address space. */
  lemma RoundingOverflows()
    ensures var i := INT_LIMIT * PAGE_SIZE - PAGE_SIZE + 1;
            && PageSizeAligned(i) == SIZE_LIMIT - INT_LIMIT * PAGE_SIZE && !IsRoundedUp(PageSizeAligned(i), i)
            && forall j: Size | j < i :: IsRoundedUp(PageSizeAligned(j), j)
  {
    var i := INT_LIMIT * PAGE_SIZE - PAGE_SIZE + 1;
    var pages, wraps := AlignedPages(i);
    forall j: Size | j < i ensures IsRoundedUp(PageSizeAligned(j), j) {
      AlignedIsRoundedUp(j);
    }
  }

  /** The bytes user space is given, relative to the start of the mapping, all lie in it. */
  predicate InsideMapping(w: Window) {
    w.startOffset + w.len <= w.paLen
  }

  /** When a default leaves the exposed bytes inside the mapping: a driver-set pa_len must
      cover them; a computed one does unless the sum overflows or the page count does. */
  predicate CoversAfterDefault(w: Window) {
    var len := if w.len == 0 then w.paLen else w.len;
    if w.paLen != 0 then w.startOffset + len <= w.paLen
    else
      var end := w.startOffset + len;
      end < SIZE_LIMIT && (PagesFitInt(end) || Pages(end) % (2 * INT_LIMIT) >= INT_LIMIT)
  }

  lemma DefaultCovers(w: Window)
    ensures InsideMapping(DefaultWindow(w)) <==> CoversAfterDefault(w)
    ensures w.paLen == 0 && w.startOffset + w.len < SIZE_LIMIT && PagesFitInt(w.startOffset + w.len) ==>
              InsideMapping(DefaultWindow(w)) && IsRoundedUp(DefaultWindow(w).paLen, w.startOffset + w.len)
  {
    var end := w.startOffset + w.len;
    if w.paLen == 0 && end < SIZE_LIMIT {
      assert DefaultWindow(w) == Window(w.len, PageSizeAligned(end), w.startOffset);
      AlignedCovers(end);
      AlignedIsRoundedUp(end);
    }
  }

  /** What registration makes of the lengths a driver gives: the offset stays, an unset length
      becomes that of the mapping, and an unset length of the mapping becomes the least page
      multiple holding offset and length (their sum as a size_t, where its pages fit an int). */
  ghost predicate Completes(w: Window, w': Window) {
    && w'.startOffset == w.startOffset
    && (w.len != 0 ==> w'.len == w.len)
    && (w.len == 0 ==> w'.len == w.paLen)
    && (w.paLen != 0 ==> w'.paLen == w.paLen)
    && (w.paLen == 0 && PagesFitInt((w.startOffset + w.len) % SIZE_LIMIT) ==>
          IsRoundedUp(w'.paLen, (w.startOffset + w.len) % SIZE_LIMIT))
  }

  lemma DefaultCompletes(w: Window)
    ensures Completes(w, DefaultWindow(w))
  {
    if w.paLen == 0 {
      var end := (w.startOffset + w.len) % SIZE_LIMIT;
      assert DefaultWindow(w) == Window(w.len, PageSizeAligned(end), w.startOffset);
      AlignedIsRoundedUp(end);
    }
  }

  lemma AlignedCovers(i: Size)
    ensures i <= PageSizeAligned(i) <==> PagesFitInt(i) || Pages(i) % (2 * INT_LIMIT) >= INT_LIMIT
  {
    if i % PAGE_SIZE != 0 {
      var pages, wraps := AlignedPages(i);
    }
  }

  /** Rounding yields nothing for nothing, and for page counts that wrap to zero. */
  lemma AlignedIsZero(i: Size)
    ensures PageSizeAligned(i) == 0 <==> i == 0 || (i % PAGE_SIZE != 0 && Pages(i) % (2 * INT_LIMIT) == 0)
  {
    if i % PAGE_SIZE != 0 {
      var pages, wraps := AlignedPages(i);
    }
  }

  /** Registering twice computes nothing new, except when length and pa_len are both unset
      and the offset alone was rounded to something. */
  lemma DefaultIdempotent(w: Window)
    ensures DefaultWindow(DefaultWindow(w)) == DefaultWindow(w) <==>
            !(w.len == 0 && w.paLen == 0 && w.startOffset != 0
              && (w.startOffset % PAGE_SIZE == 0 || Pages(w.startOffset) % (2 * INT_LIMIT) != 0))
  {
    if w.len == 0 && w.paLen == 0 {
      assert DefaultWindow(w) == Window(0, PageSizeAligned(w.startOffset), w.startOffset);
      AlignedIsZero(w.startOffset);
    }
  }
}
