/** Trimming an over-sized reservation to an aligned one with room in front of it. */
module Reserve {
  import opened Bytes
  import opened Memory

  datatype Regions = Regions(alignedPtr: nat, head: Option<(nat, nat)>, tail: Option<(nat, nat)>)

  function NextMultiple(x: nat, a: nat): nat
    requires a > 0
  {
    if x % a == 0 then x else x + (a - x % a)
  }

  /** compute_reserved_regions: where the request goes, and what to unmap before and behind it. */
  function Compute(ptr: nat, mapped: nat, len: nat, align: nat, room: nat): Regions
    requires align > 0
  {
    Trim(ptr, Up(ptr + mapped), NextMultiple(ptr + room, align), len, room)
  }

  /** The trims around an aligned pointer `p` in the pages `[ptr, mapEnd)`. */
  function Trim(ptr: nat, mapEnd: nat, p: nat, len: nat, room: nat): Regions {
    var roomStart := Down(if room <= p then p - room else 0);
    var tailStart := Up(p + len);
    Regions(p,
            if roomStart <= ptr then None else Some((ptr, roomStart - ptr)),
            if tailStart < mapEnd then Some((tailStart, mapEnd - tailStart)) else None)
  }

  ghost predicate IsMultiple(x: nat, a: nat) { exists q: nat :: x == q * a }

  lemma NextMultipleIs(x: nat, a: nat)
    requires a > 0
    ensures IsMultiple(NextMultiple(x, a), a) && x <= NextMultiple(x, a) < x + a
  {
    var d := x / a;
    assert x == d * a + x % a;
    if x % a == 0 {
      assert NextMultiple(x, a) == d * a;
    } else {
      assert NextMultiple(x, a) == d * a + a == (d + 1) * a;
    }
  }

  lemma MultipleOfMultiple(x: nat, w: nat, a: nat)
    requires IsMultiple(x, w) && IsMultiple(w, a)
    ensures IsMultiple(x, a)
  {
    var k: nat :| x == k * w;
    var q: nat :| w == q * a;
    Regroup(k, q, a);
    assert x == (k * q) * a;
  }

  lemma Regroup(k: nat, q: nat, a: nat)
    ensures k * (q * a) == (k * q) * a
  {
  }

  /** Multiples of a page multiple are page multiples. */
  lemma PageMultiple(x: nat, align: nat)
    requires align % PAGE == 0 && IsMultiple(x, align)
    ensures x % PAGE == 0
  {
    var q: nat :| x == q * align;
    var k := align / PAGE;
    assert align == k * PAGE;
    assert x == (q * k) * PAGE;
  }

  predicate In(range: Option<(nat, nat)>, x: int) {
    range.Some? && range.value.0 <= x < range.value.0 + range.value.1
  }

  ghost predicate PageAligned(range: Option<(nat, nat)>) {
    range.Some? ==> range.value.0 % PAGE == 0 && range.value.1 % PAGE == 0 && range.value.1 > 0
  }

  /** The request fits into the pages that were mapped. */
  predicate Fits(ptr: nat, mapped: nat, len: nat, align: nat, room: nat)
    requires align > 0
  {
    NextMultiple(ptr + room, align) + len <= Up(ptr + mapped)
  }

  /** The aligned pointer is a multiple of the alignment, hence of the page; it leaves the room, and
      costs at most one alignment less a page on top of the room in whole pages. */
  lemma Placement(ptr: nat, align: nat, room: nat) returns (p: nat)
    requires ptr % PAGE == 0 && align > 0 && align % PAGE == 0
    ensures p == NextMultiple(ptr + room, align) && IsMultiple(p, align) && p % PAGE == 0
    ensures ptr + room <= p < ptr + room + align && p + PAGE <= ptr + Up(room) + align
  {
    p := NextMultiple(ptr + room, align);
    NextMultipleIs(ptr + room, align);
    PageMultiple(p, align);
    PageSteps(ptr, p, align, room);
  }

  lemma PageSteps(ptr: nat, p: nat, align: nat, room: nat)
    requires ptr % PAGE == 0 && p % PAGE == 0 && align % PAGE == 0 && p < ptr + room + align
    ensures p + PAGE <= ptr + Up(room) + align
  {
    PageBounds(room);
  }

  ghost predicate Parted(r: Regions, ptr: nat, end: nat, lo: nat, hi: nat) {
    && PageAligned(r.head) && PageAligned(r.tail) && lo % PAGE == 0 && hi % PAGE == 0
    && (forall x :: ptr <= x < end <==> In(r.head, x) || lo <= x < hi || In(r.tail, x))
    && (forall x ::
          !(In(r.head, x) && lo <= x < hi) && !(In(r.tail, x) && lo <= x < hi) && !(In(r.head, x) && In(r.tail, x)))
  }

  /** Head trim, kept range and tail trim are page-aligned and partition the mapped pages; the kept
      range holds the request with its room in front, and less than a page of slack at either side. */
  lemma Partition(ptr: nat, mapped: nat, len: nat, align: nat, room: nat) returns (lo: nat, hi: nat)
    requires ptr % PAGE == 0 && align > 0 && align % PAGE == 0 && Fits(ptr, mapped, len, align, room)
    ensures var r := Compute(ptr, mapped, len, align, room);
      && IsMultiple(r.alignedPtr, align) && ptr + room <= r.alignedPtr
      && Parted(r, ptr, Up(ptr + mapped), lo, hi)
      && lo <= r.alignedPtr - room < lo + PAGE && hi - PAGE < r.alignedPtr + len <= hi
  {
    var p := Placement(ptr, align, room);
    PageBounds(ptr + mapped);
    lo, hi := TrimParts(ptr, Up(ptr + mapped), p, len, room);
  }

  /** A request of whole pages with the length the callers map: whatever address comes back, it fits, and the
      kept range ends with it. */
  lemma WholePages(ptr: nat, span: nat, align: nat, room: nat) returns (lo: nat, hi: nat)
    requires ptr % PAGE == 0 && align >= PAGE && align % PAGE == 0 && span % PAGE == 0
    ensures var mapped := Mapped(span, align, room); var r := Compute(ptr, mapped, span, align, room);
      && IsMultiple(r.alignedPtr, align) && r.alignedPtr % PAGE == 0 && Parted(r, ptr, Up(ptr + mapped), lo, hi)
      && lo + room <= r.alignedPtr && r.alignedPtr + span == hi
  {
    RoundSeparately(span, room);
    FitsAt(ptr, span, align, room);
    lo, hi := Partition(ptr, Mapped(span, align, room), span, align, room);
    var p := Compute(ptr, Mapped(span, align, room), span, align, room).alignedPtr;
    PageMultiple(p, align);
    NoSlack(p, span, hi);
  }

  lemma NoSlack(p: nat, span: nat, hi: nat)
    requires p % PAGE == 0 && span % PAGE == 0 && hi % PAGE == 0 && hi - PAGE < p + span <= hi
    ensures p + span == hi
  {
  }

  lemma TrimParts(ptr: nat, end: nat, p: nat, len: nat, room: nat) returns (lo: nat, hi: nat)
    requires ptr % PAGE == 0 && end % PAGE == 0 && ptr + room <= p && p + len <= end
    ensures Parted(Trim(ptr, end, p, len, room), ptr, end, lo, hi)
    ensures lo <= p - room < lo + PAGE && hi - PAGE < p + len <= hi
  {
    lo, hi := Kept(ptr, end, p - room, p + len);
    Trims(ptr, end, lo, hi, p);
  }

  lemma Kept(ptr: nat, end: nat, from: nat, to: nat) returns (lo: nat, hi: nat)
    requires ptr <= from <= to <= end && ptr % PAGE == 0 && end % PAGE == 0
    ensures lo == Down(from) && hi == Up(to) && ptr <= lo && hi <= end && lo % PAGE == 0 && hi % PAGE == 0
    ensures lo <= from < lo + PAGE && hi - PAGE < to <= hi
  {
    lo, hi := Down(from), Up(to);
  }

  lemma Trims(ptr: nat, end: nat, lo: nat, hi: nat, p: nat)
    requires ptr <= lo <= p <= hi <= end && ptr % PAGE == 0 && end % PAGE == 0 && lo % PAGE == 0 && hi % PAGE == 0
    ensures Parted(Regions(p, if lo <= ptr then None else Some((ptr, lo - ptr)),
                           if hi < end then Some((hi, end - hi)) else None),
                   ptr, end, lo, hi)
  {
  }

  /** The length the callers map: the request, the worst misalignment, and the room. */
  function Mapped(len: nat, align: nat, room: nat): nat
    requires align >= PAGE
  {
    len + (align - PAGE) + room
  }

  /** With the length the callers map, the request fits for every address the kernel may return exactly
      when rounding the room and the request up separately costs no extra page; in particular whenever
      the request is a whole number of pages, which it always is for the loader. */
  lemma FitsIff(len: nat, align: nat, room: nat)
    requires align > 0 && align % PAGE == 0
    ensures (forall ptr: nat :: ptr % PAGE == 0 ==> Fits(ptr, Mapped(len, align, room), len, align, room))
            <==> Up(room) + len <= Up(len + room)
    ensures len % PAGE == 0 || room % PAGE == 0 ==> Up(room) + len <= Up(len + room)
  {
    forall ptr: nat | ptr % PAGE == 0 && Up(room) + len <= Up(len + room)
      ensures Fits(ptr, Mapped(len, align, room), len, align, room)
    {
      FitsAt(ptr, len, align, room);
    }
    if Up(room) + len > Up(len + room) {
      var ptr := FitsNot(len, align, room);
    }
    RoundSeparately(len, room);
  }

  lemma RoundSeparately(len: nat, room: nat)
    ensures len % PAGE == 0 || room % PAGE == 0 ==> Up(room) + len <= Up(len + room)
  {
    if len % PAGE == 0 { RoundShift(len, room); }
    if room % PAGE == 0 { RoundShift(room, len); PageBounds(len); PageBounds(room); }
  }

  lemma FitsAt(ptr: nat, len: nat, align: nat, room: nat)
    requires ptr % PAGE == 0 && align > 0 && align % PAGE == 0 && Up(room) + len <= Up(len + room)
    ensures Fits(ptr, Mapped(len, align, room), len, align, room)
  {
    var p := Placement(ptr, align, room);
    Sized(ptr, len, align, room, p);
  }

  lemma Sized(ptr: nat, len: nat, align: nat, room: nat, p: nat)
    requires ptr % PAGE == 0 && align >= PAGE && align % PAGE == 0 && Up(room) + len <= Up(len + room)
    requires p + PAGE <= ptr + Up(room) + align
    ensures p + len <= Up(ptr + Mapped(len, align, room))
  {
    RoundShift(ptr + (align - PAGE), len + room);
    assert ptr + Mapped(len, align, room) == (ptr + (align - PAGE)) + (len + room);
  }

  lemma FitsNot(len: nat, align: nat, room: nat) returns (ptr: nat)
    requires align > 0 && align % PAGE == 0 && Up(room) + len > Up(len + room)
    ensures ptr % PAGE == 0 && !Fits(ptr, Mapped(len, align, room), len, align, room)
  {
    ptr := Worst(align, room);
    Oversized(ptr, len, align, room, NextMultiple(ptr + room, align));
  }

  lemma Oversized(ptr: nat, len: nat, align: nat, room: nat, p: nat)
    requires ptr % PAGE == 0 && align >= PAGE && align % PAGE == 0 && Up(room) + len > Up(len + room)
    requires p + PAGE == ptr + Up(room) + align
    ensures p + len > Up(ptr + Mapped(len, align, room))
  {
    RoundShift(ptr + (align - PAGE), len + room);
    assert ptr + Mapped(len, align, room) == (ptr + (align - PAGE)) + (len + room);
  }

  lemma RoundShift(a: nat, b: nat)
    requires a % PAGE == 0
    ensures Up(a + b) == a + Up(b)
  {
  }

  /** An address for which the alignment costs as much as it can. */
  lemma Worst(align: nat, room: nat) returns (ptr: nat)
    requires align > 0 && align % PAGE == 0
    ensures ptr % PAGE == 0 && NextMultiple(ptr + room, align) + PAGE == ptr + Up(room) + align
  {
    var far;
    far, ptr := WorstPointer(align, room);
    var p := Placement(ptr, align, room);
    WorstAt(far, align, room, ptr, p);
  }

  lemma WorstPointer(align: nat, room: nat) returns (far: nat, ptr: nat)
    requires align > 0 && align % PAGE == 0
    ensures IsMultiple(far, align) && ptr == far + PAGE - Up(room) && ptr % PAGE == 0
  {
    far := Far(align, Up(room));
    PageMultiple(far, align);
    PageBounds(room);
    ptr := far + PAGE - Up(room);
  }

  lemma WorstAt(far: nat, align: nat, room: nat, ptr: nat, p: nat)
    requires ptr == far + PAGE - Up(room) && IsMultiple(far, align) && IsMultiple(p, align)
    requires ptr + room <= p && p + PAGE <= ptr + Up(room) + align
    ensures p + PAGE == ptr + Up(room) + align
  {
    Above(far, room, ptr, p);
    NoneBetween(p, far, align);
  }

  lemma Far(a: nat, n: nat) returns (far: nat)
    requires a > 0
    ensures IsMultiple(far, a) && far >= n
  {
    far := n * a;
    Grow(1, a, n);
  }

  lemma Above(far: nat, room: nat, ptr: nat, p: nat)
    requires ptr == far + PAGE - Up(room) && ptr + room <= p
    ensures p > far
  {
    PageBounds(room);
  }

  /** The next multiple of `a` is at least `a` further. */
  lemma NoneBetween(p: nat, far: nat, a: nat)
    requires IsMultiple(p, a) && IsMultiple(far, a) && p > far
    ensures p >= far + a
  {
    var q: nat :| p == q * a;
    var k: nat :| far == k * a;
    MultiplesInOrder(q, k, a);
  }

  lemma MultiplesInOrder(q: nat, k: nat, a: nat)
    requires q * a > k * a
    ensures q * a >= k * a + a
  {
    if q <= k { Grow(q, k, a); } else { Grow(k + 1, q, a); }
  }

  lemma Grow(i: nat, j: nat, a: nat)
    requires i <= j
    ensures i * a <= j * a && a * i <= a * j
  {
    assert (j - i) * a >= 0;
    assert j * a == i * a + (j - i) * a;
  }
}
