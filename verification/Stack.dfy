/** Stack allocation: the size computed for a request, the guard page, and the region that is mapped and released.

    Mapping, protecting and unmapping memory are assumed steps on a table of pages; where the system places a
    mapping and whether it refuses are parameters. */
module Stack {
  import opened Arithmetic
  import opened Wrappers

  // ---- Rounding by masking ----

  /** Bitwise `n & !m`. */
  function AndNot(n: nat, m: nat): nat {
    if n == 0 then 0 else 2 * AndNot(n / 2, m / 2) + if n % 2 == 1 && m % 2 == 0 then 1 else 0
  }

  lemma {:induction false} AndNotNothing(n: nat)
    ensures AndNot(n, 0) == n
  {
    if n > 0 {
      AndNotNothing(n / 2);
    }
  }

  function RoundDown(n: nat, p: nat): nat
    requires p > 0
  {
    n / p * p
  }

  lemma QuotientOfHalf(n: nat, p: nat, q: nat, r: nat)
    requires p > 0 && n / 2 == p * q + r && r < p
    ensures n / (2 * p) == q
  {
    var rest := 2 * r + n % 2;
    assert n == 2 * (p * q + r) + n % 2 == 2 * p * q + rest;
    MultipleHasNoRest(2 * p, q, rest);
  }

  lemma HalfAndRest(n: nat, p: nat)
    requires p > 0
    ensures 2 * RoundDown(n / 2, p) == RoundDown(n, 2 * p)
  {
    var q := n / 2 / p;
    QuotientOfHalf(n, p, q, n / 2 % p);
    assert 2 * (q * p) == q * (2 * p);
  }

  lemma AndNotOdd(n: nat, p: nat)
    requires p > 0
    ensures AndNot(n, 2 * p - 1) == 2 * AndNot(n / 2, p - 1)
  {
    assert (2 * p - 1) / 2 == p - 1 && (2 * p - 1) % 2 == 1;
  }

  lemma MaskStep(n: nat, p: nat)
    requires p > 0 && AndNot(n / 2, p - 1) == RoundDown(n / 2, p)
    ensures AndNot(n, 2 * p - 1) == RoundDown(n, 2 * p)
  {
    AndNotOdd(n, p);
    HalfAndRest(n, p);
  }

  /** Clearing the bits below a power of two rounds down to a multiple of it. */
  lemma {:induction false} MaskRoundsDown(n: nat, bits: nat)
    ensures AndNot(n, Pow2(bits) - 1) == RoundDown(n, Pow2(bits))
    decreases bits
  {
    if bits == 0 {
      AndNotNothing(n);
    } else {
      MaskRoundsDown(n / 2, bits - 1);
      MaskStep(n, Pow2(bits - 1));
    }
  }

  // ---- Sizes ----

  /** The least number of pages that holds so many bytes. */
  function Pages(n: nat, page: nat): nat
    requires page > 0
  {
    (n + page - 1) / page
  }

  lemma PagesIsLeast(n: nat, page: nat)
    requires page > 0
    ensures n <= Pages(n, page) * page < n + page
  {
    var q := Pages(n, page);
    assert n + page - 1 == page * q + (n + page - 1) % page;
  }

  /** The size to map for a request; none when it overflows or exceeds the maximum. */
  function TotalSize(request: nat, protected: bool, page: nat, max: nat): Option<nat>
    requires page > 0
  {
    var add := if protected then page * 2 else page;
    var size := if request < page then page else request;
    var total := AndNot(size - 1, page - 1) + add;
    if total < WORD && total <= max then Some(total) else None
  }

  lemma OnePageMore(size: nat, page: nat)
    requires size > 0 && page > 0
    ensures RoundDown(size - 1, page) + page == Pages(size, page) * page
  {
    var q, t := (size - 1) / page, (size - 1) % page;
    assert size + page - 1 == page * (q + 1) + t;
    MultipleHasNoRest(page, q + 1, t);
    Distribute(q, page);
  }

  lemma MaskedPages(size: nat, bits: nat)
    requires size > 0
    ensures AndNot(size - 1, Pow2(bits) - 1) + Pow2(bits) == Pages(size, Pow2(bits)) * Pow2(bits)
  {
    MaskRoundsDown(size - 1, bits);
    OnePageMore(size, Pow2(bits));
  }

  lemma Distribute(q: nat, page: nat)
    ensures (q + 1) * page == q * page + page
  {
  }

  /** Without the guard page the size is the request, at least one page, rounded up to whole pages; a request is
      accepted exactly when that and the guard page stay within the maximum. */
  lemma TotalIsRoundedUp(request: nat, protected: bool, bits: nat, max: nat)
    requires max < WORD
    ensures var page := Pow2(bits);
            var total := Pages(Max(request, page), page) * page + if protected then page else 0;
            TotalSize(request, protected, page, max) == if total <= max then Some(total) else None
  {
    MaskedPages(Max(request, Pow2(bits)), bits);
  }

  // ---- Mapping and releasing ----

  datatype Access = ReadWrite | NoAccess

  datatype SysStack = SysStack(top: nat, bottom: nat)

  /** The pages of a region, by number. */
  function Region(first: nat, count: nat): (r: set<nat>)
    ensures forall p :: p in r <==> first <= p < first + count
  {
    if count == 0 then {} else Region(first, count - 1) + {first + count - 1}
  }

  function Filled(region: set<nat>, access: Access): map<nat, Access> {
    map p | p in region :: access
  }

  /** Page by page: the lowest page of a new region may not be touched, the others may be read and written, and all
      pages outside it are as they were. */
  lemma GuardedPages(pages: map<nat, Access>, at: nat, count: nat, p: nat)
    requires count > 0
    ensures var now := pages + Filled(Region(at, count), ReadWrite) + Filled({at}, NoAccess);
            && (p == at ==> p in now && now[p] == NoAccess)
            && (at < p < at + count ==> p in now && now[p] == ReadWrite)
            && (p < at || at + count <= p ==> (p in now <==> p in pages) && (p in pages ==> now[p] == pages[p]))
  {
    assert at in Region(at, count);
  }

  /** The capacity of a stack in words. */
  function Words(s: SysStack): nat {
    if s.bottom <= s.top then (s.top - s.bottom) / 8 else 0
  }

  lemma SameUsable(request: nat, page: nat)
    requires page > 0
    ensures Max(Max(request, page), page) == Max(request, page)
  {
  }

  lemma SpanOfPages(page: nat, first: nat, count: nat)
    ensures page * (first + count) - page * first == count * page
  {
  }

  class AddressSpace {
    const page: nat
    const max: nat
    var pages: map<nat, Access>

    ghost const bits: nat

    ghost predicate Valid()
      reads this
    {
      page == Pow2(bits) && max < WORD
    }

    /** The pages of the usable part of a stack. */
    function Usable(request: nat): nat
      requires page > 0
    {
      Pages(Max(request, page), page)
    }

    constructor (bits: nat, page: nat, max: nat)
      requires page == Pow2(bits) && max < WORD
      ensures Valid() && pages == map[]
    {
      this.bits := bits;
      this.page := page;
      this.max := max;
      pages := map[];
    }

    /** Gives whole pages one kind of access. */
    method SetAccess(ptr: nat, size: nat, access: Access)
      requires Valid() && ptr % page == 0 && size % page == 0
      modifies this`pages
      ensures pages == old(pages) + Filled(Region(ptr / page, size / page), access)
    {
      pages := pages + Filled(Region(ptr / page, size / page), access);
    }

    method Unmap(ptr: nat, size: nat)
      requires Valid() && ptr % page == 0 && size % page == 0
      modifies this`pages
      ensures pages == old(pages) - Region(ptr / page, size / page)
    {
      pages := pages - Region(ptr / page, size / page);
    }

    /** Maps a stack with a guard page below it.  The system places the mapping on free pages from `at` on, or
        refuses; it may also refuse the guard page, and then the mapping stays behind. */
    method Allocate(request: nat, at: Option<nat>, granted: bool) returns (r: Option<SysStack>)
      requires Valid()
      requires at.Some? ==> pages.Keys !! Region(at.value, Usable(request) + 1)
      modifies this`pages
      ensures r.Some? <==> Usable(request) * page + page <= max && at.Some? && granted
      ensures r.Some? ==> r.value.bottom == page * (at.value + 1)
      ensures r.Some? ==> r.value.top == page * (at.value + 1 + Usable(request))
      ensures r.Some? ==> pages == old(pages) + Filled(Region(at.value, Usable(request) + 1), ReadWrite)
                                   + Filled({at.value}, NoAccess)
      ensures r.Some? ==>
                && (forall p :: at.value < p <= at.value + Usable(request) ==> p in pages && pages[p] == ReadWrite)
                && at.value in pages && pages[at.value] == NoAccess
      ensures !(Usable(request) * page + page <= max && at.Some?) ==> pages == old(pages)
      ensures Usable(request) * page + page <= max && at.Some? && !granted ==>
                pages == old(pages) + Filled(Region(at.value, Usable(request) + 1), ReadWrite)
    {
      var total := TotalSize(request, true, page, max);
      TotalIsRoundedUp(request, true, bits, max);
      if total.None? || at.None? {
        return None;
      }
      Distribute(Usable(request), page);
      r := MapAndProtect(total.value, at.value, granted, Usable(request) + 1);
      forall p
        ensures r.Some? && at.value <= p <= at.value + Usable(request) ==>
                  p in pages && pages[p] == if p == at.value then NoAccess else ReadWrite
      {
        if p >= 0 {
          GuardedPages(old(pages), at.value, Usable(request) + 1, p);
        }
      }
    }

    /** The mapping, and then the guard page taken off its low end. */
    method MapAndProtect(total: nat, at: nat, granted: bool, ghost count: nat) returns (r: Option<SysStack>)
      requires Valid() && count > 0 && total == count * page
      modifies this`pages
      ensures r.Some? <==> granted
      ensures r.Some? ==> r.value.bottom == page * (at + 1) && r.value.top == page * (at + count)
      ensures r.Some? ==> pages == old(pages) + Filled(Region(at, count), ReadWrite) + Filled({at}, NoAccess)
      ensures r.None? ==> pages == old(pages) + Filled(Region(at, count), ReadWrite)
    {
      WholePages(page, at, count);
      var ptr := page * at;
      SetAccess(ptr, total, ReadWrite);
      if !granted {
        return None;
      }
      SetAccess(ptr, page, NoAccess);
      GuardRegion(at);
      r := Some(SysStack(ptr + total, ptr + page));
    }

    /** `Stack::new` in words of eight bytes; none is a panic, also of a product beyond a machine word.  The capacity
        that `size` reports is at least the words asked for, and less than a page more unless a page was the least. */
    method NewStack(words: nat, at: Option<nat>, granted: bool) returns (r: Option<SysStack>)
      requires Valid()
      requires at.Some? ==> pages.Keys !! Region(at.value, Usable(words * 8) + 1)
      modifies this`pages
      ensures r.Some? <==>
                words * 8 <= USIZE_MAX && Usable(words * 8) * page + page <= max && at.Some? && granted
      ensures r.Some? ==> r.value.bottom == page * (at.value + 1)
      ensures r.Some? ==> r.value.top == page * (at.value + 1 + Usable(words * 8))
      ensures r.Some? ==> words <= Words(r.value) && Words(r.value) * 8 < Max(words * 8, page) + page
    {
      if words * 8 > USIZE_MAX {
        return None;
      }
      var bytes := Max(words * 8, page);
      SameUsable(words * 8, page);
      r := Allocate(bytes, at, granted);
      if r.Some? {
        PagesIsLeast(bytes, page);
        SpanOfPages(page, at.value + 1, Usable(bytes));
      }
    }

    /** Releases the pages of a stack and the guard page below it. */
    method Release(s: SysStack, ghost first: nat, ghost count: nat)
      requires Valid() && s.bottom == page * (first + 1) && s.top == page * (first + 1 + count)
      modifies this`pages
      ensures pages == if count == 0 then old(pages) else old(pages) - Region(first, count + 1)
    {
      var len := s.top - s.bottom;
      ReleasedPages(page, first, count);
      if len == 0 {
        return;
      }
      Unmap(s.bottom - page, len + page);
    }
  }

  lemma WholePages(page: nat, first: nat, count: nat)
    requires page > 0 && count > 0
    ensures (count - 1) * page + page == page * count
    ensures page * count % page == 0 && page * count / page == count
    ensures page * first % page == 0 && page * first / page == first
    ensures page % page == 0 && page / page == 1
    ensures page * (first + 1) == page * first + page
    ensures page * (first + count) == page * first + page * count
  {
    MultipleHasNoRest(page, count, 0);
    MultipleHasNoRest(page, first, 0);
    MultipleHasNoRest(page, 1, 0);
  }

  lemma ReleasedPages(page: nat, first: nat, count: nat)
    requires page > 0
    ensures page * (first + 1 + count) - page * (first + 1) == page * count
    ensures page * count == 0 <==> count == 0
    ensures page * (first + 1) - page == page * first && page * count + page == page * (count + 1)
    ensures page * first % page == 0 && page * first / page == first
    ensures page * (count + 1) % page == 0 && page * (count + 1) / page == count + 1
  {
    MultipleHasNoRest(page, first, 0);
    MultipleHasNoRest(page, count + 1, 0);
  }

  lemma GuardRegion(first: nat)
    ensures Region(first, 1) == {first}
  {
  }

  lemma OutAndBack(pages: map<nat, Access>, region: set<nat>, guard: nat)
    requires pages.Keys !! region && guard in region
    ensures pages + Filled(region, ReadWrite) + Filled({guard}, NoAccess) - region == pages
  {
  }

  /** Releasing a stack gives back exactly the pages that were mapped for it. */
  method AllocateAndRelease(m: AddressSpace, request: nat, at: Option<nat>, granted: bool) returns (ok: bool)
    requires m.Valid()
    requires at.Some? ==> m.pages.Keys !! Region(at.value, m.Usable(request) + 1)
    modifies m
    ensures ok <==> m.Usable(request) * m.page + m.page <= m.max && at.Some? && granted
    ensures ok ==> m.pages == old(m.pages)
  {
    var s := m.Allocate(request, at, granted);
    if s.None? {
      return false;
    }
    PagesIsLeast(Max(request, m.page), m.page);
    m.Release(s.value, at.value, m.Usable(request));
    OutAndBack(old(m.pages), Region(at.value, m.Usable(request) + 1), at.value);
    ok := true;
  }
}
