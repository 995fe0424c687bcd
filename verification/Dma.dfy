/** Scatter lists of DMA segments, the page lists they expand to, and when either is one linear range. */
module Dma {
  import opened Words
  import opened Wrappers
  import opened Arith

  datatype Segment = Segment(address: u64, length: u64)

  datatype CoverageStatus = Ok | Empty | ZeroLength | AddressOverflow | ByteCountOverflow | Truncated | Overrun

  /** The bytes of the first `k` segments. */
  function SumTo(segs: seq<Segment>, k: nat): nat
    requires k <= |segs|
  {
    if k == 0 then 0 else SumTo(segs, k - 1) + segs[k - 1].length
  }

  function Sum(segs: seq<Segment>): nat { SumTo(segs, |segs|) }

  lemma {:induction false} SumGrows(segs: seq<Segment>, i: nat, k: nat)
    requires i <= k <= |segs|
    ensures SumTo(segs, i) <= SumTo(segs, k)
  {
    if i < k { SumGrows(segs, i, k - 1); }
  }

  predicate SegmentOk(s: Segment) { s.length != 0 && s.address + s.length - 1 <= MAX64 }

  /** The segments exist in the address space and hold exactly the bytes asked for. */
  predicate Covers(segs: seq<Segment>, requested: u64)
  {
    segs != [] && (forall i :: 0 <= i < |segs| ==> SegmentOk(segs[i])) && Sum(segs) == requested
  }

  /** The first thing wrong with segment `i` when the ones before it are sound. */
  function Fault(segs: seq<Segment>, i: nat): CoverageStatus
    requires i < |segs|
  {
    if segs[i].length == 0 then ZeroLength
    else if !SegmentOk(segs[i]) then AddressOverflow
    else if SumTo(segs, i + 1) > MAX64 then ByteCountOverflow
    else Ok
  }

  /** Sums the segments, stopping at the first one that cannot be used. */
  method ValidateDmaSegments(segs: seq<Segment>, requested: u64) returns (status: CoverageStatus, covered: u64)
    ensures status == Ok <==> Covers(segs, requested)
    ensures status == Empty <==> segs == []
    ensures status in {ZeroLength, AddressOverflow, ByteCountOverflow} ==>
              exists i :: 0 <= i < |segs| && Fault(segs, i) == status && (forall k :: 0 <= k < i ==> Fault(segs, k) == Ok)
                          && covered == SumTo(segs, i)
    ensures status in {Ok, Truncated, Overrun} ==>
              covered == Sum(segs) && (forall i :: 0 <= i < |segs| ==> Fault(segs, i) == Ok)
    ensures status == Truncated ==> covered < requested
    ensures status == Overrun ==> covered > requested
  {
    hide SumTo;
    covered := 0;
    SumStarts(segs);
    if segs == [] {
      return Empty, covered;
    }
    for i := 0 to |segs|
      invariant covered == SumTo(segs, i) <= MAX64
      invariant forall k :: 0 <= k < i ==> Fault(segs, k) == Ok
    {
      var s := segs[i];
      SumStep(segs, i);
      SumGrows(segs, i + 1, |segs|);
      if s.length == 0 {
        assert Fault(segs, i) == ZeroLength;
        return ZeroLength, covered;
      }
      if s.address > MAX64 - (s.length - 1) {
        assert Fault(segs, i) == AddressOverflow;
        return AddressOverflow, covered;
      }
      if covered > MAX64 - s.length {
        assert Fault(segs, i) == ByteCountOverflow;
        return ByteCountOverflow, covered;
      }
      covered := covered + s.length;
    }
    forall i | 0 <= i < |segs| ensures SegmentOk(segs[i]) { assert Fault(segs, i) == Ok; }
    status := if covered < requested then Truncated else if covered > requested then Overrun else Ok;
  }

  lemma SumStarts(segs: seq<Segment>)
    ensures SumTo(segs, 0) == 0
  {
  }

  lemma SumStep(segs: seq<Segment>, i: nat)
    requires i < |segs|
    ensures SumTo(segs, i + 1) == SumTo(segs, i) + segs[i].length
  {
  }

  // ---- One linear range ----

  datatype LinearStatus = LinearOk | CoverageError | AddressDiscontinuity

  datatype LinearRange = LinearRange(status: LinearStatus, address: u64, length: u64)

  /** Each segment starts where the one before it ends. */
  predicate Contiguous(segs: seq<Segment>)
  {
    forall i :: 1 <= i < |segs| ==> Adjoins(segs, i)
  }

  predicate Adjoins(segs: seq<Segment>, i: nat)
    requires 1 <= i < |segs|
  {
    segs[i].address == segs[i - 1].address + segs[i - 1].length
  }

  method ResolveLinearDmaRange(segs: seq<Segment>, requested: u64) returns (out: LinearRange)
    ensures out == if !Covers(segs, requested) then LinearRange(CoverageError, 0, 0)
                   else if !Contiguous(segs) then LinearRange(AddressDiscontinuity, 0, 0)
                   else LinearRange(LinearOk, segs[0].address, requested)
  {
    hide SumTo;
    var status, covered := ValidateDmaSegments(segs, requested);
    if status != Ok || covered != requested {
      return LinearRange(CoverageError, 0, 0);
    }
    for i := 1 to |segs|
      invariant forall k :: 1 <= k < i ==> Adjoins(segs, k)
    {
      var previous := segs[i - 1];
      if previous.address > MAX64 - previous.length || segs[i].address != previous.address + previous.length {
        assert !Adjoins(segs, i);
        return LinearRange(AddressDiscontinuity, 0, 0);
      }
    }
    out := LinearRange(LinearOk, segs[0].address, requested);
  }

  // ---- Pages ----

  datatype PageMapStatus =
    | MapOk
    | InvalidPageSize
    | RequestedSizeNotPageAligned
    | MapCoverageError
    | SegmentAddressUnaligned
    | SegmentLengthUnaligned

  datatype PageMap = PageMap(status: PageMapStatus, pages: seq<u64>)

  function And64(a: u64, b: u64): (r: u64)
  {
    Pow2Of64();
    Bitwise(And, 64, a, b)
  }

  /** A page size as the source tests it. */
  predicate PageSize(p: u64) { p != 0 && And64(p, p - 1) == 0 }

  lemma {:induction false} AndSelf(n: nat, x: nat)
    requires x < Pow2(n)
    ensures Bitwise(And, n, x, x) == x
  {
    if n > 0 { AndSelf(n - 1, x / 2); }
  }

  ghost predicate IsPowerOfTwo(x: nat) { exists k: nat :: Pow2(k) == x }

  lemma OddIsNoPower(p: nat, k: nat)
    requires p % 2 == 1 && p > 1
    ensures Pow2(k) != p
  {
  }

  lemma HalfPower(p: nat)
    requires p > 0 && p % 2 == 0
    ensures IsPowerOfTwo(p) <==> IsPowerOfTwo(p / 2)
  {
    if IsPowerOfTwo(p) {
      var k: nat :| Pow2(k) == p;
      assert Pow2(k - 1) == p / 2;
    } else if IsPowerOfTwo(p / 2) {
      var k: nat :| Pow2(k) == p / 2;
      assert Pow2(k + 1) == p;
    }
  }

  /** The mask test `p & (p - 1)` passes exactly on powers of two. */
  lemma {:induction false} MaskTest(n: nat, p: nat)
    requires 0 < p < Pow2(n)
    ensures Bitwise(And, n, p, p - 1) == 0 <==> IsPowerOfTwo(p)
  {
    hide IsPowerOfTwo;
    Unfold(And, n, p, p - 1);
    if p == 1 {
      OneIsPower();
      ZeroAnd(n - 1);
    } else if p % 2 == 1 {
      AndSelf(n - 1, p / 2);
      OddIsNone(p);
    } else {
      MaskTest(n - 1, p / 2);
      HalfPower(p);
    }
  }

  lemma OneIsPower()
    ensures IsPowerOfTwo(1)
  {
    assert Pow2(0) == 1;
  }

  lemma OddIsNone(p: nat)
    requires p % 2 == 1 && p > 1
    ensures !IsPowerOfTwo(p)
  {
    forall k: nat ensures Pow2(k) != p { OddIsNoPower(p, k); }
  }

  lemma {:induction false} ZeroAnd(n: nat)
    ensures Bitwise(And, n, 0, 0) == 0
  {
    if n > 0 { ZeroAnd(n - 1); }
  }

  lemma PageSizesArePowersOfTwo(p: u64)
    ensures PageSize(p) <==> IsPowerOfTwo(p)
  {
    hide Bitwise, Pow2;
    Pow2Of64();
    if p != 0 {
      MaskTest(64, p);
    } else {
      forall k: nat ensures Pow2(k) != p {}
    }
  }

  lemma PageSize4K()
    ensures PageSize(0x1000)
  {
    assert Pow2(12) == 0x1000;
    hide Pow2, And64;
    PageSizesArePowersOfTwo(0x1000);
  }

  predicate Aligned(s: Segment, p: u64)
    requires p > 0
  {
    s.address % p == 0 && s.length % p == 0
  }

  predicate AllAligned(segs: seq<Segment>, p: u64)
    requires p > 0
  {
    forall i :: 0 <= i < |segs| ==> Aligned(segs[i], p)
  }

  /** The first `n` page addresses of a segment. */
  function Run(address: u64, p: u64, n: nat): (r: seq<u64>)
    requires p > 0 && (n > 0 ==> address + (n - 1) * p <= MAX64)
    ensures |r| == n
  {
    if n == 0 then []
    else
      RunBound(address, p, n);
      Run(address, p, n - 1) + [address + (n - 1) * p]
  }

  lemma RunBound(address: u64, p: u64, n: nat)
    requires p > 0 && n > 0 && address + (n - 1) * p <= MAX64
    ensures 0 <= (n - 1) * p && (n > 1 ==> address + (n - 2) * p <= MAX64)
  {
    MulMono(0, n - 1, p);
    if n > 1 { MulMono(n - 2, n - 1, p); }
  }

  lemma {:induction false} RunAt(address: u64, p: u64, n: nat, i: nat)
    requires p > 0 && i < n && address + (n - 1) * p <= MAX64
    ensures Run(address, p, n)[i] == address + i * p
  {
    RunBound(address, p, n);
    if i < n - 1 { RunAt(address, p, n - 1, i); }
  }

  /** How many pages an aligned segment has, and that its last page lies in the address space. */
  lemma SegmentPages(s: Segment, p: u64)
    requires p > 0 && SegmentOk(s) && Aligned(s, p)
    ensures s.length / p > 0 && s.length / p * p == s.length
    ensures s.address + (s.length / p - 1) * p == s.address + s.length - p <= MAX64
  {
    var n := s.length / p;
    assert s.length == n * p;
    assert (n - 1) * p == n * p - p;
    if n <= 0 { MulMono(n, 0, p); }
  }

  /** The pages of the first `k` segments. */
  function PagesTo(segs: seq<Segment>, p: u64, k: nat): seq<u64>
    requires p > 0 && k <= |segs|
    requires forall i :: 0 <= i < |segs| ==> SegmentOk(segs[i]) && Aligned(segs[i], p)
  {
    if k == 0 then []
    else
      SegmentPages(segs[k - 1], p);
      PagesTo(segs, p, k - 1) + Run(segs[k - 1].address, p, segs[k - 1].length / p)
  }

  lemma {:induction false} PageCount(segs: seq<Segment>, p: u64, k: nat)
    requires p > 0 && k <= |segs|
    requires forall i :: 0 <= i < |segs| ==> SegmentOk(segs[i]) && Aligned(segs[i], p)
    ensures |PagesTo(segs, p, k)| * p == SumTo(segs, k)
  {
    hide Run;
    if k > 0 {
      PageCount(segs, p, k - 1);
      SegmentPages(segs[k - 1], p);
      Distributes(|PagesTo(segs, p, k - 1)|, segs[k - 1].length / p, p);
    }
  }

  predicate Expandable(segs: seq<Segment>, requested: u64, p: u64)
  {
    PageSize(p) && requested != 0 && requested % p == 0 && Covers(segs, requested) && AllAligned(segs, p)
  }

  function Pages(segs: seq<Segment>, requested: u64, p: u64): seq<u64>
    requires Expandable(segs, requested, p)
  {
    PagesTo(segs, p, |segs|)
  }

  /** One address per logical page. */
  method ExpandDmaSegmentsToPages(segs: seq<Segment>, requested: u64, p: u64) returns (out: PageMap)
    ensures out.status == InvalidPageSize <==> !PageSize(p)
    ensures out.status == RequestedSizeNotPageAligned <==> PageSize(p) && (requested == 0 || requested % p != 0)
    ensures out.status == MapCoverageError <==>
              PageSize(p) && requested != 0 && requested % p == 0 && !Covers(segs, requested)
    ensures out.status == MapOk <==> Expandable(segs, requested, p)
    ensures out.pages == if out.status == MapOk then Pages(segs, requested, p) else []
  {
    hide SumTo, And64;
    if !PageSize(p) {
      return PageMap(InvalidPageSize, []);
    }
    if requested == 0 || requested % p != 0 {
      return PageMap(RequestedSizeNotPageAligned, []);
    }
    var status, covered := ValidateDmaSegments(segs, requested);
    if status != Ok || covered != requested {
      return PageMap(MapCoverageError, []);
    }
    var pages := [];
    ghost var total := PagesIfAligned(segs, p);
    for k := 0 to |segs|
      invariant forall i :: 0 <= i < k ==> Aligned(segs[i], p)
      invariant AllAligned(segs, p) ==> pages == PagesTo(segs, p, k)
    {
      var s := segs[k];
      if s.address % p != 0 {
        assert !Aligned(s, p);
        return PageMap(SegmentAddressUnaligned, []);
      }
      if s.length % p != 0 {
        assert !Aligned(s, p);
        return PageMap(SegmentLengthUnaligned, []);
      }
      var run := ExpandSegment(s, p);
      pages := pages + run;
    }
    PageCount(segs, p, |segs|);
    DivModUnique(requested, p, |pages|, 0);
    if |pages| != requested / p {
      return PageMap(MapCoverageError, []);
    }
    out := PageMap(MapOk, pages);
  }

  ghost function PagesIfAligned(segs: seq<Segment>, p: u64): seq<u64>
    requires p > 0 && forall i :: 0 <= i < |segs| ==> SegmentOk(segs[i])
  {
    if AllAligned(segs, p) then PagesTo(segs, p, |segs|) else []
  }

  /** The pages of one segment, stepping by the page size. */
  method ExpandSegment(s: Segment, p: u64) returns (run: seq<u64>)
    requires p > 0 && SegmentOk(s) && Aligned(s, p)
    ensures s.address + (s.length / p - 1) * p <= MAX64 && run == Run(s.address, p, s.length / p)
  {
    SegmentPages(s, p);
    run := [];
    var offset := 0;
    ghost var i, n := 0, s.length / p;
    while offset < s.length
      invariant 0 <= i <= n && offset == i * p
      invariant i > 0 ==> s.address + (i - 1) * p <= MAX64
      invariant run == Run(s.address, p, i)
      decreases n - i
    {
      MulCancels(i, n, p);
      MulMono(i, n - 1, p);
      Distributes(i, 1, p);
      run := run + [s.address + offset];
      offset := offset + p;
      i := i + 1;
    }
    RunsOut(i, n, p);
  }

  lemma RunsOut(i: nat, n: nat, p: u64)
    requires p > 0 && i <= n && i * p >= n * p
    ensures i == n
  {
    if i < n {
      MulMono(i + 1, n, p);
      Distributes(i, 1, p);
    }
  }

  // ---- A page list means what its scatter list means ----

  /** Where byte `b` of the buffer lies, by the scatter list. */
  function AddressIn(segs: seq<Segment>, k: nat, b: nat): int
    requires k <= |segs| && b < SumTo(segs, k)
  {
    if b >= SumTo(segs, k - 1) then segs[k - 1].address + (b - SumTo(segs, k - 1)) else AddressIn(segs, k - 1, b)
  }

  lemma {:induction false} PrefixAddresses(segs: seq<Segment>, p: u64, k: nat, b: nat)
    requires p > 0 && k <= |segs| && b < SumTo(segs, k)
    requires forall i :: 0 <= i < |segs| ==> SegmentOk(segs[i]) && Aligned(segs[i], p)
    ensures b / p < |PagesTo(segs, p, k)|
    ensures AddressIn(segs, k, b) == PagesTo(segs, p, k)[b / p] + b % p
  {
    hide Run;
    var before, s := PagesTo(segs, p, k - 1), segs[k - 1];
    PageCount(segs, p, k - 1);
    SegmentPages(s, p);
    if b >= SumTo(segs, k - 1) {
      var c := b - SumTo(segs, k - 1);
      ModShift(c, |before|, p);
      IndexInside(c, s.length / p, p);
      RunAt(s.address, p, s.length / p, c / p);
    } else {
      PrefixAddresses(segs, p, k - 1, b);
    }
  }

  /** A byte of a run of `n` pages lies on one of them. */
  lemma IndexInside(c: nat, n: nat, p: u64)
    requires p > 0 && c < n * p
    ensures 0 <= c / p < n && c == c / p * p + c % p
  {
    if c / p >= n { MulMono(n, c / p, p); }
  }

  /** Where byte `b` lies by the page list, if it has a page for it. */
  function PagedAddress(pages: seq<u64>, p: u64, b: nat): Option<int>
    requires p > 0
  {
    if 0 <= b / p < |pages| then Some(pages[b / p] + b % p) else None
  }

  lemma Paged(pages: seq<u64>, p: u64, b: nat)
    requires p > 0 && b / p < |pages|
    ensures 0 <= b / p && PagedAddress(pages, p, b) == Some(pages[b / p] + b % p)
  {
  }

  /** The page list sends every byte of the buffer to the address the scatter list gives it. */
  lemma PageMapAgrees(segs: seq<Segment>, requested: u64, p: u64, b: nat)
    requires Expandable(segs, requested, p) && b < requested
    ensures PagedAddress(Pages(segs, requested, p), p, b) == Some(AddressIn(segs, |segs|, b))
  {
    hide And64, AddressIn, PagesTo, SumTo, Aligned, SegmentOk, PagedAddress;
    PrefixAddresses(segs, p, |segs|, b);
    Paged(Pages(segs, requested, p), p, b);
  }

  // ---- Linear page lists ----

  predicate Follows(pages: seq<u64>, p: u64, i: nat)
    requires 1 <= i < |pages|
  {
    pages[i] == pages[i - 1] + p
  }

  predicate AllFollow(pages: seq<u64>, p: u64)
  {
    forall i :: 1 <= i < |pages| ==> Follows(pages, p, i)
  }

  /** Every page is aligned and directly after its predecessor. */
  predicate LinearPages(pages: seq<u64>, p: u64)
  {
    && pages != [] && PageSize(p)
    && (forall i :: 0 <= i < |pages| ==> pages[i] % p == 0)
    && AllFollow(pages, p)
  }

  method IsLinearDmaPageList(pages: seq<u64>, p: u64) returns (linear: bool)
    ensures linear <==> LinearPages(pages, p)
  {
    hide And64;
    if pages == [] || !PageSize(p) {
      return false;
    }
    for i := 0 to |pages|
      invariant forall k :: 0 <= k < i ==> pages[k] % p == 0
    {
      if pages[i] % p != 0 {
        return false;
      }
    }
    for i := 1 to |pages|
      invariant forall k :: 1 <= k < i ==> Follows(pages, p, k)
    {
      var previous := pages[i - 1];
      if previous > MAX64 - p || pages[i] != previous + p {
        assert !Follows(pages, p, i);
        return false;
      }
    }
    linear := true;
  }

  lemma FollowJoin(a: seq<u64>, b: seq<u64>, p: u64)
    requires a != [] && b != []
    ensures AllFollow(a + b, p) <==> AllFollow(a, p) && AllFollow(b, p) && b[0] == a[|a| - 1] + p
  {
    var s := a + b;
    if AllFollow(s, p) {
      assert Follows(s, p, |a|);
      forall i | 1 <= i < |a| ensures Follows(a, p, i) { assert Follows(s, p, i); }
      forall i | 1 <= i < |b| ensures Follows(b, p, i) { assert Follows(s, p, |a| + i); }
    } else if AllFollow(a, p) && AllFollow(b, p) && b[0] == a[|a| - 1] + p {
      forall i | 1 <= i < |s| ensures Follows(s, p, i) {
        if i < |a| {
          assert Follows(a, p, i);
        } else if i > |a| {
          assert Follows(b, p, i - |a|);
        }
      }
    }
  }

  /** A run is aligned and linear from its address to its last page. */
  lemma {:induction false} RunIsLinear(address: u64, p: u64, n: nat)
    requires p > 0 && n > 0 && address % p == 0 && address + (n - 1) * p <= MAX64
    ensures var r := Run(address, p, n);
      && r[0] == address && r[n - 1] == address + (n - 1) * p
      && AllFollow(r, p)
      && (forall i :: 0 <= i < n ==> r[i] % p == 0)
  {
    hide Run;
    var r := Run(address, p, n);
    forall i | 0 <= i < n ensures r[i] == address + i * p && r[i] % p == 0 {
      RunAt(address, p, n, i);
      ModShift(address, i, p);
    }
    assert r[0] == address + 0 * p;
    forall i | 1 <= i < n ensures Follows(r, p, i) {
      RunAt(address, p, n, i);
      RunAt(address, p, n, i - 1);
      Distributes(i - 1, 1, p);
    }
  }

  predicate AdjoinsTo(segs: seq<Segment>, k: nat)
    requires k <= |segs|
  {
    forall i :: 1 <= i < k ==> Adjoins(segs, i)
  }

  lemma {:induction false} PrefixLinear(segs: seq<Segment>, p: u64, k: nat)
    requires p > 0 && 1 <= k <= |segs|
    requires forall i :: 0 <= i < |segs| ==> SegmentOk(segs[i]) && Aligned(segs[i], p)
    ensures var r := PagesTo(segs, p, k);
      && r != [] && r[0] == segs[0].address && r[|r| - 1] == segs[k - 1].address + segs[k - 1].length - p
      && (AllFollow(r, p) <==> AdjoinsTo(segs, k))
      && (forall i :: 0 <= i < |r| ==> r[i] % p == 0)
  {
    hide Run, AllFollow;
    var s := segs[k - 1];
    SegmentPages(s, p);
    RunIsLinear(s.address, p, s.length / p);
    var run := Run(s.address, p, s.length / p);
    if k == 1 {
      assert PagesTo(segs, p, 1) == run;
    } else {
      PrefixLinear(segs, p, k - 1);
      FollowJoin(PagesTo(segs, p, k - 1), run, p);
      Junction(segs, k);
    }
  }

  lemma Junction(segs: seq<Segment>, k: nat)
    requires 2 <= k <= |segs|
    ensures AdjoinsTo(segs, k) <==> AdjoinsTo(segs, k - 1) && Adjoins(segs, k - 1)
  {
  }

  /** On page-aligned segments the two linearity tests agree, up to the top of the address space, and
      name the same base. */
  lemma LinearTestsAgree(segs: seq<Segment>, requested: u64, p: u64)
    requires Expandable(segs, requested, p)
    ensures Contiguous(segs) <==> LinearPages(Pages(segs, requested, p), p)
    ensures Pages(segs, requested, p) != [] && Pages(segs, requested, p)[0] == segs[0].address
  {
    hide And64, PagesTo, SumTo, Aligned, SegmentOk, AllFollow, Adjoins;
    PrefixLinear(segs, p, |segs|);
  }
}
