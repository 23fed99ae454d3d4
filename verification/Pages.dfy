// Page addressing of the hash workers (rd-util/src/anon_area.rs;
// rd-hashd/src/hasher.rs, rel_to_file_page, file_page_to_idx_off and the anon
// access loop).
//
// A relative position is a magnitude in [0, 1] and a sign, so that the negative
// zero of the floating point original is kept apart from zero.
module Pages {
  import opened Wrappers
  import opened Windows

  datatype Rel = Rel(negative: bool, magnitude: real)

  ghost predicate Within(rel: Rel, amplitude: real) {
    0.0 <= rel.magnitude <= amplitude
  }

  // The source's `(n as f64 * x) as usize`.
  function Scaled(n: nat, x: real): nat
    requires x >= 0.0
  {
    MulMonoReal(n as real, 0.0, x);
    (n as real * x).Floor
  }

  lemma MulMonoReal(a: real, x: real, y: real)
    requires a >= 0.0 && x <= y
    ensures a * x <= a * y
    ensures a > 0.0 && x < y ==> a * x < a * y
  {
    assert a * (y - x) >= 0.0;
    assert a > 0.0 && x < y ==> a * (y - x) > 0.0;
  }

  // Positive positions go to even slots, negative ones to odd slots.
  function Slot(k: nat, negative: bool): nat {
    2 * k + if negative then 1 else 0
  }

  function RelToPageIdx(rel: Rel, size: nat, page: nat): nat
    requires rel.magnitude >= 0.0 && page > 0 && size / page >= 1
  {
    var addr := Scaled(size / 2, rel.magnitude);
    Min(Slot(addr / page, rel.negative), size / page - 1)
  }

  // The pages of the test files in use, at most the whole of them.
  function FilePages(size: nat, frac: real, page: nat): nat
    requires frac >= 0.0 && page > 0
  {
    Min(Scaled(size, frac), size) / page
  }

  function RelToFilePage(rel: Rel, nrPages: nat): nat
    requires rel.magnitude >= 0.0 && nrPages >= 1
  {
    var k := Scaled(nrPages / 2, rel.magnitude);
    Min(Slot(k, rel.negative), nrPages - 1)
  }

  // The file pages in use are the whole ones below both the size of the files and
  // the fraction of it in use.
  lemma FilePagesMeans(k: nat, size: nat, frac: real, page: nat)
    requires frac >= 0.0 && page > 0
    ensures k <= FilePages(size, frac, page) <==> k * page <= size && (k * page) as real <= size as real * frac
  {
    MulMonoReal(size as real, 0.0, frac);
    TimesDiv(Min(Scaled(size, frac), size), page, k);
    FloorAtLeast(k * page, size as real * frac);
  }

  lemma FloorAtLeast(k: nat, x: real)
    requires x >= 0.0
    ensures k <= x.Floor <==> k as real <= x
  {
  }

  // ---- Footprints --------------------------------------------------------------

  ghost predicate AnonReaches(p: nat, amplitude: real, size: nat, page: nat)
    requires page > 0 && size / page >= 1
  {
    exists rel: Rel :: Within(rel, amplitude) && RelToPageIdx(rel, size, page) == p
  }

  ghost predicate FileReaches(p: nat, amplitude: real, nrPages: nat)
    requires nrPages >= 1
  {
    exists rel: Rel :: Within(rel, amplitude) && RelToFilePage(rel, nrPages) == p
  }

  lemma FloorMono(x: real, y: real)
    requires x <= y
    ensures x.Floor <= y.Floor
  {
  }

  lemma ScaledMono(n: nat, x: real, y: real)
    requires 0.0 <= x <= y
    ensures Scaled(n, x) <= Scaled(n, y)
  {
    MulMonoReal(n as real, x, y);
    FloorMono(n as real * x, n as real * y);
  }

  // `k` steps of `unit` inside `n` can be named exactly, at most at amplitude `y`.
  lemma ExactPosition(n: nat, k: nat, unit: nat, y: real) returns (x: real)
    requires n > 0 && y >= 0.0 && k * unit <= Scaled(n, y)
    ensures 0.0 <= x <= y && Scaled(n, x) == k * unit
  {
    var at := k * unit;
    x := at as real / n as real;
    DivTimes(at as real, n as real);
    FloorBelow(at, n as real * y);
    CancelLeft(n as real, x, y);
    CancelLeft(n as real, 0.0, x);
  }

  lemma DivTimes(c: real, a: real)
    requires a > 0.0
    ensures a * (c / a) == c
  {
  }

  lemma FloorBelow(k: nat, x: real)
    requires x >= 0.0 && k <= x.Floor
    ensures k as real <= x
  {
  }

  lemma CancelLeft(a: real, x: real, y: real)
    requires a > 0.0 && a * x <= a * y
    ensures x <= y
  {
    if x > y {
      MulMonoReal(a, y, x);
    }
  }

  lemma DivMono(x: nat, y: nat, d: nat)
    requires d > 0 && x <= y
    ensures x / d <= y / d
  {
    IdxMono(x, y, d);
  }

  lemma TimesDiv(x: nat, d: nat, k: nat)
    requires d > 0
    ensures k <= x / d <==> k * d <= x
  {
    BelowIdx(x, k, d);
  }

  // The pages reached at an amplitude are exactly a prefix whose length grows
  // with the amplitude two pages at a time.
  lemma FileFootprint(p: nat, amplitude: real, nrPages: nat)
    requires nrPages >= 1 && amplitude >= 0.0
    ensures FileReaches(p, amplitude, nrPages)
            <==> p < nrPages && p < 2 * Scaled(nrPages / 2, amplitude) + 2
  {
    var half := nrPages / 2;
    var top := Scaled(half, amplitude);
    if p < nrPages && p < 2 * top + 2 {
      var k := p / 2;
      var x := 0.0;
      if half > 0 {
        x := ExactPosition(half, k, 1, amplitude);
      }
      var rel := Rel(p % 2 == 1, x);
      assert Within(rel, amplitude) && RelToFilePage(rel, nrPages) == p;
    }
    if rel: Rel :| Within(rel, amplitude) && RelToFilePage(rel, nrPages) == p {
      ScaledMono(half, rel.magnitude, amplitude);
    }
  }

  lemma AnonFootprint(p: nat, amplitude: real, size: nat, page: nat)
    requires page > 1 && size / page >= 1 && amplitude >= 0.0
    ensures AnonReaches(p, amplitude, size, page)
            <==> p < size / page && p < 2 * (Scaled(size / 2, amplitude) / page) + 2
  {
    var half := size / 2;
    var top := Scaled(half, amplitude);
    TimesDiv(size, page, 1);
    if p < size / page && p < 2 * (top / page) + 2 {
      var k := p / 2;
      TimesDiv(top, page, k);
      var x := ExactPosition(half, k, page, amplitude);
      MultipleIdx(k, page);
      assert (k * page) / page == k;
      var rel := Rel(p % 2 == 1, x);
      assert Within(rel, amplitude) && RelToPageIdx(rel, size, page) == p;
    }
    if rel: Rel :| Within(rel, amplitude) && RelToPageIdx(rel, size, page) == p {
      ScaledMono(half, rel.magnitude, amplitude);
      DivMono(Scaled(half, rel.magnitude), top, page);
    }
  }

  lemma WholeAmplitude(n: nat)
    ensures Scaled(n, 1.0) == n
  {
  }

  // At full amplitude either map reaches every page, and nothing else.
  lemma EveryPageIsReached(p: nat, size: nat, page: nat, nrPages: nat)
    requires page > 1 && size / page >= 1 && nrPages >= 1
    ensures FileReaches(p, 1.0, nrPages) <==> p < nrPages
    ensures AnonReaches(p, 1.0, size, page) <==> p < size / page
  {
    FileFootprint(p, 1.0, nrPages);
    WholeAmplitude(nrPages / 2);
    AnonFootprint(p, 1.0, size, page);
    WholeAmplitude(size / 2);
    var h := (size / 2) / page;
    TimesDiv(size / 2, page, h + 1);
    TimesDiv(size, page, 2 * h + 2);
    assert (2 * h + 2) * page == 2 * ((h + 1) * page);
  }

  // A smaller amplitude reaches a subset, and both start at page 0.
  lemma FootprintsNest(p: nat, a: real, b: real, size: nat, page: nat)
    requires page > 1 && size / page >= 1 && 0.0 <= a <= b
    ensures AnonReaches(p, a, size, page) ==> AnonReaches(p, b, size, page)
    ensures AnonReaches(p, a, size, page) ==> forall q: nat :: q < p ==> AnonReaches(q, a, size, page)
  {
    if AnonReaches(p, a, size, page) {
      var rel: Rel :| Within(rel, a) && RelToPageIdx(rel, size, page) == p;
      assert Within(rel, b);
      AnonFootprint(p, a, size, page);
      forall q: nat | q < p ensures AnonReaches(q, a, size, page) {
        AnonFootprint(q, a, size, page);
      }
    }
  }

  // The same for the file map.
  lemma FileFootprintsNest(p: nat, a: real, b: real, nrPages: nat)
    requires nrPages >= 1 && 0.0 <= a <= b
    ensures FileReaches(p, a, nrPages) ==> FileReaches(p, b, nrPages)
    ensures FileReaches(p, a, nrPages) ==> forall q: nat :: q < p ==> FileReaches(q, a, nrPages)
  {
    if FileReaches(p, a, nrPages) {
      var rel: Rel :| Within(rel, a) && RelToFilePage(rel, nrPages) == p;
      assert Within(rel, b);
      FileFootprint(p, a, nrPages);
      forall q: nat | q < p ensures FileReaches(q, a, nrPages) {
        FileFootprint(q, a, nrPages);
      }
    }
  }

  // The sign decides the parity, except on the last page, where slots are clamped.
  lemma SignIsParity(rel: Rel, size: nat, page: nat)
    requires rel.magnitude >= 0.0 && page > 0 && size / page >= 1
    ensures var p := RelToPageIdx(rel, size, page);
            p < size / page - 1 ==> (p % 2 == 1 <==> rel.negative)
  {
  }

  // A chunk that starts anywhere ends inside the area.
  lemma ChunkFits(rel: Rel, size: nat, chunk: nat, page: nat, i: nat)
    requires rel.magnitude >= 0.0 && page > 0 && chunk >= 1 && size >= chunk * page && i < chunk
    ensures size - (chunk - 1) * page >= page
    ensures (size - (chunk - 1) * page) / page >= 1
    ensures RelToPageIdx(rel, size - (chunk - 1) * page, page) + i < size / page
  {
    var less := size - (chunk - 1) * page;
    assert chunk * page == (chunk - 1) * page + page;
    TimesDiv(less, page, 1);
    var n := less / page;
    TimesDiv(less, page, n);
    assert (n + (chunk - 1)) * page == n * page + (chunk - 1) * page;
    TimesDiv(size, page, n + (chunk - 1));
  }

  // ---- Units -------------------------------------------------------------------

  const UNIT_SIZE: nat := 0x200_0000

  // Unit and byte offset of a page.
  function PagePos(p: nat, unit: nat, page: nat): (nat, nat)
    requires page > 0 && unit / page > 0
  {
    var pagesPerUnit := unit / page;
    (p / pagesPerUnit, (p % pagesPerUnit) * page)
  }

  // Unit index and offset together name the byte the page starts at; the page
  // lies inside its unit.
  lemma PagePosExact(p: nat, unit: nat, page: nat)
    requires page > 0 && unit / page > 0 && unit % page == 0
    ensures var (u, off) := PagePos(p, unit, page);
            u * unit + off == p * page && off + page <= unit
  {
    var n := unit / page;
    var u, r := p / n, p % n;
    assert p == u * n + r && unit == n * page;
    Regroup(u, n, r, page);
    MulMono(r + 1, n, page);
  }

  lemma Regroup(u: nat, n: nat, r: nat, page: nat)
    ensures (u * n + r) * page == u * (n * page) + r * page
    ensures (r + 1) * page == r * page + page
  {
  }

  // Distinct pages lie in different units or in disjoint ranges of one unit.
  lemma PagesApart(p: nat, q: nat, unit: nat, page: nat)
    requires page > 0 && unit / page > 0 && unit % page == 0 && p < q
    ensures var (u, off) := PagePos(p, unit, page);
            var (v, off') := PagePos(q, unit, page);
            u != v || off + page <= off'
  {
    PagePosExact(p, unit, page);
    PagePosExact(q, unit, page);
    MulMono(p + 1, q, page);
    assert (p + 1) * page == p * page + page;
  }

  function CeilDiv(x: nat, d: nat): nat
    requires d > 0
  {
    (x + d - 1) / d
  }

  lemma CeilDivCovers(x: nat, d: nat, k: nat)
    requires d > 0
    ensures k < CeilDiv(x, d) <==> k * d < x
  {
    TimesDiv(x + d - 1, d, k + 1);
    assert (k + 1) * d == k * d + d;
  }

  // The file that holds a page of the test files exists, the last one
  // included, and the page ends inside the size the files are counted with.
  lemma FilePageInBounds(p: nat, size: nat, unit: nat, page: nat)
    requires page > 0 && unit / page > 0 && unit % page == 0
    requires p < size / page
    ensures var (idx, off) := PagePos(p, unit, page);
            idx < CeilDiv(size, unit) && idx * unit + off + page <= size
  {
    PagePosExact(p, unit, page);
    TimesDiv(size, page, p + 1);
    assert (p + 1) * page == p * page + page;
    CeilDivCovers(size, unit, PagePos(p, unit, page).0);
  }

  // A file access goes to an existing file, at an offset that leaves room for the
  // page, whatever the size of the files and the fraction of them in use.
  lemma FileAccessInBounds(rel: Rel, size: nat, frac: real, unit: nat, page: nat)
    requires rel.magnitude >= 0.0 && frac >= 0.0
    requires page > 0 && unit / page > 0 && unit % page == 0
    requires FilePages(size, frac, page) >= 1
    ensures var (idx, off) := PagePos(RelToFilePage(rel, FilePages(size, frac, page)), unit, page);
            idx < CeilDiv(size, unit) && off + page <= unit && idx * unit + off + page <= size
  {
    var p := RelToFilePage(rel, FilePages(size, frac, page));
    DivMono(Min(Scaled(size, frac), size), size, page);
    hide PagePos;
    FilePageInBounds(p, size, unit, page);
    PagePosExact(p, unit, page);
  }

  // ---- The anonymous area --------------------------------------------------------

  // `units` holds the addresses of the allocated units.
  datatype Area = Area(units: seq<nat>, size: nat)

  ghost predicate Apart(a: nat, b: nat, length: nat) {
    a + length <= b || b + length <= a
  }

  ghost predicate UnitsApart(units: seq<nat>) {
    forall i, j :: 0 <= i < j < |units| ==> Apart(units[i], units[j], UNIT_SIZE)
  }

  ghost predicate AreaOk(a: Area) {
    a.size >= UNIT_SIZE && |a.units| == CeilDiv(a.size, UNIT_SIZE) && UnitsApart(a.units)
  }

  // The number of units that a resize keeps and ends with.
  function NrUnits(size: nat): nat {
    CeilDiv(Max(size, UNIT_SIZE), UNIT_SIZE)
  }

  function Kept(units: seq<nat>, size: nat): seq<nat> {
    units[..Min(|units|, NrUnits(size))]
  }

  function Missing(units: seq<nat>, size: nat): nat {
    NrUnits(size) - |Kept(units, size)|
  }

  function Resized(a: Area, size: nat, fresh': seq<nat>): Area {
    Area(Kept(a.units, size) + fresh', Max(size, UNIT_SIZE))
  }

  class AnonArea {
    const page: nat
    var units: seq<nat>
    var size: nat

    ghost function View(): Area
      reads this
    {
      Area(units, size)
    }

    ghost predicate Valid()
      reads this
    {
      page > 0 && UNIT_SIZE % page == 0 && UNIT_SIZE / page > 0 && AreaOk(View())
    }

    constructor (page: nat, size: nat, alloc: seq<nat>)
      requires page > 0 && UNIT_SIZE % page == 0 && UNIT_SIZE / page > 0
      requires |alloc| == NrUnits(size) && UnitsApart(alloc)
      ensures Valid() && this.page == page && View() == Area(alloc, Max(size, UNIT_SIZE))
    {
      this.page, units, this.size := page, [], 0;
      new;
      assert [] + alloc == alloc;
      Resize(size, alloc);
    }

    // Resizing: truncate, then allocate what is missing.  `alloc` holds the
    // allocator's answers; what it hands out is apart from what is still allocated.
    method Resize(newSize: nat, alloc: seq<nat>)
      requires page > 0 && UNIT_SIZE % page == 0 && UNIT_SIZE / page > 0
      requires |alloc| == Missing(units, newSize)
      requires UnitsApart(Kept(units, newSize) + alloc)
      modifies this`units, this`size
      ensures Valid()
      ensures View() == Resized(old(View()), newSize, alloc)
    {
      var sz := Max(newSize, UNIT_SIZE);
      var nr := CeilDiv(sz, UNIT_SIZE);
      if nr < |units| {
        units := units[..nr];
      }
      var have := |units|;
      assert units == Kept(old(units), newSize);
      for i := have to nr
        invariant units == Kept(old(units), newSize) + alloc[..i - have]
      {
        units := units + [alloc[i - have]];
      }
      assert alloc[..nr - have] == alloc;
      size := sz;
    }

    // The address of a page.
    method AccessPage(pageIdx: nat) returns (address: nat)
      requires Valid() && pageIdx < size / page
      ensures PagePos(pageIdx, UNIT_SIZE, page).0 < |units|
      ensures address == PageAddress(View(), pageIdx, page)
    {
      UnitExists(View(), pageIdx, page);
      var pos := PagePos(pageIdx, UNIT_SIZE, page);
      address := units[pos.0] + pos.1;
    }
  }

  function PageAddress(a: Area, p: nat, page: nat): nat
    requires page > 0 && UNIT_SIZE / page > 0 && PagePos(p, UNIT_SIZE, page).0 < |a.units|
  {
    var (u, off) := PagePos(p, UNIT_SIZE, page);
    a.units[u] + off
  }

  lemma UnitExists(a: Area, p: nat, page: nat)
    requires page > 0 && UNIT_SIZE / page > 0 && UNIT_SIZE % page == 0
    requires AreaOk(a) && p < a.size / page
    ensures PagePos(p, UNIT_SIZE, page).0 < |a.units|
  {
    PagePosExact(p, UNIT_SIZE, page);
    TimesDiv(a.size, page, p + 1);
    assert (p + 1) * page == p * page + page;
    CeilDivCovers(a.size, UNIT_SIZE, PagePos(p, UNIT_SIZE, page).0);
  }

  // The area after a list of resizes.
  datatype Resizing = Resizing(size: nat, alloc: seq<nat>)

  function AfterAll(a: Area, rs: seq<Resizing>): Area {
    if rs == [] then a
    else Resized(AfterAll(a, rs[..|rs| - 1]), rs[|rs| - 1].size, rs[|rs| - 1].alloc)
  }

  // The allocator keeps its promise at every resize.
  ghost predicate AllocOk(a: Area, rs: seq<Resizing>) {
    forall i :: 0 <= i < |rs| ==> AllocOkAt(AfterAll(a, rs[..i]), rs[i])
  }

  ghost predicate AllocOkAt(a: Area, r: Resizing) {
    |r.alloc| == Missing(a.units, r.size) && UnitsApart(Kept(a.units, r.size) + r.alloc)
  }

  lemma {:induction false} AreaStaysOk(a: Area, rs: seq<Resizing>)
    requires AreaOk(a) && AllocOk(a, rs)
    ensures AreaOk(AfterAll(a, rs))
  {
    if rs != [] {
      var n := |rs| - 1;
      assert AllocOkAt(AfterAll(a, rs[..n]), rs[n]);
      forall i | 0 <= i < n ensures AllocOkAt(AfterAll(a, rs[..n][..i]), rs[..n][i]) {
        assert rs[..n][..i] == rs[..i];
      }
      AreaStaysOk(a, rs[..n]);
    }
  }

  // A resize leaves an area of the asked size, of 32 MiB at least, with the units it
  // can keep in their places.
  lemma ResizeMeans(a: Area, size: nat, alloc: seq<nat>)
    requires AreaOk(a) && AllocOkAt(a, Resizing(size, alloc))
    ensures var r := Resized(a, size, alloc);
            && r.size == (if size < 33_554_432 then 33_554_432 else size)
            && (forall u :: u < |r.units| <==> u * 33_554_432 < r.size)
            && (forall u :: 0 <= u < |a.units| && u < |r.units| ==> r.units[u] == a.units[u])
  {
    var r := Resized(a, size, alloc);
    forall u: int ensures u < |r.units| <==> u * 33_554_432 < r.size {
      if u >= 0 {
        CeilDivCovers(r.size, UNIT_SIZE, u);
      }
    }
  }

  // After any resizes, distinct pages occupy disjoint byte ranges, each inside
  // its unit.
  lemma PagesAreDisjoint(a: Area, rs: seq<Resizing>, p: nat, q: nat, page: nat)
    requires page > 0 && UNIT_SIZE / page > 0 && UNIT_SIZE % page == 0
    requires AreaOk(a) && AllocOk(a, rs)
    requires p < q < AfterAll(a, rs).size / page
    ensures var now := AfterAll(a, rs);
            var (u, off) := PagePos(p, UNIT_SIZE, page);
            && u < |now.units| && off + page <= UNIT_SIZE
            && PagePos(q, UNIT_SIZE, page).0 < |now.units|
            && Apart(PageAddress(now, p, page), PageAddress(now, q, page), page)
  {
    var now := AfterAll(a, rs);
    AreaStaysOk(a, rs);
    UnitExists(now, p, page);
    UnitExists(now, q, page);
    PagePosExact(p, UNIT_SIZE, page);
    PagePosExact(q, UNIT_SIZE, page);
    PagesApart(p, q, UNIT_SIZE, page);
    hide PagePos, AfterAll, AllocOk;
    var u, v := PagePos(p, UNIT_SIZE, page).0, PagePos(q, UNIT_SIZE, page).0;
    if u < v {
      assert Apart(now.units[u], now.units[v], UNIT_SIZE);
    } else if v < u {
      assert Apart(now.units[v], now.units[u], UNIT_SIZE);
    }
  }

  // A page that every resize leaves inside the area never moves, so what was
  // written to it stays there.
  lemma {:induction false} PagesDoNotMove(a: Area, rs: seq<Resizing>, p: nat, page: nat)
    requires page > 0 && UNIT_SIZE / page > 0 && UNIT_SIZE % page == 0
    requires AreaOk(a) && AllocOk(a, rs)
    requires p < a.size / page
    requires forall i :: 0 <= i < |rs| ==> p < Max(rs[i].size, UNIT_SIZE) / page
    ensures PagePos(p, UNIT_SIZE, page).0 < |a.units|
    ensures PagePos(p, UNIT_SIZE, page).0 < |AfterAll(a, rs).units|
    ensures PageAddress(AfterAll(a, rs), p, page) == PageAddress(a, p, page)
  {
    hide PagePos, UnitsApart, CeilDiv;
    UnitExists(a, p, page);
    if rs != [] {
      var n := |rs| - 1;
      forall i | 0 <= i < n ensures AllocOkAt(AfterAll(a, rs[..n][..i]), rs[..n][i]) {
        assert rs[..n][..i] == rs[..i];
      }
      PagesDoNotMove(a, rs[..n], p, page);
      AreaStaysOk(a, rs);
      UnitExists(AfterAll(a, rs), p, page);
      assert AllocOkAt(AfterAll(a, rs[..n]), rs[n]);
    }
  }

  // The page a chunk starts at: mapped so that the whole chunk fits.
  function ChunkBase(rel: Rel, size: nat, chunk: nat, page: nat): (base: nat)
    requires rel.magnitude >= 0.0 && page > 0 && chunk >= 1 && size >= chunk * page
    ensures base + chunk <= size / page
  {
    ChunkFits(rel, size, chunk, page, chunk - 1);
    RelToPageIdx(rel, size - (chunk - 1) * page, page)
  }

  ghost predicate ChunkStarts(p: nat, amplitude: real, size: nat, chunk: nat, page: nat)
    requires page > 0 && chunk >= 1 && size >= chunk * page
  {
    exists rel: Rel :: Within(rel, amplitude) && ChunkBase(rel, size, chunk, page) == p
  }

  // The pages that chunks start at, at an amplitude: exactly a prefix of those that
  // leave room for a chunk.
  lemma ChunkFootprint(p: nat, amplitude: real, size: nat, chunk: nat, page: nat)
    requires page > 1 && chunk >= 1 && size >= chunk * page && amplitude >= 0.0
    ensures size - (chunk - 1) * page >= page
    ensures var less := size - (chunk - 1) * page;
            ChunkStarts(p, amplitude, size, chunk, page)
            <==> p < less / page && p < 2 * (Scaled(less / 2, amplitude) / page) + 2
  {
    ChunkFits(Rel(false, 0.0), size, chunk, page, 0);
    var less := size - (chunk - 1) * page;
    AnonFootprint(p, amplitude, less, page);
    if ChunkStarts(p, amplitude, size, chunk, page) {
      var rel: Rel :| Within(rel, amplitude) && ChunkBase(rel, size, chunk, page) == p;
      assert Within(rel, amplitude) && RelToPageIdx(rel, less, page) == p;
    }
    if AnonReaches(p, amplitude, less, page) {
      var rel: Rel :| Within(rel, amplitude) && RelToPageIdx(rel, less, page) == p;
      assert Within(rel, amplitude) && ChunkBase(rel, size, chunk, page) == p;
    }
  }

  // The pages that remain for a chunk to start at.
  lemma StartsLeft(size: nat, chunk: nat, page: nat)
    requires page > 0 && chunk >= 1 && size >= chunk * page
    ensures size - (chunk - 1) * page >= page
    ensures (size - (chunk - 1) * page) / page == size / page - (chunk - 1)
  {
    var less := size - (chunk - 1) * page;
    assert chunk * page == (chunk - 1) * page + page;
    var n := less / page;
    assert (n + (chunk - 1)) * page == n * page + (chunk - 1) * page;
    DivUnique(size, page, n + (chunk - 1));
  }

  // At full amplitude every page of the area lies in some chunk.
  lemma EveryPageIsInAChunk(q: nat, size: nat, chunk: nat, page: nat) returns (rel: Rel, k: nat)
    requires page > 1 && chunk >= 1 && size >= chunk * page && q < size / page
    ensures Within(rel, 1.0) && k < chunk && ChunkBase(rel, size, chunk, page) + k == q
  {
    StartsLeft(size, chunk, page);
    var less := size - (chunk - 1) * page;
    DivMono(page, less, page);
    var p := if q < less / page then q else less / page - 1;
    k := q - p;
    EveryPageIsReached(p, less, page, 1);
    rel :| Within(rel, 1.0) && RelToPageIdx(rel, less, page) == p;
  }

  // The sign decides the parity of a chunk's first page, except on the last page a
  // chunk can start at.
  lemma ChunkParity(rel: Rel, size: nat, chunk: nat, page: nat)
    requires rel.magnitude >= 0.0 && page > 0 && chunk >= 1 && size >= chunk * page
    ensures var p := ChunkBase(rel, size, chunk, page);
            p + chunk < size / page ==> (p % 2 == 1 <==> rel.negative)
  {
    StartsLeft(size, chunk, page);
    DivMono(page, size - (chunk - 1) * page, page);
    SignIsParity(rel, size - (chunk - 1) * page, page);
  }

  // `address` is that of page `p`, which lies inside its unit.
  ghost predicate IsPage(a: Area, p: nat, page: nat, address: nat)
    requires page > 0 && UNIT_SIZE / page > 0
  {
    var (u, off) := PagePos(p, UNIT_SIZE, page);
    u < |a.units| && off + page <= UNIT_SIZE && address == a.units[u] + off
  }

  lemma PagesOfAreaApart(a: Area, p: nat, q: nat, page: nat, address: nat, other: nat)
    requires page > 0 && UNIT_SIZE / page > 0 && UNIT_SIZE % page == 0
    requires AreaOk(a) && p < q < a.size / page
    requires IsPage(a, p, page, address) && IsPage(a, q, page, other)
    ensures Apart(address, other, page)
  {
    assert AfterAll(a, []) == a;
    PagesAreDisjoint(a, [], p, q, page);
  }

  // The chunk's addresses are those of consecutive pages from the mapped base,
  // each inside its unit, and no two of them overlap.
  method AccessChunk(area: AnonArea, rel: Rel, chunk: nat) returns (addresses: seq<nat>)
    requires area.Valid() && chunk >= 1 && rel.magnitude >= 0.0
    requires area.size >= chunk * area.page
    ensures |addresses| == chunk
    ensures var base := ChunkBase(rel, area.size, chunk, area.page);
            forall k :: 0 <= k < chunk ==> IsPage(area.View(), base + k, area.page, addresses[k])
    ensures forall i, j :: 0 <= i < j < chunk ==> Apart(addresses[i], addresses[j], area.page)
  {
    hide RelToPageIdx, PageAddress, AreaOk, PagePos;
    var base := ChunkBase(rel, area.size, chunk, area.page);
    addresses := [];
    for i := 0 to chunk
      invariant |addresses| == i
      invariant forall k :: 0 <= k < i ==> IsPage(area.View(), base + k, area.page, addresses[k])
    {
      var address := area.AccessPage(base + i);
      PageAddressInside(area.View(), base + i, area.page);
      addresses := addresses + [address];
    }
    forall i, j | 0 <= i < j < chunk ensures Apart(addresses[i], addresses[j], area.page) {
      PagesOfAreaApart(area.View(), base + i, base + j, area.page, addresses[i], addresses[j]);
    }
  }

  lemma PageAddressInside(a: Area, p: nat, page: nat)
    requires page > 0 && UNIT_SIZE / page > 0 && UNIT_SIZE % page == 0
    requires AreaOk(a) && p < a.size / page
    ensures PagePos(p, UNIT_SIZE, page).0 < |a.units|
    ensures IsPage(a, p, page, PageAddress(a, p, page))
  {
    UnitExists(a, p, page);
    PagePosExact(p, UNIT_SIZE, page);
  }
}
