/** Sizing of the LMDB map, in the daemon's own 64-bit and 32-bit arithmetic. */
module Autosize {
  import opened Prelude

  const TWO64: nat := 0x1_0000_0000_0000_0000
  const UINT_MAX: nat := 0xFFFF_FFFF
  const MEGABYTE: nat := 1048576
  const ACTIVE_TARGET_PERCENT: nat := 75
  const RELOAD_HIGHWATER_PERCENT: nat := 80
  const SHRINK_TRIGGER_PERCENT: nat := 65
  const SHRINK_HYSTERESIS_PERCENT: nat := 90
  const RELOAD_WORK_FACTOR: nat := 2

  /** size_t and unsigned int. */
  type word = x: nat | x < 0x1_0000_0000_0000_0000
  type uint = x: nat | x <= 0xFFFF_FFFF

  function Wrap(x: nat): word {
    x % TWO64
  }

  function PagesForPercent(pages: word, percent: uint): word {
    if pages == 0 || percent == 0 then 0 else Wrap(Wrap(pages * 100) + percent - 1) / percent
  }

  function PagesTimes(pages: word, factor: uint): word {
    if factor != 0 && pages > (TWO64 - 1) / factor then TWO64 - 1 else Wrap(pages * factor)
  }

  function PercentOf(used: word, total: word): word {
    if total == 0 then 0 else Wrap(100 * used) / total
  }

  function BytesToMb(bytes: word): uint {
    var mb := Wrap(bytes + MEGABYTE - 1) / MEGABYTE;
    if mb > UINT_MAX then UINT_MAX else if mb == 0 then 1 else mb
  }

  function PagesToMb(pages: word, pageSize: word): uint {
    var size := if pageSize == 0 then 4096 else pageSize;
    if pages > UINT_MAX * MEGABYTE / size then UINT_MAX else BytesToMb(Wrap(pages * size))
  }

  datatype Sizing = Sizing(
    pageSize: word, mapPages: word, allocatedPages: word, activePages: word, currentMb: uint,
    recommendedPages: word, recommendedMb: uint, activePercent: word, allocatedPercent: word)

  /** complete_lmdb_sizing_state, from the raw page counts. */
  function Complete(pageSize: word, mapPages: word, allocatedPages: word, activePages: word, currentMb: uint): Sizing {
    var work0 := PagesTimes(activePages, RELOAD_WORK_FACTOR);
    var work := if work0 < activePages then activePages else work0;
    var active := PagesForPercent(activePages, ACTIVE_TARGET_PERCENT);
    var high := PagesForPercent(work, RELOAD_HIGHWATER_PERCENT);
    var pages := Wrap((if high > active then high else active) + 1);
    Sizing(pageSize, mapPages, allocatedPages, activePages, currentMb, pages, PagesToMb(pages, pageSize),
           PercentOf(activePages, mapPages), PercentOf(allocatedPages, mapPages))
  }

  // ---------------------------------------------------------------------------------------------
  // Headroom

  function RecommendedPages(active: word): word {
    Complete(4096, 0, 0, active, 1).recommendedPages
  }

  lemma CeilingBounds(n: nat, d: nat)
    requires d > 0
    ensures n <= d * ((n + d - 1) / d) <= n + d - 1
  {
    var q := (n + d - 1) / d;
    assert n + d - 1 == q * d + (n + d - 1) % d;
  }

  /** A percentage target never exceeds what a full word divided by the percentage allows. */
  lemma TargetIsBounded(pages: word, percent: uint)
    requires percent > 0
    ensures percent * PagesForPercent(pages, percent) < TWO64
  {
    if pages > 0 {
      var x := Wrap(Wrap(pages * 100) + percent - 1);
      assert x == x / percent * percent + x % percent;
    }
  }

  lemma NoWrap(x: nat)
    requires x < TWO64
    ensures Wrap(x) == x
  {
  }

  lemma TargetIsCeiling(pages: word, percent: uint)
    requires percent > 0 && pages * 100 + percent - 1 < TWO64
    ensures pages * 100 <= percent * PagesForPercent(pages, percent) <= pages * 100 + percent - 1
  {
    if pages > 0 {
      NoWrap(pages * 100);
      NoWrap(pages * 100 + percent - 1);
      CeilingBounds(pages * 100, percent);
    }
  }

  /** Twice the active pages, unless that saturates. */
  lemma WorkPages(active: word)
    ensures PagesTimes(active, 2) == if 2 * active < TWO64 then 2 * active else TWO64 - 1
    ensures active <= PagesTimes(active, 2)
  {
  }

  /** The recommendation is the larger of the two targets, plus one page. */
  lemma RecommendedIs(active: word)
    ensures var a, h := PagesForPercent(active, 75), PagesForPercent(PagesTimes(active, 2), 80);
            RecommendedPages(active) == (if h > a then h else a) + 1
  {
    WorkPages(active);
    TargetIsBounded(active, 75);
    TargetIsBounded(PagesTimes(active, 2), 80);
  }

  lemma WrapsToNothing(pages: word, percent: uint, excess: nat)
    requires pages > 0 && percent > 0 && Wrap(pages * 100) + percent - 1 == TWO64 + excess && excess < percent
    ensures PagesForPercent(pages, percent) == 0
  {
    assert Wrap(TWO64 + excess) == excess;
  }

  lemma RecommendedIsBounded(active: word)
    ensures 75 * RecommendedPages(active) < TWO64 + 75
    ensures PagesForPercent(active, 75) < RecommendedPages(active)
  {
    RecommendedIs(active);
    TargetIsBounded(active, 75);
    TargetIsBounded(PagesTimes(active, 2), 80);
  }

  /** The only count at which both targets wrap to nothing. */
  lemma LastWrap(active: word)
    requires active == 184467440737095516
    ensures RecommendedPages(active) == 1
  {
    RecommendedIs(active);
    WorkPages(active);
    WrapsToNothing(184467440737095516, 75, 58);
    WrapsToNothing(368934881474191032, 80, 47);
  }

  /** The active pages fit in 75 percent of the recommended map, exactly below the count where the arithmetic wraps. */
  lemma ActiveHeadroom(active: word)
    ensures 100 * active <= 75 * RecommendedPages(active) <==> 100 * active + 74 < TWO64
  {
    RecommendedIsBounded(active);
    if 100 * active + 74 < TWO64 {
      TargetIsCeiling(active, 75);
    } else if active == 184467440737095516 {
      LastWrap(active);
    }
  }

  lemma SmallActiveTarget(active: word)
    requires 200 * active + 79 >= TWO64
    ensures 80 * (PagesForPercent(active, 75) + 1) < 200 * active
  {
    TargetIsBounded(active, 75);
    if 100 * active + 74 < TWO64 {
      TargetIsCeiling(active, 75);
    }
  }

  /** Twice the active pages fit in 80 percent of it, exactly below half that count. */
  lemma ReloadHeadroom(active: word)
    ensures 200 * active <= 80 * RecommendedPages(active) <==> 200 * active + 79 < TWO64
  {
    RecommendedIs(active);
    WorkPages(active);
    TargetIsBounded(PagesTimes(active, 2), 80);
    if 200 * active + 79 < TWO64 {
      TargetIsCeiling(2 * active, 80);
    } else {
      SmallActiveTarget(active);
      if active == 92233720368547758 {
        WrapsToNothing(184467440737095516, 80, 63);
      }
    }
  }

  lemma MbIsCeiling(bytes: nat)
    requires bytes <= UINT_MAX * MEGABYTE
    ensures BytesToMb(bytes) * MEGABYTE >= bytes
    ensures BytesToMb(bytes) > 1 ==> (BytesToMb(bytes) - 1) * MEGABYTE < bytes
  {
    NoWrap(bytes + MEGABYTE - 1);
    CeilingBounds(bytes, MEGABYTE);
  }

  lemma MulMonotone(a: nat, b: nat, c: nat)
    requires a <= b
    ensures a * c <= b * c && c * a <= c * b
  {
    assert (b - a) * c >= 0;
  }

  lemma QuotientBelow(x: nat, d: nat, p: nat)
    requires d > 0
    ensures x / d < p <==> x < p * d
  {
    var q := x / d;
    assert x == q * d + x % d;
    if q < p {
      MulMonotone(q + 1, p, d);
      assert (q + 1) * d == q * d + d;
    } else {
      MulMonotone(p, q, d);
    }
  }

  lemma QuotientFits(pages: nat, size: nat, limit: nat)
    requires size > 0
    ensures pages <= limit / size <==> pages * size <= limit
  {
    QuotientBelow(limit, size, pages);
  }

  /** The map in whole MiB holds the wanted pages, exactly when their size does not saturate the setting. */
  lemma MapHoldsPages(pages: word, pageSize: word)
    requires pageSize > 0
    ensures PagesToMb(pages, pageSize) * MEGABYTE >= pages * pageSize <==> pages * pageSize <= UINT_MAX * MEGABYTE
  {
  }

  /** The page size in use: an unknown one counts as 4096 bytes. */
  function PageBytes(pageSize: word): word {
    if pageSize == 0 then 4096 else pageSize
  }

  /** A share of the pages is the same share of the bytes that hold them. */
  lemma ShareOfBytes(part: nat, share: nat, pages: nat, size: nat, bytes: nat)
    requires part <= share * pages && pages * size <= bytes
    ensures part * size <= share * bytes
  {
    MulMonotone(part, share * pages, size);
    assert share * pages * size == share * (pages * size);
    MulMonotone(pages * size, bytes, share);
  }

  /** Whole MiB keep a share of the pages, up to the largest setting. */
  lemma MapKeepsShare(part: nat, share: nat, pages: word, pageSize: word)
    requires part <= share * pages
    ensures PagesToMb(pages, pageSize) == UINT_MAX ||
            part * PageBytes(pageSize) <= share * (PagesToMb(pages, pageSize) * MEGABYTE)
  {
    var size := PageBytes(pageSize);
    QuotientFits(pages, size, UINT_MAX * MEGABYTE);
    if pages * size <= UINT_MAX * MEGABYTE {
      MapHoldsPages(pages, size);
      ShareOfBytes(part, share, pages, size, PagesToMb(pages, pageSize) * MEGABYTE);
    }
  }

  lemma FewPages(x: nat, pageSize: word)
    ensures x <= x * PageBytes(pageSize)
  {
    MulMonotone(1, PageBytes(pageSize), x);
  }

  /**
   The map that is set: the data fit in 75 percent of it, exactly as long as they fit in 75 percent of
   the largest map that can be set.
   */
  lemma MapActiveHeadroom(pageSize: word, mapPages: word, allocatedPages: word, active: word, mb: uint)
    ensures 100 * active * PageBytes(pageSize)
              <= 75 * (Complete(pageSize, mapPages, allocatedPages, active, mb).recommendedMb * MEGABYTE) <==>
            100 * active * PageBytes(pageSize) <= 75 * (UINT_MAX * MEGABYTE)
  {
    if 100 * active * PageBytes(pageSize) <= 75 * (UINT_MAX * MEGABYTE) {
      FewPages(100 * active, pageSize);
      ActiveHeadroom(active);
      MapKeepsShare(100 * active, 75, RecommendedPages(active), pageSize);
    }
  }

  /** A reload's double copy fits in 80 percent of it, exactly as long as it fits in 80 percent of the largest map. */
  lemma MapReloadHeadroom(pageSize: word, mapPages: word, allocatedPages: word, active: word, mb: uint)
    ensures 200 * active * PageBytes(pageSize)
              <= 80 * (Complete(pageSize, mapPages, allocatedPages, active, mb).recommendedMb * MEGABYTE) <==>
            200 * active * PageBytes(pageSize) <= 80 * (UINT_MAX * MEGABYTE)
  {
    if 200 * active * PageBytes(pageSize) <= 80 * (UINT_MAX * MEGABYTE) {
      FewPages(200 * active, pageSize);
      ReloadHeadroom(active);
      MapKeepsShare(200 * active, 80, RecommendedPages(active), pageSize);
    }
  }

  // ---------------------------------------------------------------------------------------------
  // Planning

  datatype Mode = Startup | Live | Preflight

  /** autosize_effective_target_mb: recent reload growth is a floor, except at startup. */
  function EffectiveTarget(s: Sizing, mode: Mode, floor: uint): uint {
    if mode != Startup && floor != 0 && s.recommendedMb < floor then floor else s.recommendedMb
  }

  predicate ShrinkAllowed(dbMax: uint, s: Sizing, target: uint, mode: Mode) {
    && target < dbMax
    && s.activePercent < SHRINK_TRIGGER_PERCENT
    && (mode == Startup || s.allocatedPercent < RELOAD_HIGHWATER_PERCENT)
    && target * 100 <= dbMax * SHRINK_HYSTERESIS_PERCENT
  }

  /** The setting after one planning pass. */
  function Planned(dbMax: uint, s: Sizing, mode: Mode, floor: uint): uint {
    var target := EffectiveTarget(s, mode, floor);
    if s.activePages == 0 then dbMax
    else if target > dbMax then target
    else if mode == Preflight || !ShrinkAllowed(dbMax, s, target, mode) then dbMax
    else target
  }

  class Config {
    var dbMaxSize: uint

    /** apply_autosize_plan */
    method ApplyPlan(s: Sizing, mode: Mode, floor: uint) returns (changed: bool)
      modifies this
      ensures dbMaxSize == Planned(old(dbMaxSize), s, mode, floor)
      ensures changed <==> dbMaxSize != old(dbMaxSize)
    {
      var target := EffectiveTarget(s, mode, floor);
      if s.activePages == 0 {
        return false;
      }
      if target > dbMaxSize {
        dbMaxSize := target;
        return true;
      }
      if mode == Preflight || !ShrinkAllowed(dbMaxSize, s, target, mode) {
        return false;
      }
      dbMaxSize := target;
      return true;
    }
  }

  /**
   No oscillation: once a plan changed the setting, planning again for the same data, mode and floor
   keeps it, whatever the map and the file's high-water mark have become.
   */
  lemma PlanIsStable(
    dbMax: uint, pageSize: word, active: word, map1: word, allocated1: word, mb1: uint,
    map2: word, allocated2: word, mb2: uint, mode: Mode, floor: uint)
    ensures var s1 := Complete(pageSize, map1, allocated1, active, mb1);
            var s2 := Complete(pageSize, map2, allocated2, active, mb2);
            var once := Planned(dbMax, s1, mode, floor);
            (once != dbMax ==> Planned(once, s2, mode, floor) == once) && Planned(once, s1, mode, floor) == once
  {
  }

  /** What one planning pass measures, besides the data. */
  datatype Pass = Pass(mapPages: word, allocatedPages: word, currentMb: uint)

  /** The setting after planning passes that find the same data. */
  function SettingAfter(dbMax: uint, pageSize: word, active: word, passes: seq<Pass>, mode: Mode, floor: uint): uint {
    if passes == [] then dbMax
    else
      var p := passes[|passes| - 1];
      Planned(SettingAfter(dbMax, pageSize, active, passes[..|passes| - 1], mode, floor),
              Complete(pageSize, p.mapPages, p.allocatedPages, active, p.currentMb), mode, floor)
  }

  /** Over any sequence of passes for the same data, mode and floor the setting changes at most once. */
  lemma {:induction false} SettingChangesAtMostOnce(
    dbMax: uint, pageSize: word, active: word, passes: seq<Pass>, i: nat, mode: Mode, floor: uint)
    requires i <= |passes|
    ensures var early := SettingAfter(dbMax, pageSize, active, passes[..i], mode, floor);
            early == dbMax || SettingAfter(dbMax, pageSize, active, passes, mode, floor) == early
    ensures var target := EffectiveTarget(Complete(pageSize, 0, 0, active, 0), mode, floor);
            SettingAfter(dbMax, pageSize, active, passes, mode, floor) in {dbMax, target}
    decreases |passes|
  {
    var n := |passes| - 1;
    if i == |passes| {
      assert passes[..i] == passes;
    }
    if n >= 0 {
      assert i <= n ==> passes[..n][..i] == passes[..i];
      SettingChangesAtMostOnce(dbMax, pageSize, active, passes[..n], if i <= n then i else n, mode, floor);
    }
  }

  /** A plan for data never leaves the setting below its target, and it shrinks by a tenth or not at all. */
  lemma PlanKeepsRoom(dbMax: uint, s: Sizing, mode: Mode, floor: uint)
    requires s.activePages > 0
    ensures var planned := Planned(dbMax, s, mode, floor);
            && planned >= EffectiveTarget(s, mode, floor) >= s.recommendedMb
            && (planned < dbMax ==> planned * 10 <= dbMax * 9 && s.activePercent < 65 && mode != Preflight)
            && (planned > dbMax <==> EffectiveTarget(s, mode, floor) > dbMax)
  {
  }

  /** An integer percentage is below a bound exactly when the share is, as long as the product does not wrap. */
  lemma PercentMeans(used: word, total: word, p: nat)
    requires total > 0 && 100 * used < TWO64
    ensures PercentOf(used, total) < p <==> 100 * used < p * total
  {
    NoWrap(100 * used);
    QuotientBelow(100 * used, total, p);
  }

  /** A shrink needs the data below 65 percent of the map and, except at startup, the file below 80 percent. */
  lemma ShrinkNeedsSlack(dbMax: uint, s: Sizing, mode: Mode, floor: uint)
    requires s == Complete(s.pageSize, s.mapPages, s.allocatedPages, s.activePages, s.currentMb)
    requires s.mapPages > 0 && 100 * s.activePages < TWO64 && 100 * s.allocatedPages < TWO64
    requires Planned(dbMax, s, mode, floor) < dbMax
    ensures 100 * s.activePages < 65 * s.mapPages
    ensures mode == Startup || 100 * s.allocatedPages < 80 * s.mapPages
  {
    PercentMeans(s.activePages, s.mapPages, 65);
    PercentMeans(s.allocatedPages, s.mapPages, 80);
  }

  // ---------------------------------------------------------------------------------------------
  // Growing after a full map

  function GrowthStep(base: word): word {
    var next := Wrap(base + base / 4);
    if next <= base then Wrap(next + 1) else next
  }

  function GrowFromState(oldMb: uint, state: Option<Sizing>, floor: uint): uint {
    var base: word := if state.Some? && oldMb < state.value.currentMb then state.value.currentMb else oldMb;
    var step := GrowthStep(base);
    var next := if state.Some? && step < EffectiveTarget(state.value, Preflight, floor)
                then EffectiveTarget(state.value, Preflight, floor) else step;
    if next > UINT_MAX then UINT_MAX else next
  }

  lemma GrowthStepGrows(base: uint)
    ensures GrowthStep(base) > base
  {
    NoWrap(base + base / 4);
    NoWrap(base + base / 4 + 1);
  }

  /** The retry is strictly larger than both the configured and the live map, unless it is clamped. */
  lemma RetryGrows(oldMb: uint, state: Option<Sizing>, floor: uint)
    ensures var next := GrowFromState(oldMb, state, floor);
            next == UINT_MAX ||
            (next > oldMb && (state.Some? ==>
               next > state.value.currentMb && next >= EffectiveTarget(state.value, Preflight, floor)))
  {
    var base := if state.Some? && oldMb < state.value.currentMb then state.value.currentMb else oldMb;
    GrowthStepGrows(base);
  }
}
