/**
 * The demo page: `CounterApp` puts its card stylesheet through the global
 * `css` tag and mounts one `<counter-state>` around a `sub-button`, a
 * `current-count` and an `add-button`; `App` mounts ten of them with initial
 * counts unset, 10, 20, ..., 90. The stylesheet text is an opaque key here.
 */
module App {
  import opened Wrappers
  import opened Nodes
  import SC = StyleCache
  import C = Counter

  /** How many `CounterApp`s `App()` renders. */
  const AppCount: nat := 10

  /** The `initialCount` of the `j`-th `CounterApp` on the page: unset for the first, then 10, 20, ... */
  function InitialCountAt(j: nat): Option<int> {
    if j == 0 then None else Some(10 * j)
  }

  /** Everything the page holds: the stylesheet caches and the counter signals. */
  datatype Page = Page(styles: SC.World, counters: C.Store)

  /** The global `css` instance exists and provider ids are fresh. */
  ghost predicate Shape(pg: Page) {
    SC.Global < |pg.styles.instances| && C.Valid(pg.counters)
  }

  /** The shape holds and the stylesheet caches agree with the page. */
  ghost predicate Valid(pg: Page) {
    Shape(pg) && SC.Valid(pg.styles)
  }

  /** The page at load time: the document's own nodes and no counter yet. */
  function Load(dom: SC.Dom, next: NodeId): (pg: Page)
    requires SC.DomWellFormed(dom, next)
    requires forall s, x :: s in dom && x in dom[s] ==> !x.StyleNode?
    ensures Valid(pg)
    ensures pg.styles.instances[SC.Global].cache == {} && pg.counters.counts == map[]
  {
    Page(SC.Init(dom, next), C.Empty())
  }

  /**
   * Mounting one `CounterApp` under reactive owner `owner`: the card
   * stylesheet `card` is requested from the global cache and a new provider
   * starts at `initial` (0 when unset). Its three consumers are bound to it,
   * so each of them connects.
   */
  function MountCounterApp(pg: Page, owner: SC.OwnerId, card: SC.Key, initial: Option<int>): (r: (Page, C.ProviderId))
    requires Shape(pg)
    ensures Shape(r.0)
    ensures card in r.0.styles.instances[SC.Global].cache
    ensures card in pg.styles.instances[SC.Global].cache ==> r.0.styles == pg.styles
    ensures card !in pg.styles.instances[SC.Global].cache ==> r.0.styles == SC.Css(pg.styles, SC.Global, owner, card)
    ensures r.1 !in pg.counters.counts && r.0.counters.counts.Keys == pg.counters.counts.Keys + {r.1}
    ensures r.0.counters.counts[r.1] == C.InitialCount(initial)
    ensures forall q :: q in pg.counters.counts ==> r.0.counters.counts[q] == pg.counters.counts[q]
    ensures C.Connect(r.0.counters, Some(r.1)) == Success(r.1)
  {
    var counters := C.MountProvider(pg.counters, initial);
    (Page(SC.Css(pg.styles, SC.Global, owner, card), counters.0), counters.1)
  }

  /** Mounting a `CounterApp` keeps the page consistent, with the card style attached. */
  lemma {:induction false} MountCounterAppKeepsValid(pg: Page, owner: SC.OwnerId, card: SC.Key, initial: Option<int>)
    requires Valid(pg)
    ensures Valid(MountCounterApp(pg, owner, card, initial).0)
    ensures SC.Attached(MountCounterApp(pg, owner, card, initial).0.styles.dom, SC.Global, card)
  {
    var styles := MountCounterApp(pg, owner, card, initial).0.styles;
    SC.CssKeepsValid(pg.styles, SC.Global, owner, card);
    SC.CachedIffAttached(styles, SC.Global, card);
  }

  /**
   * Mounting the `CounterApp`s `j` to `n - 1` of the page one after the
   * other, the `k`-th under owner `owner0 + k`.
   */
  function MountRange(pg: Page, owner0: SC.OwnerId, card: SC.Key, j: nat, n: nat): (r: Page)
    requires Shape(pg)
    ensures Shape(r)
    decreases n - j
  {
    if n <= j then pg
    else MountRange(MountCounterApp(pg, owner0 + j, card, InitialCountAt(j)).0, owner0, card, j + 1, n)
  }

  /**
   * The stylesheet half of mounting apps `j` to `n - 1`: one request of
   * `card` each through the global `css`. Once the key is cached the requests
   * change nothing, so the first request is the only one that counts.
   */
  function RequestCard(w: SC.World, owner0: SC.OwnerId, card: SC.Key, j: nat, n: nat): (r: SC.World)
    requires SC.Global < |w.instances|
    ensures |r.instances| == |w.instances|
    ensures card in w.instances[SC.Global].cache ==> r == w
    ensures j < n ==> r == SC.Css(w, SC.Global, owner0 + j, card)
    decreases n - j
  {
    if n <= j then w else RequestCard(SC.Css(w, SC.Global, owner0 + j, card), owner0, card, j + 1, n)
  }

  /**
   * The counter half of mounting apps `j` to `n - 1`: one new provider per
   * app, the `k`-th with id `s.next + (k - j)` starting at its initial count;
   * the providers already mounted keep their values.
   */
  function MountProviders(s: C.Store, j: nat, n: nat): (r: C.Store)
    requires C.Valid(s) && j <= n
    ensures C.Valid(r) && r.next == s.next + (n - j)
    ensures forall q :: q in s.counts ==> q in r.counts && r.counts[q] == s.counts[q]
    ensures forall id :: s.next <= id < r.next ==> id in r.counts
    ensures forall k :: j <= k < n ==> r.counts[s.next + (k - j)] == C.InitialCount(InitialCountAt(k))
    decreases n - j
  {
    if n == j then s
    else
      var s1 := C.MountProvider(s, InitialCountAt(j)).0;
      var r := MountProviders(s1, j + 1, n);
      forall k | j + 1 <= k < n
        ensures r.counts[s.next + (k - j)] == C.InitialCount(InitialCountAt(k))
      {
        assert s.next + (k - j) == s1.next + (k - (j + 1));
      }
      r
  }

  /**
   * Mounting apps one after the other is the same as requesting the card
   * once per app and mounting the providers: the two halves of the page
   * share no state.
   */
  lemma {:induction false} MountRangeSplits(pg: Page, owner0: SC.OwnerId, card: SC.Key, j: nat, n: nat)
    requires Shape(pg) && j <= n
    ensures MountRange(pg, owner0, card, j, n) ==
      Page(RequestCard(pg.styles, owner0, card, j, n), MountProviders(pg.counters, j, n))
    decreases n - j
  {
    if j < n {
      var first := MountCounterApp(pg, owner0 + j, card, InitialCountAt(j)).0;
      assert first.styles == SC.Css(pg.styles, SC.Global, owner0 + j, card);
      assert first.counters == C.MountProvider(pg.counters, InitialCountAt(j)).0;
      MountRangeSplits(first, owner0, card, j + 1, n);
    }
  }

  /**
   * The first `n` `CounterApp`s of the page, stated through the two
   * independent halves (`MountFirstIsSequential` shows it is the one-by-one
   * mounting).
   */
  function MountFirst(pg: Page, owner0: SC.OwnerId, card: SC.Key, n: nat): (r: Page)
    requires Shape(pg)
    ensures Shape(r)
  {
    Page(RequestCard(pg.styles, owner0, card, 0, n), MountProviders(pg.counters, 0, n))
  }

  /** The halves, put back together, are the `CounterApp`s mounted one after the other. */
  lemma {:induction false} MountFirstIsSequential(pg: Page, owner0: SC.OwnerId, card: SC.Key, n: nat)
    requires Shape(pg)
    ensures MountFirst(pg, owner0, card, n) == MountRange(pg, owner0, card, 0, n)
  {
    MountRangeSplits(pg, owner0, card, 0, n);
  }

  /** Mounting the first `n` apps keeps the page consistent. */
  lemma {:induction false} MountFirstKeepsValid(pg: Page, owner0: SC.OwnerId, card: SC.Key, n: nat)
    requires Valid(pg)
    ensures Valid(MountFirst(pg, owner0, card, n))
  {
    if 0 < n {
      SC.CssKeepsValid(pg.styles, SC.Global, owner0, card);
    }
  }

  /**
   * The `j`-th app gets the fresh provider `next + j`, starting at its
   * initial count; providers mounted before keep their values.
   */
  lemma {:induction false} MountFirstProvider(pg: Page, owner0: SC.OwnerId, card: SC.Key, n: nat, j: nat)
    requires Shape(pg) && j < n
    ensures pg.counters.next + j !in pg.counters.counts
    ensures pg.counters.next + j in MountFirst(pg, owner0, card, n).counters.counts
    ensures MountFirst(pg, owner0, card, n).counters.counts[pg.counters.next + j] == C.InitialCount(InitialCountAt(j))
  {
    assert MountFirst(pg, owner0, card, n).counters.counts[pg.counters.next + (j - 0)] == C.InitialCount(InitialCountAt(j));
  }

  /**
   * All mounted apps share one stylesheet: the card style is attached for
   * the global instance, and its cleanup belongs to the first app alone.
   */
  lemma {:induction false} SharedStyleOwner(pg: Page, owner0: SC.OwnerId, card: SC.Key, n: nat)
    requires Valid(pg) && card !in pg.styles.instances[SC.Global].cache && 0 < n
    ensures SC.Attached(MountFirst(pg, owner0, card, n).styles.dom, SC.Global, card)
    ensures SC.ReleasesKey(MountFirst(pg, owner0, card, n).styles, owner0, SC.Global, card)
    ensures forall o :: o != owner0 ==> !SC.ReleasesKey(MountFirst(pg, owner0, card, n).styles, o, SC.Global, card)
  {
    SC.CssSoleOwner(pg.styles, SC.Global, owner0, card);
    SC.CssInserts(pg.styles, SC.Global, owner0, card);
  }

  /**
   * Unmounting one `CounterApp`: its owner's cleanups run and its provider
   * goes away.
   */
  function UnmountCounterApp(pg: Page, owner: SC.OwnerId, p: C.ProviderId): (r: Page)
    requires Shape(pg)
    ensures Shape(r)
    ensures r.styles == SC.Teardown(pg.styles, owner)
    ensures r.counters.counts.Keys == pg.counters.counts.Keys - {p}
    ensures forall q :: q in r.counters.counts ==> r.counters.counts[q] == pg.counters.counts[q]
  {
    Page(SC.Teardown(pg.styles, owner), pg.counters.(counts := pg.counters.counts - {p}))
  }

  /** Unmounting a `CounterApp` keeps the page consistent. */
  lemma {:induction false} UnmountKeepsValid(pg: Page, owner: SC.OwnerId, p: C.ProviderId)
    requires Valid(pg)
    ensures Valid(UnmountCounterApp(pg, owner, p))
  {
    SC.TeardownKeepsValid(pg.styles, owner);
  }

  /**
   * Unmounting the first `CounterApp` takes the shared card stylesheet with
   * it: the key leaves the global cache and its node leaves the page.
   */
  lemma {:induction false} UnmountFirstDropsSharedStyle(pg: Page, owner0: SC.OwnerId, card: SC.Key, n: nat)
    requires Valid(pg) && card !in pg.styles.instances[SC.Global].cache && 0 < n
    ensures
      var after := UnmountCounterApp(MountFirst(pg, owner0, card, n), owner0, pg.counters.next);
      && card !in after.styles.instances[SC.Global].cache
      && !SC.Attached(after.styles.dom, SC.Global, card)
  {
    SC.CssKeepsValid(pg.styles, SC.Global, owner0, card);
    SC.CssSoleOwner(pg.styles, SC.Global, owner0, card);
    SC.TeardownDropsOwned(SC.Css(pg.styles, SC.Global, owner0, card), owner0, SC.Global, card);
  }

  /** Unmounting one app leaves the counter of every other app as it was. */
  lemma {:induction false} UnmountKeepsOtherCounters(pg: Page, owner0: SC.OwnerId, card: SC.Key, n: nat, i: nat, j: nat)
    requires Shape(pg) && i < n && j < n && i != j
    ensures
      var after := UnmountCounterApp(MountFirst(pg, owner0, card, n), owner0 + i, pg.counters.next + i);
      && pg.counters.next + i !in after.counters.counts
      && pg.counters.next + j in after.counters.counts
      && after.counters.counts[pg.counters.next + j] == C.InitialCount(InitialCountAt(j))
  {
    MountFirstProvider(pg, owner0, card, n, j);
  }

  /**
   * Unmounting any other component, such as a later `CounterApp`, keeps the
   * shared stylesheet: it never registered a cleanup for it.
   */
  lemma {:induction false} UnmountOtherKeepsSharedStyle(pg: Page, owner0: SC.OwnerId, card: SC.Key, n: nat, o: SC.OwnerId, p: C.ProviderId)
    requires Valid(pg) && card !in pg.styles.instances[SC.Global].cache && 0 < n && o != owner0
    ensures
      var after := UnmountCounterApp(MountFirst(pg, owner0, card, n), o, p);
      && card in after.styles.instances[SC.Global].cache
      && SC.Attached(after.styles.dom, SC.Global, card)
  {
    SC.CssKeepsValid(pg.styles, SC.Global, owner0, card);
    SC.CssSoleOwner(pg.styles, SC.Global, owner0, card);
    SC.TeardownKeepsUnowned(SC.Css(pg.styles, SC.Global, owner0, card), o, SC.Global, card);
  }

  /** `App()`: the ten `CounterApp`s, under owners `owner0` to `owner0 + 9`. */
  function MountApp(pg: Page, owner0: SC.OwnerId, card: SC.Key): (r: Page)
    requires Shape(pg)
    ensures Shape(r)
  {
    MountFirst(pg, owner0, card, AppCount)
  }

  /** `App()` mounts its ten `CounterApp`s one after the other. */
  lemma {:induction false} AppIsSequential(pg: Page, owner0: SC.OwnerId, card: SC.Key)
    requires Shape(pg)
    ensures MountApp(pg, owner0, card) == MountRange(pg, owner0, card, 0, AppCount)
  {
    MountFirstIsSequential(pg, owner0, card, AppCount);
  }

  /**
   * The `j`-th of the ten apps gets the fresh provider `next + j` starting
   * at `10 * j` (the first has no attribute and falls back to 0).
   */
  lemma {:induction false} AppCounters(pg: Page, owner0: SC.OwnerId, card: SC.Key, j: nat)
    requires Shape(pg) && j < AppCount
    ensures pg.counters.next + j !in pg.counters.counts
    ensures pg.counters.next + j in MountApp(pg, owner0, card).counters.counts
    ensures MountApp(pg, owner0, card).counters.counts[pg.counters.next + j] == 10 * j
  {
    MountFirstProvider(pg, owner0, card, AppCount, j);
  }
}
