/**
 * The stylesheet deduplication cache of src/css.ts.
 *
 * `createCSS(scope, {prepend})` makes a closure with a private cache of
 * stylesheet bodies. Its `css` tag keys on the first template segment: a body
 * already in the cache is ignored; otherwise the body is cached, one
 * `<style>` node holding it is put at the front (`prepend`) or the back of
 * the scope, and a cleanup is registered with the current reactive owner.
 * When that owner is torn down the cleanup deletes the key and removes the
 * node. Only the call that inserted a node registers a cleanup, so there is no
 * reference counting: the first requester's teardown releases the body for
 * everyone.
 *
 * The world holds every `createCSS` closure (index 0 is the module-level
 * `css`), the children of every scope element, and the pending cleanups in
 * the order they were registered, each tagged with the owner it was registered under.
 */
module StyleCache {
  import opened Wrappers
  import opened Nodes

  /** A stylesheet body, compared by exact string equality. */
  type Key = string

  /** Which `createCSS` closure made a style node (0 is the module-level `css`). */
  type InstanceId = nat

  /** A reactive owner (a component instance) whose teardown runs its cleanups. */
  type OwnerId = nat

  /** An element a cache attaches style nodes to: `document.head` or a caller's element. */
  datatype Scope = Head | Element(id: nat)

  /**
   * One `createCSS` closure: the scope it was given (None until the first
   * insertion falls back to `document.head`), the placement option and the
   * set of bodies it has cached.
   */
  datatype Instance = Instance(scope: Option<Scope>, prepend: bool, cache: set<Key>)

  /** The `onCleanup` callback of the call that inserted node `node` for `key`. */
  datatype Cleanup = Cleanup(owner: OwnerId, inst: InstanceId, key: Key, node: NodeId)

  /** The children of each scope element. */
  type Dom = map<Scope, seq<Node>>

  datatype World = World(
    instances: seq<Instance>,
    dom: Dom,
    cleanups: seq<Cleanup>,
    nextNode: NodeId)

  /** The module-level `css`, created once by `createCSS()` with no scope and no options. */
  const Global: InstanceId := 0

  function Children(dom: Dom, s: Scope): seq<Node> {
    if s in dom then dom[s] else []
  }

  /** A style node that instance `i` made for body `k` is attached somewhere on the page. */
  ghost predicate Attached(dom: Dom, i: InstanceId, k: Key) {
    exists s, x :: s in dom && x in dom[s] && x.StyleNode? && x.madeBy == i && x.text == k
  }

  /** Node ids are fresh below `next`, and every node is attached once, to one element. */
  ghost predicate DomWellFormed(dom: Dom, next: NodeId) {
    && (forall s, x :: s in dom && x in dom[s] ==> x.id < next)
    && (forall s :: s in dom ==> NoDup(dom[s]))
    && (forall s1, s2, x, y ::
          s1 in dom && s2 in dom && x in dom[s1] && y in dom[s2] && x.id == y.id ==> x == y && s1 == s2)
  }

  /** A pending cleanup belongs to a cached key whose node is attached to its instance's scope. */
  ghost predicate CleanupsLive(w: World) {
    forall c :: c in w.cleanups ==>
      && c.inst < |w.instances|
      && w.instances[c.inst].scope.Some?
      && c.key in w.instances[c.inst].cache
      && StyleNode(c.node, c.key, c.inst) in Children(w.dom, w.instances[c.inst].scope.value)
  }

  /** Every attached style node was inserted by a call whose cleanup is still pending. */
  ghost predicate NodesHaveCleanups(w: World) {
    forall s, x :: s in w.dom && x in w.dom[s] && x.StyleNode? ==>
      exists c :: c in w.cleanups && c.node == x.id && c.key == x.text && c.inst == x.madeBy
  }

  /** Every cached key has a pending cleanup that will release it. */
  ghost predicate CachedKeysHaveCleanups(w: World) {
    forall i, k :: 0 <= i < |w.instances| && k in w.instances[i].cache ==>
      exists c :: c in w.cleanups && c.inst == i && c.key == k
  }

  /** At most one pending cleanup per instance and key. */
  ghost predicate OneCleanupPerKey(cs: seq<Cleanup>) {
    forall c, d :: c in cs && d in cs && c.inst == d.inst && c.key == d.key ==> c == d
  }

  /** The states reachable from `Init` by `CreateCSS`, `Css` and `Teardown`. */
  ghost predicate Valid(w: World) {
    && DomWellFormed(w.dom, w.nextNode)
    && CleanupsLive(w)
    && NodesHaveCleanups(w)
    && CachedKeysHaveCleanups(w)
    && OneCleanupPerKey(w.cleanups)
  }

  // ---------------------------------------------------------------------------
  // Operations
  // ---------------------------------------------------------------------------

  /**
   * The page at module load: its existing nodes, none of them made by a
   * cache, and the module-level `css` instance with an empty cache.
   */
  function Init(dom: Dom, next: NodeId): (w: World)
    requires DomWellFormed(dom, next)
    requires forall s, x :: s in dom && x in dom[s] ==> !x.StyleNode?
    ensures Valid(w)
    ensures |w.instances| == 1 && w.instances[Global].cache == {}
    ensures w.instances[Global].scope.None? && !w.instances[Global].prepend
    ensures forall i, k :: !Attached(w.dom, i, k)
  {
    World([Instance(None, false, {})], dom, [], next)
  }

  /** `createCSS(scope, {prepend})`: a new closure with its own empty cache. */
  function CreateCSS(w: World, scope: Option<Scope>, prepend: bool): (r: (World, InstanceId))
    ensures r.1 == |w.instances| && |r.0.instances| == |w.instances| + 1
    ensures r.0.instances[r.1].cache == {}
    ensures r.0.instances[r.1].scope == scope && r.0.instances[r.1].prepend == prepend
    ensures forall j :: 0 <= j < |w.instances| ==> r.0.instances[j] == w.instances[j]
    ensures r.0.dom == w.dom && r.0.cleanups == w.cleanups && r.0.nextNode == w.nextNode
    ensures Valid(w) ==> Valid(r.0)
  {
    (w.(instances := w.instances + [Instance(scope, prepend, {})]), |w.instances|)
  }

  /**
   * The `css` tag of instance `i`, called under reactive owner `owner` with
   * first template segment `raw`. Its return value is always `null` and is not
   * represented.
   */
  function Css(w: World, i: InstanceId, owner: OwnerId, raw: Key): (r: World)
    requires i < |w.instances|
    ensures |r.instances| == |w.instances|
    ensures forall j :: 0 <= j < |w.instances| && j != i ==> r.instances[j] == w.instances[j]
    ensures r.instances[i].prepend == w.instances[i].prepend
    ensures raw in w.instances[i].cache ==> r == w
    ensures raw !in w.instances[i].cache ==>
      && r.instances[i].cache == w.instances[i].cache + {raw}
      && r.cleanups == w.cleanups + [Cleanup(owner, i, raw, w.nextNode)]
      && r.nextNode == w.nextNode + 1
    ensures w.instances[i].scope.Some? ==> r.instances[i].scope == w.instances[i].scope
    ensures raw !in w.instances[i].cache && w.instances[i].scope.None? ==> r.instances[i].scope == Some(Head)
  {
    var inst := w.instances[i];
    if raw in inst.cache then w
    else
      var scope := inst.scope.GetOr(Head);
      var style := StyleNode(w.nextNode, raw, i);
      World(
        w.instances[i := Instance(Some(scope), inst.prepend, inst.cache + {raw})],
        w.dom[scope := Place(Children(w.dom, scope), style, inst.prepend)],
        w.cleanups + [Cleanup(owner, i, raw, w.nextNode)],
        w.nextNode + 1)
  }

  /** One cleanup callback: `cache.delete(key)` then `style.remove()`. */
  function RunCleanup(w: World, c: Cleanup): (r: World)
    ensures |r.instances| == |w.instances| && r.cleanups == w.cleanups && r.nextNode == w.nextNode
  {
    var instances :=
      if c.inst < |w.instances| then
        w.instances[c.inst := w.instances[c.inst].(cache := w.instances[c.inst].cache - {c.key})]
      else w.instances;
    w.(instances := instances, dom := map s | s in w.dom :: Without(w.dom[s], {c.node}))
  }

  /** The cleanups of a torn-down owner, run one after the other. */
  function RunCleanups(w: World, cs: seq<Cleanup>): (r: World)
    ensures |r.instances| == |w.instances| && r.cleanups == w.cleanups && r.nextNode == w.nextNode
    decreases |cs|
  {
    if cs == [] then w else RunCleanups(RunCleanup(w, cs[0]), cs[1..])
  }

  /** The cleanups registered under `o`, in registration order. */
  function Owned(cs: seq<Cleanup>, o: OwnerId): (r: seq<Cleanup>)
    ensures forall c :: c in r <==> c in cs && c.owner == o
  {
    if cs == [] then []
    else if cs[0].owner == o then [cs[0]] + Owned(cs[1..], o)
    else Owned(cs[1..], o)
  }

  /** The cleanups registered under owners other than `o`, in registration order. */
  function Others(cs: seq<Cleanup>, o: OwnerId): (r: seq<Cleanup>)
    ensures forall c :: c in r <==> c in cs && c.owner != o
  {
    if cs == [] then []
    else if cs[0].owner == o then Others(cs[1..], o)
    else [cs[0]] + Others(cs[1..], o)
  }

  /** Disposal of owner `o`: its cleanups leave the owner and are run. */
  function Teardown(w: World, o: OwnerId): (r: World)
    ensures forall c :: c in r.cleanups <==> c in w.cleanups && c.owner != o
    ensures |r.instances| == |w.instances| && r.nextNode == w.nextNode
  {
    RunCleanups(w.(cleanups := Others(w.cleanups, o)), Owned(w.cleanups, o))
  }

  // ---------------------------------------------------------------------------
  // Running a set of cleanups at once
  // ---------------------------------------------------------------------------

  /** The keys that the cleanups in `cs` delete from instance `j`'s cache. */
  function KeysOf(cs: set<Cleanup>, j: InstanceId): set<Key> {
    set c | c in cs && c.inst == j :: c.key
  }

  /** The nodes that the cleanups in `cs` remove. */
  function NodesOf(cs: set<Cleanup>): set<NodeId> {
    set c | c in cs :: c.node
  }

  /** The combined effect of the cleanups in `cs`, in no particular order. */
  function Release(w: World, cs: set<Cleanup>): World {
    w.(instances := seq(|w.instances|, j requires 0 <= j < |w.instances| =>
                          w.instances[j].(cache := w.instances[j].cache - KeysOf(cs, j))),
       dom := map s | s in w.dom :: Without(w.dom[s], NodesOf(cs)))
  }

  // ---------------------------------------------------------------------------
  // The cache invariant: cached keys and attached nodes agree
  // ---------------------------------------------------------------------------

  /** A key is in an instance's cache exactly when that instance's node for it is attached. */
  lemma {:induction false} CachedIffAttached(w: World, i: InstanceId, k: Key)
    requires Valid(w) && i < |w.instances|
    ensures k in w.instances[i].cache <==> Attached(w.dom, i, k)
  {
    if k in w.instances[i].cache {
      var c :| c in w.cleanups && c.inst == i && c.key == k;
      var s := w.instances[i].scope.value;
      assert StyleNode(c.node, k, i) in Children(w.dom, s);
      assert s in w.dom;
    }
    if Attached(w.dom, i, k) {
      var s, x :| s in w.dom && x in w.dom[s] && x.StyleNode? && x.madeBy == i && x.text == k;
      var c :| c in w.cleanups && c.node == x.id && c.key == x.text && c.inst == x.madeBy;
    }
  }

  /**
   * Within one instance a key has at most one style node on the whole page,
   * and it sits in that instance's scope.
   */
  lemma {:induction false} AtMostOneStyleNode(w: World, i: InstanceId, k: Key, s1: Scope, s2: Scope, x: Node, y: Node)
    requires Valid(w)
    requires s1 in w.dom && x in w.dom[s1] && x == StyleNode(x.id, k, i)
    requires s2 in w.dom && y in w.dom[s2] && y == StyleNode(y.id, k, i)
    ensures x == y && s1 == s2
    ensures i < |w.instances| && w.instances[i].scope == Some(s1)
  {
    var c :| c in w.cleanups && c.node == x.id && c.key == k && c.inst == i;
    var d :| d in w.cleanups && d.node == y.id && d.key == k && d.inst == i;
    assert c == d;
    var s := w.instances[i].scope.value;
    assert x in Children(w.dom, s);
  }

  // ---------------------------------------------------------------------------
  // css
  // ---------------------------------------------------------------------------

  /**
   * A call with an absent key inserts exactly one new node, whose text is the
   * key, first in the scope with `prepend` and last otherwise, keeping the
   * existing children in order and every other element unchanged.
   */
  lemma {:induction false} CssInserts(w: World, i: InstanceId, owner: OwnerId, raw: Key)
    requires Valid(w) && i < |w.instances| && raw !in w.instances[i].cache
    ensures
      var r := Css(w, i, owner, raw);
      var sc := w.instances[i].scope.GetOr(Head);
      var kids := Children(w.dom, sc);
      var n := StyleNode(w.nextNode, raw, i);
      && (forall s, x :: s in w.dom && x in w.dom[s] ==> x.id != n.id)
      && |Children(r.dom, sc)| == |kids| + 1
      && (w.instances[i].prepend ==> Children(r.dom, sc)[0] == n && Children(r.dom, sc)[1..] == kids)
      && (!w.instances[i].prepend ==> Children(r.dom, sc)[|kids|] == n && Children(r.dom, sc)[..|kids|] == kids)
      && (forall s :: s != sc ==> Children(r.dom, s) == Children(w.dom, s))
      && !Attached(w.dom, i, raw)
      && Attached(r.dom, i, raw)
  {
    var r := Css(w, i, owner, raw);
    var sc := w.instances[i].scope.GetOr(Head);
    var n := StyleNode(w.nextNode, raw, i);
    CachedIffAttached(w, i, raw);
    assert n in r.dom[sc];
  }

  /** The children of every element after a call with an absent key: the old ones plus the new node. */
  lemma {:induction false} CssChildren(w: World, i: InstanceId, owner: OwnerId, raw: Key)
    requires i < |w.instances| && raw !in w.instances[i].cache
    ensures
      var r := Css(w, i, owner, raw);
      var sc := w.instances[i].scope.GetOr(Head);
      && r.dom.Keys == w.dom.Keys + {sc}
      && (forall s :: s != sc ==> Children(r.dom, s) == Children(w.dom, s))
      && (forall x :: x in Children(r.dom, sc) <==> x in Children(w.dom, sc) || x == StyleNode(w.nextNode, raw, i))
  {
  }

  /** Every node attached after a call with an absent key was attached before or is the new one. */
  lemma {:induction false} CssAttachedBefore(w: World, i: InstanceId, owner: OwnerId, raw: Key)
    requires i < |w.instances| && raw !in w.instances[i].cache
    ensures
      var dom: Dom := Css(w, i, owner, raw).dom;
      forall s, x :: s in dom && x in dom[s] ==>
        x in Children(w.dom, s) || (s == w.instances[i].scope.GetOr(Head) && x == StyleNode(w.nextNode, raw, i))
  {
    var dom: Dom := Css(w, i, owner, raw).dom;
    CssChildren(w, i, owner, raw);
    forall s, x: Node | s in dom && x in dom[s]
      ensures x in Children(w.dom, s) || (s == w.instances[i].scope.GetOr(Head) && x == StyleNode(w.nextNode, raw, i))
    {
      assert x in Children(dom, s);
    }
  }

  /** Inserting a node with a fresh id keeps ids unique and below the new bound. */
  lemma {:induction false} CssKeepsDomWellFormed(w: World, i: InstanceId, owner: OwnerId, raw: Key)
    requires DomWellFormed(w.dom, w.nextNode) && i < |w.instances| && raw !in w.instances[i].cache
    ensures DomWellFormed(Css(w, i, owner, raw).dom, w.nextNode + 1)
  {
    CssAttachedBefore(w, i, owner, raw);
    CssKeepsNoDup(w, i, owner, raw);
    CssKeepsIdsUnique(w, i, owner, raw);
  }

  lemma {:induction false} CssKeepsIdsUnique(w: World, i: InstanceId, owner: OwnerId, raw: Key)
    requires DomWellFormed(w.dom, w.nextNode) && i < |w.instances| && raw !in w.instances[i].cache
    ensures
      var dom := Css(w, i, owner, raw).dom;
      forall s1, s2, x, y ::
        s1 in dom && s2 in dom && x in dom[s1] && y in dom[s2] && x.id == y.id ==> x == y && s1 == s2
  {
    var dom: Dom := Css(w, i, owner, raw).dom;
    var sc := w.instances[i].scope.GetOr(Head);
    var n := StyleNode(w.nextNode, raw, i);
    CssAttachedBefore(w, i, owner, raw);
    forall s1, s2, x: Node, y: Node | s1 in dom && s2 in dom && x in dom[s1] && y in dom[s2] && x.id == y.id
      ensures x == y && s1 == s2
    {
      assert x in Children(w.dom, s1) ==> s1 in w.dom && x.id < w.nextNode;
      assert y in Children(w.dom, s2) ==> s2 in w.dom && y.id < w.nextNode;
    }
  }

  lemma {:induction false} CssKeepsNoDup(w: World, i: InstanceId, owner: OwnerId, raw: Key)
    requires DomWellFormed(w.dom, w.nextNode) && i < |w.instances| && raw !in w.instances[i].cache
    ensures var dom: Dom := Css(w, i, owner, raw).dom; forall s :: s in dom ==> NoDup(dom[s])
  {
    var sc := w.instances[i].scope.GetOr(Head);
    var n := StyleNode(w.nextNode, raw, i);
    assert n !in Children(w.dom, sc);
    assert NoDup(Children(w.dom, sc));
  }

  /** A call with an absent key keeps the invariant. */
  lemma {:induction false} CssKeepsValid(w: World, i: InstanceId, owner: OwnerId, raw: Key)
    requires Valid(w) && i < |w.instances|
    ensures Valid(Css(w, i, owner, raw))
  {
    if raw !in w.instances[i].cache {
      CssKeepsDomWellFormed(w, i, owner, raw);
      CssKeepsCleanupsLive(w, i, owner, raw);
      CssKeepsNodesHaveCleanups(w, i, owner, raw);
      CssKeepsCachedKeysHaveCleanups(w, i, owner, raw);
      CssKeepsOneCleanupPerKey(w, i, owner, raw);
    }
  }

  lemma {:induction false} CssKeepsOneCleanupPerKey(w: World, i: InstanceId, owner: OwnerId, raw: Key)
    requires CleanupsLive(w) && OneCleanupPerKey(w.cleanups)
    requires i < |w.instances| && raw !in w.instances[i].cache
    ensures OneCleanupPerKey(Css(w, i, owner, raw).cleanups)
  {
    forall d | d in w.cleanups
      ensures d.inst != i || d.key != raw
    {
    }
  }

  lemma {:induction false} CssKeepsCleanupsLive(w: World, i: InstanceId, owner: OwnerId, raw: Key)
    requires CleanupsLive(w) && i < |w.instances| && raw !in w.instances[i].cache
    ensures CleanupsLive(Css(w, i, owner, raw))
  {
    var r := Css(w, i, owner, raw);
    var sc := w.instances[i].scope.GetOr(Head);
    var c := Cleanup(owner, i, raw, w.nextNode);
    CssChildren(w, i, owner, raw);
    forall d | d in r.cleanups
      ensures d.inst < |r.instances| && r.instances[d.inst].scope.Some?
      ensures d.key in r.instances[d.inst].cache
      ensures StyleNode(d.node, d.key, d.inst) in Children(r.dom, r.instances[d.inst].scope.value)
    {
      if d != c {
        assert d in w.cleanups;
        if d.inst == i {
          assert w.instances[i].scope == Some(sc);
        }
      }
    }
  }

  lemma {:induction false} CssKeepsNodesHaveCleanups(w: World, i: InstanceId, owner: OwnerId, raw: Key)
    requires NodesHaveCleanups(w) && i < |w.instances| && raw !in w.instances[i].cache
    ensures NodesHaveCleanups(Css(w, i, owner, raw))
  {
    var r := Css(w, i, owner, raw);
    var sc := w.instances[i].scope.GetOr(Head);
    var n := StyleNode(w.nextNode, raw, i);
    var c := Cleanup(owner, i, raw, w.nextNode);
    CssChildren(w, i, owner, raw);
    forall s, x | s in r.dom && x in r.dom[s] && x.StyleNode?
      ensures exists d :: d in r.cleanups && d.node == x.id && d.key == x.text && d.inst == x.madeBy
    {
      assert x in Children(r.dom, s);
      if s == sc && x == n {
        assert c in r.cleanups;
      } else {
        assert x in Children(w.dom, s);
        var d :| d in w.cleanups && d.node == x.id && d.key == x.text && d.inst == x.madeBy;
        assert d in r.cleanups;
      }
    }
  }

  lemma {:induction false} CssKeepsCachedKeysHaveCleanups(w: World, i: InstanceId, owner: OwnerId, raw: Key)
    requires CachedKeysHaveCleanups(w) && i < |w.instances| && raw !in w.instances[i].cache
    ensures CachedKeysHaveCleanups(Css(w, i, owner, raw))
  {
    var r := Css(w, i, owner, raw);
    var c := Cleanup(owner, i, raw, w.nextNode);
    forall j, k | 0 <= j < |r.instances| && k in r.instances[j].cache
      ensures exists d :: d in r.cleanups && d.inst == j && d.key == k
    {
      if j == i && k == raw {
        assert c in r.cleanups;
      } else {
        assert k in w.instances[j].cache;
        var d :| d in w.cleanups && d.inst == j && d.key == k;
        assert d in r.cleanups;
      }
    }
  }

  /** A call on instance `i` neither attaches nor detaches a node of any other instance. */
  lemma {:induction false} CssIsolatesInstances(w: World, i: InstanceId, owner: OwnerId, raw: Key, j: InstanceId, k: Key)
    requires i < |w.instances| && j != i
    ensures Attached(Css(w, i, owner, raw).dom, j, k) <==> Attached(w.dom, j, k)
  {
    if raw !in w.instances[i].cache {
      var dom: Dom := Css(w, i, owner, raw).dom;
      CssAttachedBefore(w, i, owner, raw);
      CssChildren(w, i, owner, raw);
      if Attached(dom, j, k) {
        var s, x :| s in dom && x in dom[s] && x.StyleNode? && x.madeBy == j && x.text == k;
        assert x in Children(w.dom, s);
      }
      if Attached(w.dom, j, k) {
        var s, x :| s in w.dom && x in w.dom[s] && x.StyleNode? && x.madeBy == j && x.text == k;
        assert x in Children(dom, s);
      }
    }
  }

  // ---------------------------------------------------------------------------
  // Teardown
  // ---------------------------------------------------------------------------

  /** Running no cleanup changes nothing. */
  lemma {:induction false} ReleaseNothing(w: World)
    ensures Release(w, {}) == w
  {
    var r := Release(w, {});
    assert NodesOf({}) == {};
    forall s | s in w.dom
      ensures r.dom[s] == w.dom[s]
    {
      WithoutAbsent(w.dom[s], {});
    }
    forall j | 0 <= j < |w.instances|
      ensures r.instances[j] == w.instances[j]
    {
      assert KeysOf({}, j) == {};
    }
  }

  /** Running `c` and then the set `cs` is running `{c} + cs`. */
  lemma {:induction false} ReleaseAfterCleanup(w: World, c: Cleanup, cs: set<Cleanup>)
    ensures Release(RunCleanup(w, c), cs) == Release(w, {c} + cs)
  {
    var a := Release(RunCleanup(w, c), cs);
    var b := Release(w, {c} + cs);
    assert NodesOf({c} + cs) == {c.node} + NodesOf(cs);
    forall s | s in w.dom
      ensures a.dom[s] == b.dom[s]
    {
      WithoutTwice(w.dom[s], {c.node}, NodesOf(cs));
    }
    forall j | 0 <= j < |w.instances|
      ensures a.instances[j] == b.instances[j]
    {
      assert KeysOf({c} + cs, j) == (if c.inst == j then {c.key} else {}) + KeysOf(cs, j);
    }
  }

  /** Running cleanups one by one, in any order, has their combined effect. */
  lemma {:induction false} RunCleanupsIsRelease(w: World, cs: seq<Cleanup>)
    ensures RunCleanups(w, cs) == Release(w, set c | c in cs)
    decreases |cs|
  {
    if cs == [] {
      ReleaseNothing(w);
      assert (set c | c in cs) == {};
    } else {
      RunCleanupsIsRelease(RunCleanup(w, cs[0]), cs[1..]);
      ReleaseAfterCleanup(w, cs[0], set c | c in cs[1..]);
      assert (set c | c in cs) == {cs[0]} + (set c | c in cs[1..]);
    }
  }

  /** The cleanups pending under owner `o`. */
  ghost function Mine(w: World, o: OwnerId): set<Cleanup> {
    set c | c in w.cleanups && c.owner == o
  }

  /** Teardown of `o` is the combined release of its cleanups, which then leave the world. */
  lemma {:induction false} TeardownIsRelease(w: World, o: OwnerId)
    ensures Teardown(w, o) == Release(w.(cleanups := Others(w.cleanups, o)), Mine(w, o))
  {
    var owned := Owned(w.cleanups, o);
    RunCleanupsIsRelease(w.(cleanups := Others(w.cleanups, o)), owned);
    assert (set c | c in owned) == Mine(w, o);
  }

  /** After a release, a node is a child exactly when it was one and was not released. */
  lemma {:induction false} ReleaseChildren(w: World, cs: set<Cleanup>)
    ensures Release(w, cs).dom.Keys == w.dom.Keys
    ensures forall s, x ::
      x in Children(Release(w, cs).dom, s) <==> x in Children(w.dom, s) && x.id !in NodesOf(cs)
  {
    var r := Release(w, cs);
    assert r.dom.Keys == w.dom.Keys;
    forall s, x: Node
      ensures x in Children(Release(w, cs).dom, s) <==> x in Children(w.dom, s) && x.id !in NodesOf(cs)
    {
      if s in w.dom {
        WithoutMembers(w.dom[s], NodesOf(cs));
      }
    }
  }

  /** Every node attached in `d1` is attached in the same scope of `d2` and has no id in `ids`. */
  ghost predicate AttachedWithin(d1: Dom, d2: Dom, ids: set<NodeId>) {
    forall s, x :: s in d1 && x in d1[s] ==> s in d2 && x in d2[s] && x.id !in ids
  }

  /** Every node still attached after a release was attached before and not released. */
  lemma {:induction false} ReleaseSubset(w: World, cs: set<Cleanup>)
    ensures AttachedWithin(Release(w, cs).dom, w.dom, NodesOf(cs))
  {
    var dom: Dom := Release(w, cs).dom;
    forall s | s in dom
      ensures s in w.dom && forall x :: x in dom[s] ==> x in w.dom[s] && x.id !in NodesOf(cs)
    {
      WithoutMembers(w.dom[s], NodesOf(cs));
    }
  }

  /** Detaching nodes keeps ids unique and fresh. */
  lemma {:induction false} ReleaseKeepsDomWellFormed(w: World, cs: set<Cleanup>)
    requires DomWellFormed(w.dom, w.nextNode)
    ensures DomWellFormed(Release(w, cs).dom, w.nextNode)
  {
    var dom: Dom := Release(w, cs).dom;
    ReleaseSubset(w, cs);
    forall s | s in dom
      ensures NoDup(dom[s])
    {
      WithoutNoDup(w.dom[s], NodesOf(cs));
    }
  }

  /** The world after the teardown of `o`, written as a release. */
  ghost function AfterTeardown(w: World, o: OwnerId): World {
    Release(w.(cleanups := Others(w.cleanups, o)), Mine(w, o))
  }

  /** A cleanup of another owner never shares a key or a node with one of `o`'s. */
  lemma {:induction false} OthersDisjoint(w: World, o: OwnerId, c: Cleanup, d: Cleanup)
    requires Valid(w) && c in w.cleanups && d in w.cleanups && c.owner == o && d.owner != o
    ensures c.inst != d.inst || c.key != d.key
    ensures c.node != d.node
  {
    var sc, sd := w.instances[c.inst].scope.value, w.instances[d.inst].scope.value;
    var x, y := StyleNode(c.node, c.key, c.inst), StyleNode(d.node, d.key, d.inst);
    assert x in Children(w.dom, sc) && y in Children(w.dom, sd);
    assert sc in w.dom && sd in w.dom;
  }

  lemma {:induction false} TeardownKeepsCleanupsLive(w: World, o: OwnerId)
    requires Valid(w)
    ensures CleanupsLive(AfterTeardown(w, o))
  {
    var r := AfterTeardown(w, o);
    var m := Mine(w, o);
    ReleaseChildren(w.(cleanups := Others(w.cleanups, o)), m);
    forall d | d in r.cleanups
      ensures d.inst < |r.instances| && r.instances[d.inst].scope.Some?
      ensures d.key in r.instances[d.inst].cache
      ensures StyleNode(d.node, d.key, d.inst) in Children(r.dom, r.instances[d.inst].scope.value)
    {
      assert d in w.cleanups && d.owner != o;
      forall c | c in m
        ensures (c.inst != d.inst || c.key != d.key) && c.node != d.node
      {
        OthersDisjoint(w, o, c, d);
      }
      assert d.key !in KeysOf(m, d.inst);
      assert d.node !in NodesOf(m);
    }
  }

  lemma {:induction false} TeardownKeepsNodesHaveCleanups(w: World, o: OwnerId)
    requires Valid(w)
    ensures NodesHaveCleanups(AfterTeardown(w, o))
  {
    var r := AfterTeardown(w, o);
    var m := Mine(w, o);
    ReleaseSubset(w.(cleanups := Others(w.cleanups, o)), m);
    forall s, x: Node | s in r.dom && x in r.dom[s] && x.StyleNode?
      ensures exists d :: d in r.cleanups && d.node == x.id && d.key == x.text && d.inst == x.madeBy
    {
      assert x in w.dom[s] && x.id !in NodesOf(m);
      var d :| d in w.cleanups && d.node == x.id && d.key == x.text && d.inst == x.madeBy;
      assert d !in m;
      assert d in r.cleanups;
    }
  }

  lemma {:induction false} TeardownKeepsCachedKeysHaveCleanups(w: World, o: OwnerId)
    requires Valid(w)
    ensures CachedKeysHaveCleanups(AfterTeardown(w, o))
  {
    var r := AfterTeardown(w, o);
    var m := Mine(w, o);
    forall j, k | 0 <= j < |r.instances| && k in r.instances[j].cache
      ensures exists d :: d in r.cleanups && d.inst == j && d.key == k
    {
      assert k in w.instances[j].cache && k !in KeysOf(m, j);
      var d :| d in w.cleanups && d.inst == j && d.key == k;
      assert d !in m;
      assert d in r.cleanups;
    }
  }

  /** Teardown keeps the invariant. */
  lemma {:induction false} TeardownKeepsValid(w: World, o: OwnerId)
    requires Valid(w)
    ensures Valid(Teardown(w, o))
  {
    TeardownIsRelease(w, o);
    ReleaseKeepsDomWellFormed(w.(cleanups := Others(w.cleanups, o)), Mine(w, o));
    TeardownKeepsCleanupsLive(w, o);
    TeardownKeepsNodesHaveCleanups(w, o);
    TeardownKeepsCachedKeysHaveCleanups(w, o);
  }

  /** Owner `o` holds the cleanup that deletes key `k` from instance `j`'s cache. */
  ghost predicate ReleasesKey(w: World, o: OwnerId, j: InstanceId, k: Key) {
    exists c :: c in w.cleanups && c.owner == o && c.inst == j && c.key == k
  }

  /** Owner `o` holds the cleanup that removes the node with id `id`. */
  ghost predicate ReleasesNode(w: World, o: OwnerId, id: NodeId) {
    exists c :: c in w.cleanups && c.owner == o && c.node == id
  }

  /**
   * Teardown of `o` deletes exactly the keys and removes exactly the nodes
   * whose cleanups `o` holds; every other key, node, scope and option stays.
   */
  lemma {:induction false} TeardownEffect(w: World, o: OwnerId)
    ensures forall j, k :: 0 <= j < |w.instances| ==>
      (k in Teardown(w, o).instances[j].cache <==> k in w.instances[j].cache && !ReleasesKey(w, o, j, k))
    ensures forall j :: 0 <= j < |w.instances| ==>
      Teardown(w, o).instances[j].scope == w.instances[j].scope &&
      Teardown(w, o).instances[j].prepend == w.instances[j].prepend
    ensures forall s, x ::
      x in Children(Teardown(w, o).dom, s) <==> x in Children(w.dom, s) && !ReleasesNode(w, o, x.id)
  {
    var m := Mine(w, o);
    TeardownIsRelease(w, o);
    ReleaseChildren(w.(cleanups := Others(w.cleanups, o)), m);
    forall j | 0 <= j < |w.instances|
      ensures Teardown(w, o).instances[j] == w.instances[j].(cache := w.instances[j].cache - KeysOf(m, j))
    {
      ReleaseInstance(w.(cleanups := Others(w.cleanups, o)), m, j);
    }
    forall j, k | 0 <= j < |w.instances|
      ensures k in KeysOf(m, j) <==> ReleasesKey(w, o, j, k)
    {
      if ReleasesKey(w, o, j, k) {
        var c :| c in w.cleanups && c.owner == o && c.inst == j && c.key == k;
        assert c in m;
      }
    }
    forall s, x: Node
      ensures x in Children(Teardown(w, o).dom, s) <==> x in Children(w.dom, s) && !ReleasesNode(w, o, x.id)
    {
      if ReleasesNode(w, o, x.id) {
        var c :| c in w.cleanups && c.owner == o && c.node == x.id;
        assert c in m;
      }
    }
  }

  /** The teardown of an owner without the cleanup of a cached key keeps the key and its node. */
  lemma {:induction false} TeardownKeepsUnowned(w: World, o: OwnerId, i: InstanceId, k: Key)
    requires Valid(w) && i < |w.instances| && k in w.instances[i].cache && !ReleasesKey(w, o, i, k)
    ensures k in Teardown(w, o).instances[i].cache && Attached(Teardown(w, o).dom, i, k)
  {
    TeardownEffect(w, o);
    TeardownKeepsValid(w, o);
    CachedIffAttached(Teardown(w, o), i, k);
  }

  /** The teardown of the owner holding a key's cleanup drops the key and its node. */
  lemma {:induction false} TeardownDropsOwned(w: World, o: OwnerId, i: InstanceId, k: Key)
    requires Valid(w) && i < |w.instances| && ReleasesKey(w, o, i, k)
    ensures k !in Teardown(w, o).instances[i].cache && !Attached(Teardown(w, o).dom, i, k)
  {
    TeardownEffect(w, o);
    TeardownKeepsValid(w, o);
    CachedIffAttached(Teardown(w, o), i, k);
  }

  /** Within one scope of a well-formed page, no two children share an id. */
  lemma {:induction false} ChildIdsDistinct(dom: Dom, next: NodeId, s: Scope, p: nat)
    requires DomWellFormed(dom, next) && p < |Children(dom, s)|
    ensures forall q :: 0 <= q < |Children(dom, s)| && q != p ==>
      Children(dom, s)[q].id != Children(dom, s)[p].id
  {
    var kids := Children(dom, s);
    forall q | 0 <= q < |kids| && q != p
      ensures kids[q].id != kids[p].id
    {
      assert s in dom && kids[q] in dom[s] && kids[p] in dom[s];
      assert NoDup(dom[s]);
    }
  }

  /** A node of one scope shares its id with no child of any other scope. */
  lemma {:induction false} IdOnlyInItsScope(dom: Dom, next: NodeId, sc: Scope, n: Node, s: Scope)
    requires DomWellFormed(dom, next) && n in Children(dom, sc) && s != sc
    ensures forall q :: 0 <= q < |Children(dom, s)| ==> Children(dom, s)[q].id !in {n.id}
  {
    forall q | 0 <= q < |Children(dom, s)|
      ensures Children(dom, s)[q].id !in {n.id}
    {
      assert s in dom && Children(dom, s)[q] in dom[s];
    }
  }

  /** One instance after a release: only its cache changes, by the keys released from it. */
  lemma {:induction false} ReleaseInstance(w: World, cs: set<Cleanup>, j: InstanceId)
    requires j < |w.instances|
    ensures Release(w, cs).instances[j] == w.instances[j].(cache := w.instances[j].cache - KeysOf(cs, j))
  {
  }

  /** One scope after a release: its children without the released nodes. */
  lemma {:induction false} ReleaseScope(w: World, cs: set<Cleanup>, s: Scope)
    ensures Children(Release(w, cs).dom, s) == Without(Children(w.dom, s), NodesOf(cs))
  {
  }

  /** The teardown of an owner whose only pending cleanup is `c` is the release of `c` alone. */
  lemma {:induction false} TeardownOfOne(w: World, o: OwnerId, c: Cleanup)
    requires c in w.cleanups && c.owner == o
    requires forall d :: d in w.cleanups && d.owner == o ==> d == c
    ensures Teardown(w, o) == Release(w.(cleanups := Others(w.cleanups, o)), {c})
    ensures NodesOf({c}) == {c.node}
    ensures forall j :: KeysOf({c}, j) == if j == c.inst then {c.key} else {}
  {
    assert Mine(w, o) == {c};
    TeardownIsRelease(w, o);
  }

  /** The page side of `TeardownSingle` in the node's own scope: the node leaves its position. */
  lemma {:induction false} TeardownSingleScope(w: World, o: OwnerId, c: Cleanup, sc: Scope, p: nat)
    requires c in w.cleanups && c.owner == o
    requires forall d :: d in w.cleanups && d.owner == o ==> d == c
    requires DomWellFormed(w.dom, w.nextNode)
    requires p < |Children(w.dom, sc)| && Children(w.dom, sc)[p].id == c.node
    ensures Children(Teardown(w, o).dom, sc) == Children(w.dom, sc)[..p] + Children(w.dom, sc)[p + 1..]
  {
    TeardownOfOne(w, o, c);
    ReleaseScope(w.(cleanups := Others(w.cleanups, o)), {c}, sc);
    ChildIdsDistinct(w.dom, w.nextNode, sc, p);
    WithoutOne(Children(w.dom, sc), p);
  }

  /** The page side of `TeardownSingle` elsewhere: every other scope keeps its children. */
  lemma {:induction false} TeardownSingleElsewhere(w: World, o: OwnerId, c: Cleanup, sc: Scope, p: nat, s: Scope)
    requires c in w.cleanups && c.owner == o
    requires forall d :: d in w.cleanups && d.owner == o ==> d == c
    requires DomWellFormed(w.dom, w.nextNode)
    requires p < |Children(w.dom, sc)| && Children(w.dom, sc)[p].id == c.node && s != sc
    ensures Children(Teardown(w, o).dom, s) == Children(w.dom, s)
  {
    IdOnlyInItsScope(w.dom, w.nextNode, sc, Children(w.dom, sc)[p], s);
    WithoutAbsent(Children(w.dom, s), {c.node});
    TeardownOfOne(w, o, c);
    ReleaseScope(w.(cleanups := Others(w.cleanups, o)), {c}, s);
    assert Children(Teardown(w, o).dom, s) == Without(Children(w.dom, s), {c.node});
  }

  /** The cache side of `TeardownSingle`: only `c.key` leaves only `c.inst`'s cache. */
  lemma {:induction false} TeardownSingleCaches(w: World, o: OwnerId, c: Cleanup)
    requires c in w.cleanups && c.owner == o
    requires forall d :: d in w.cleanups && d.owner == o ==> d == c
    ensures forall j :: 0 <= j < |w.instances| ==>
      Teardown(w, o).instances[j] ==
        w.instances[j].(cache := w.instances[j].cache - (if j == c.inst then {c.key} else {}))
  {
    TeardownOfOne(w, o, c);
    forall j | 0 <= j < |w.instances|
      ensures Teardown(w, o).instances[j] ==
        w.instances[j].(cache := w.instances[j].cache - (if j == c.inst then {c.key} else {}))
    {
      ReleaseInstance(w.(cleanups := Others(w.cleanups, o)), {c}, j);
    }
  }

  /**
   * An owner with a single pending cleanup: its teardown removes exactly that
   * node from its position, keeping the order of the other children, leaves
   * every other element alone, and deletes just that key.
   */
  lemma {:induction false} TeardownSingle(w: World, o: OwnerId, c: Cleanup, p: nat)
    requires DomWellFormed(w.dom, w.nextNode) && c.inst < |w.instances| && w.instances[c.inst].scope.Some?
    requires c in w.cleanups && c.owner == o
    requires forall d :: d in w.cleanups && d.owner == o ==> d == c
    requires p < |Children(w.dom, w.instances[c.inst].scope.value)|
    requires Children(w.dom, w.instances[c.inst].scope.value)[p] == StyleNode(c.node, c.key, c.inst)
    ensures
      var sc := w.instances[c.inst].scope.value;
      var kids := Children(w.dom, sc);
      Children(Teardown(w, o).dom, sc) == kids[..p] + kids[p + 1..]
    ensures forall s :: s != w.instances[c.inst].scope.value ==> Children(Teardown(w, o).dom, s) == Children(w.dom, s)
    ensures Teardown(w, o).instances[c.inst].cache == w.instances[c.inst].cache - {c.key}
    ensures forall j :: 0 <= j < |w.instances| && j != c.inst ==> Teardown(w, o).instances[j] == w.instances[j]
  {
    var sc := w.instances[c.inst].scope.value;
    TeardownSingleScope(w, o, c, sc, p);
    forall s | s != sc
      ensures Children(Teardown(w, o).dom, s) == Children(w.dom, s)
    {
      TeardownSingleElsewhere(w, o, c, sc, p, s);
    }
    TeardownSingleCaches(w, o, c);
  }

  /** After a call with an absent key, the caller's owner alone holds the cleanup for that key. */
  lemma {:induction false} CssSoleOwner(w: World, i: InstanceId, owner: OwnerId, raw: Key)
    requires Valid(w) && i < |w.instances| && raw !in w.instances[i].cache
    ensures ReleasesKey(Css(w, i, owner, raw), owner, i, raw)
    ensures forall o :: o != owner ==> !ReleasesKey(Css(w, i, owner, raw), o, i, raw)
  {
    var w1 := Css(w, i, owner, raw);
    assert Cleanup(owner, i, raw, w.nextNode) in w1.cleanups;
    forall d | d in w1.cleanups && d.inst == i && d.key == raw
      ensures d.owner == owner
    {
      assert d !in w.cleanups;
    }
  }

  /**
   * Without reference counting the first requester owns the shared style: a
   * second requester registers nothing, its own teardown keeps the style, but
   * the first requester's teardown removes the key and the node while the
   * second is still live. A later call re-inserts it under the caller.
   */
  lemma {:induction false} FirstRequesterReleases(w: World, i: InstanceId, a: OwnerId, b: OwnerId, k: Key)
    requires Valid(w) && i < |w.instances| && k !in w.instances[i].cache && a != b
    ensures
      var w1 := Css(w, i, a, k);
      var w2 := Css(w1, i, b, k);
      var w3 := Teardown(w2, a);
      var w4 := Css(w3, i, b, k);
      && w2 == w1
      && Attached(w2.dom, i, k) && ReleasesKey(w2, a, i, k) && !ReleasesKey(w2, b, i, k)
      && k in Teardown(w2, b).instances[i].cache && Attached(Teardown(w2, b).dom, i, k)
      && k !in w3.instances[i].cache && !Attached(w3.dom, i, k)
      && k in w4.instances[i].cache && Attached(w4.dom, i, k) && ReleasesKey(w4, b, i, k)
  {
    var w1 := Css(w, i, a, k);
    CssKeepsValid(w, i, a, k);
    CachedIffAttached(w1, i, k);
    CssSoleOwner(w, i, a, k);
    TeardownKeepsUnowned(w1, b, i, k);
    var w3 := Teardown(w1, a);
    TeardownDropsOwned(w1, a, i, k);
    TeardownKeepsValid(w1, a);
    var w4 := Css(w3, i, b, k);
    CssKeepsValid(w3, i, b, k);
    CachedIffAttached(w4, i, k);
    assert Cleanup(b, i, k, w3.nextNode) in w4.cleanups;
  }

  /** An owner with no pending cleanup holds just the one its request of an absent body registers. */
  lemma {:induction false} CssOnlyCleanup(w: World, i: InstanceId, a: OwnerId, k: Key)
    requires i < |w.instances| && k !in w.instances[i].cache
    requires forall c :: c in w.cleanups ==> c.owner != a
    ensures Cleanup(a, i, k, w.nextNode) in Css(w, i, a, k).cleanups
    ensures forall d :: d in Css(w, i, a, k).cleanups && d.owner == a ==> d == Cleanup(a, i, k, w.nextNode)
  {
  }

  /**
   * After a request of an absent body the new node sits at position `p` of
   * the closure's scope, between the old children, on a well-formed page.
   */
  lemma {:induction false} CssNodeAt(w: World, i: InstanceId, a: OwnerId, k: Key) returns (p: nat)
    requires DomWellFormed(w.dom, w.nextNode) && i < |w.instances| && k !in w.instances[i].cache
    ensures var w1 := Css(w, i, a, k);
      var sc := w.instances[i].scope.GetOr(Head);
      && DomWellFormed(w1.dom, w1.nextNode) && w1.instances[i].scope == Some(sc)
      && p < |Children(w1.dom, sc)| && Children(w1.dom, sc)[p] == StyleNode(w.nextNode, k, i)
      && Children(w1.dom, sc)[..p] + Children(w1.dom, sc)[p + 1..] == Children(w.dom, sc)
      && (forall s :: s != sc ==> Children(w1.dom, s) == Children(w.dom, s))
  {
    var w1 := Css(w, i, a, k);
    var sc := w.instances[i].scope.GetOr(Head);
    var kids := Children(w.dom, sc);
    var n := StyleNode(w.nextNode, k, i);
    CssKeepsDomWellFormed(w, i, a, k);
    var placed := Children(w1.dom, sc);
    assert placed == Place(kids, n, w.instances[i].prepend);
    if w.instances[i].prepend {
      p := 0;
      assert placed[..0] + placed[1..] == kids;
    } else {
      p := |kids|;
      assert placed[p + 1..] == [];
      assert placed[..p] + placed[p + 1..] == kids;
    }
  }

  /** The cache side of `CssThenTeardown`. */
  lemma {:induction false} CssThenTeardownCaches(w: World, i: InstanceId, a: OwnerId, k: Key)
    requires i < |w.instances| && k !in w.instances[i].cache
    requires forall c :: c in w.cleanups ==> c.owner != a
    ensures forall j :: 0 <= j < |w.instances| ==> Teardown(Css(w, i, a, k), a).instances[j].cache == w.instances[j].cache
  {
    var w1 := Css(w, i, a, k);
    CssOnlyCleanup(w, i, a, k);
    TeardownSingleCaches(w1, a, Cleanup(a, i, k, w.nextNode));
    forall j | 0 <= j < |w.instances|
      ensures Teardown(w1, a).instances[j].cache == w.instances[j].cache
    {
      if j == i {
        assert w1.instances[i].cache == w.instances[i].cache + {k};
      }
    }
  }

  /** The page side of `CssThenTeardown`. */
  lemma {:induction false} CssThenTeardownChildren(w: World, i: InstanceId, a: OwnerId, k: Key)
    requires Valid(w) && i < |w.instances| && k !in w.instances[i].cache
    requires forall c :: c in w.cleanups ==> c.owner != a
    ensures forall s :: Children(Teardown(Css(w, i, a, k), a).dom, s) == Children(w.dom, s)
  {
    CssOnlyCleanup(w, i, a, k);
    var p := CssNodeAt(w, i, a, k);
    TeardownSingle(Css(w, i, a, k), a, Cleanup(a, i, k, w.nextNode), p);
  }

  /**
   * `css` and its cleanup are inverse: when an owner with no pending cleanup
   * requests an absent body, its teardown deletes the body again, puts every
   * element's children back as they were and leaves the pending cleanups as
   * before. Only the scope stays resolved to `document.head`.
   */
  lemma {:induction false} CssThenTeardown(w: World, i: InstanceId, a: OwnerId, k: Key)
    requires Valid(w) && i < |w.instances| && k !in w.instances[i].cache
    requires forall c :: c in w.cleanups ==> c.owner != a
    ensures |Teardown(Css(w, i, a, k), a).instances| == |w.instances|
    ensures forall j :: 0 <= j < |w.instances| ==> Teardown(Css(w, i, a, k), a).instances[j].cache == w.instances[j].cache
    ensures forall s :: Children(Teardown(Css(w, i, a, k), a).dom, s) == Children(w.dom, s)
    ensures forall c :: c in Teardown(Css(w, i, a, k), a).cleanups <==> c in w.cleanups
  {
    CssThenTeardownCaches(w, i, a, k);
    CssThenTeardownChildren(w, i, a, k);
  }
}
