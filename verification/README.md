# demo-solid-element in Dafny

This project models the two pieces of logic in the demo-solid-element page.

**The stylesheet deduplication cache of `src/css.ts`.**
- `createCSS(scope, {prepend})` returns a `css` template tag with a private cache of stylesheet bodies. The cache is keyed on the first template segment.
- A body already in the cache is ignored.
- A new body is cached and put into one `<style type="text/css">` node. The node goes at the front of the scope with `prepend`, or at its back otherwise. The scope falls back to `document.head` and stays fixed after that.
- The call registers an `onCleanup` callback with the current reactive owner. When that owner is disposed, the callback deletes the key and removes the node.
- Only the inserting call registers a cleanup. The first requester of a body therefore owns it: its teardown removes the style even while later requesters of the same body are still mounted. The model follows the code here and does no reference counting. A reference-counted redesign would behave differently, and the model does not adopt one.

**The counter protocol of `src/App.tsx`.**
- Each `<counter-state>` owns one integer signal, which starts at `initial-count` (0 when the attribute is absent).
- `current-count` shows that signal. `sub-button` steps it to `curr - 1` and `add-button` to `curr + 1`.
- Any consumer with no enclosing provider fails with `Missing context: wrap <counter-state>`.
- `CounterApp` requests one card stylesheet through the global `css` and mounts one provider around the three consumers. `App` mounts ten `CounterApp`s: the first has no initial count, then 10, 20, …, 90.

**Files.**
- `wrappers.dfy`: `Option` and `Result`.
- `nodes.dfy`: the children of an element as a node sequence, with `prepend`/`append` and `remove()`.
- `style_cache.dfy`: the world of `createCSS` closures, scopes and pending cleanups. It contains `css`, the cleanup callback, owner teardown and the cache invariant.
- `counter.dfy`: the provider store and the three consumers.
- `app.dfy`: the page, composed of the two.

**Modelling choices.**
- The reactive owner tree and `onCleanup` registration are modelled as one registration-ordered list of cleanups, each tagged with its owner. Disposing an owner runs its cleanups one by one.
- The DOM is a map from scope element to its child sequence. Node identity is a node id.
- A consumer's context is `Option<ProviderId>`: the nearest enclosing provider, or none.
- I/O and the reactive scheduler are not represented (see "Left out").

## Model

| member | source | states |
|---|---|---|
| Nodes.Place | src/css.ts:19-20 | `prepend` puts the new node first and `append` puts it last; the old children keep their order, and no node is doubled when the new one was not yet a child |
| Nodes.Without | src/css.ts:23 | `remove()` of every node with a given id; it is a plain definition without a contract of its own, and its meaning is stated by the lemmas below: `WithoutMembers` (which nodes remain, both directions) and `WithoutOne` (exactly one position goes, order kept) |
| Nodes.WithoutMembers | src/css.ts:23 | after `remove()` of a set of nodes, a node is still a child exactly when it was one and was not removed |
| Nodes.WithoutNoDup | src/css.ts:23 | removing nodes never makes a child occur twice |
| Nodes.WithoutAbsent | src/css.ts:23 | removing nodes that are not children leaves the children unchanged |
| Nodes.WithoutMiddle | src/css.ts:23 | removing one node from between two runs of children leaves the two runs joined |
| Nodes.WithoutOne | src/css.ts:23 | removing the node at position p deletes exactly that position and keeps the order of the rest |
| Nodes.WithoutTwice | src/css.ts:23 | two removals in a row are one removal of both sets |
| StyleCache.Init | src/css.ts:32-33 | at module load there is exactly one closure, the global `css`, with an empty cache, no scope and append placement; no style node of any cache is attached, and the invariant holds |
| StyleCache.CreateCSS | src/css.ts:5-6 | each call makes a new closure with its own empty cache and the given scope and placement; earlier closures, the page and the pending cleanups are untouched, and the invariant is kept |
| StyleCache.Css | src/css.ts:8-24 | a cached body changes nothing at all; an absent body is added to this closure's cache only, exactly one cleanup for it is registered under the calling owner, a set scope stays fixed and an unset one becomes `document.head` |
| StyleCache.CachedIffAttached | src/css.ts:6-24 | in every reachable state, a body is in a closure's cache exactly when that closure's style node for it is attached |
| StyleCache.AtMostOneStyleNode | src/css.ts:10-20 | in every reachable state, a closure has at most one style node per body on the whole page, and it sits in that closure's scope |
| StyleCache.CssInserts | src/css.ts:13-20 | for an absent body, exactly one node with a fresh id and the body as its text is added: first in the scope with `prepend`, last otherwise; the old children keep their order, every other element is unchanged, and the body goes from not attached to attached |
| StyleCache.CssChildren | src/css.ts:17-20 | for an absent body, each element's children afterwards are its old children plus the new node in the closure's scope only |
| StyleCache.CssAttachedBefore | src/css.ts:17-20 | for an absent body, every child after the call was a child before or is the new style node |
| StyleCache.CssKeepsDomWellFormed | src/css.ts:13-20 | inserting the new node keeps node ids unique and below the id bound |
| StyleCache.CssKeepsIdsUnique | src/css.ts:13-20 | after the insertion, two children anywhere with the same id are the same node in the same element |
| StyleCache.CssKeepsNoDup | src/css.ts:19-20 | after the insertion, no element has a child twice |
| StyleCache.CssKeepsOneCleanupPerKey | src/css.ts:10-21 | a closure still has at most one pending cleanup per body |
| StyleCache.CssKeepsCleanupsLive | src/css.ts:18-21 | every pending cleanup still belongs to a cached body whose node is attached to its closure's scope |
| StyleCache.CssKeepsNodesHaveCleanups | src/css.ts:19-21 | every attached style node still has a pending cleanup that removes it |
| StyleCache.CssKeepsCachedKeysHaveCleanups | src/css.ts:18-21 | every cached body still has a pending cleanup that deletes it |
| StyleCache.CssKeepsValid | src/css.ts:8-26 | every `css` call, whether a hit or a miss, keeps the cache invariant |
| StyleCache.CssIsolatesInstances | src/css.ts:5-6 | a call on one closure neither attaches nor detaches a node of any other closure, because the caches are private |
| StyleCache.RunCleanup | src/css.ts:21-24 | the cleanup callback keeps the number of closures, the pending list and the id bound; what it deletes and removes is stated by `ReleaseAfterCleanup` and `RunCleanupsIsRelease` |
| StyleCache.RunCleanups | src/css.ts:21-24 | running several cleanups one after the other keeps the number of closures, the pending list and the id bound; `RunCleanupsIsRelease` states that the result is their combined release |
| StyleCache.Owned | src/css.ts:21 | the cleanups registered under an owner are exactly the pending ones tagged with it |
| StyleCache.Others | src/css.ts:21 | the cleanups of other owners are exactly the pending ones not tagged with it |
| StyleCache.Teardown | src/css.ts:21-24 | disposing an owner removes exactly its cleanups from the pending list |
| StyleCache.ReleaseNothing | src/css.ts:21-24 | running no cleanup changes nothing |
| StyleCache.ReleaseAfterCleanup | src/css.ts:21-24 | running one cleanup and then a set of others equals running the union at once |
| StyleCache.RunCleanupsIsRelease | src/css.ts:21-24 | running any sequence of cleanups one by one has their combined effect, so the order they run in does not matter |
| StyleCache.TeardownIsRelease | src/css.ts:21-24 | disposing an owner is the combined release of its own cleanups |
| StyleCache.ReleaseChildren | src/css.ts:23 | after a release, each element keeps exactly its children that were not released |
| StyleCache.ReleaseSubset | src/css.ts:23 | every node attached after a release was attached in the same element before and was not released |
| StyleCache.ReleaseKeepsDomWellFormed | src/css.ts:23 | detaching nodes keeps ids unique and below the bound |
| StyleCache.OthersDisjoint | src/css.ts:10-21 | a cleanup of another owner shares neither a body nor a node with the disposed owner's cleanups |
| StyleCache.TeardownKeepsCleanupsLive | src/css.ts:21-24 | after a teardown, the remaining cleanups still name cached bodies with attached nodes |
| StyleCache.TeardownKeepsNodesHaveCleanups | src/css.ts:21-24 | after a teardown, every attached style node still has a pending cleanup |
| StyleCache.TeardownKeepsCachedKeysHaveCleanups | src/css.ts:21-24 | after a teardown, every cached body still has a pending cleanup |
| StyleCache.TeardownKeepsValid | src/css.ts:21-24 | disposing any owner keeps the cache invariant |
| StyleCache.TeardownEffect | src/css.ts:21-24 | disposing an owner deletes exactly the bodies and removes exactly the nodes whose cleanups it holds; every other body, node, scope and option stays |
| StyleCache.TeardownKeepsUnowned | src/css.ts:21-24 | a cached body whose cleanup the disposed owner does not hold stays cached and attached |
| StyleCache.TeardownDropsOwned | src/css.ts:21-24 | a body whose cleanup the disposed owner holds leaves the cache and the page |
| StyleCache.ChildIdsDistinct | src/css.ts:23 | within one element no two children share an id, so `remove()` hits one position |
| StyleCache.IdOnlyInItsScope | src/css.ts:23 | a node's id occurs in no other element, so `remove()` touches one element |
| StyleCache.TeardownOfOne | src/css.ts:21-24 | the teardown of an owner with a single pending cleanup releases that one body and that one node |
| StyleCache.TeardownSingleScope | src/css.ts:23 | that teardown deletes exactly the node's position from its element and keeps the order of the rest |
| StyleCache.TeardownSingleElsewhere | src/css.ts:23 | that teardown leaves every other element's children unchanged |
| StyleCache.TeardownSingleCaches | src/css.ts:22 | that teardown deletes exactly that body from exactly that closure's cache |
| StyleCache.TeardownSingle | src/css.ts:21-24 | disposing the creating owner removes exactly its node from its position and deletes exactly its body; other bodies, nodes and closures are untouched |
| StyleCache.CssSoleOwner | src/css.ts:10-21 | after inserting a body, the caller's owner alone holds the cleanup that releases it |
| StyleCache.FirstRequesterReleases | src/css.ts:10-24 | a second requester of a cached body registers nothing, and its teardown keeps the style; the first requester's teardown removes the body and its node while the second is still mounted; a later call inserts the body again under the new caller |
| StyleCache.CssOnlyCleanup | src/css.ts:10-21 | an owner with no pending cleanup that requests an absent body holds exactly one cleanup afterwards, the one for that body and node |
| StyleCache.CssNodeAt | src/css.ts:13-20 | after a request of an absent body the new node sits at one position of the scope, with the old children before and after it unchanged, every other element unchanged and ids still unique |
| StyleCache.CssThenTeardownCaches | src/css.ts:18-22 | a request of an absent body followed by the teardown of its owner, who had no other cleanup, leaves every closure's cache as it was |
| StyleCache.CssThenTeardownChildren | src/css.ts:19-23 | the same request and teardown leave every element's children exactly as they were, order included |
| StyleCache.CssThenTeardown | src/css.ts:8-24 | `css` of an absent body and its owner's teardown are inverse: caches, children and pending cleanups are restored; only the scope stays resolved to `document.head` |
| Counter.Empty | src/App.tsx:55-58 | before any `<counter-state>` mounts, no signal exists |
| Counter.InitialCount | src/App.tsx:60-61 | a provider starts at 0 when `initial-count` is absent and at the given value otherwise |
| Counter.MountProvider | src/App.tsx:63-65 | each `<counter-state>` creates one new signal under a fresh id, holding its initial count; existing signals keep their values |
| Counter.Connect | src/App.tsx:75-76 | a consumer fails with the missing-context message exactly when no provider encloses it, and otherwise connects to that provider |
| Counter.CurrentCount | src/App.tsx:74-82 | `current-count` fails with the missing-context message without a provider, and otherwise shows its own provider's count |
| Counter.Press | src/App.tsx:84-106 | `sub-button` sets its provider's count to exactly `curr - 1` and `add-button` to exactly `curr + 1`; no other provider changes, and no provider appears or disappears |
| Counter.MountAndPress | src/App.tsx:84-106 | a button without a provider fails with the missing-context message and changes nothing; with one, a press moves only that provider's count, by -1 or +1 |
| Counter.AddThenSub | src/App.tsx:90-102 | an add followed by a sub on the same provider restores the store |
| Counter.PressesCommute | src/App.tsx:90-102 | presses on any providers commute |
| Counter.PressAll | src/App.tsx:84-106 | after any run of presses, every provider holds its start value plus the net of the presses aimed at it |
| Counter.NetElsewhere | src/App.tsx:90-102 | presses aimed only at other providers add nothing to a provider's count |
| Counter.NetAppend | src/App.tsx:90-102 | the net change of two runs of presses is the sum of their net changes |
| Counter.NetCancel | src/App.tsx:90-102 | an add and a sub on one provider inserted into a run leave every net change as it was |
| Counter.ProvidersIsolated | src/App.tsx:63-65 | presses on other providers' buttons never change what a provider's `current-count` shows |
| Counter.AddSubCancel | src/App.tsx:90-102 | an add then a sub on one provider, inserted anywhere in a run, leave the final store unchanged |
| App.Load | src/css.ts:33 | at load time, the page has an empty global cache and no counter, and the invariant holds |
| App.MountCounterApp | src/App.tsx:110-154 | a `CounterApp` requests the card through the global `css`, which leaves the card cached; it mounts a new provider at its initial count, and its consumers connect to that provider |
| App.MountCounterAppKeepsValid | src/App.tsx:110-154 | mounting a `CounterApp` keeps the page invariant and leaves the card style attached |
| App.RequestCard | src/App.tsx:112-145 | when several apps request the card, only the first request changes the cache, and once the card is cached no request changes anything |
| App.MountProviders | src/App.tsx:146 | the `k`-th app mounts a fresh provider at its own initial count; earlier providers keep their values |
| App.MountRange | src/App.tsx:159-169 | mounting apps one after the other keeps the page's shape; what they mount is stated by `MountRangeSplits` and, for `App()`, by `AppIsSequential` and `AppCounters` |
| App.MountFirst | src/App.tsx:159-169 | the first n apps, given as the card requests plus the providers, keep the page's shape; `MountFirstIsSequential` equates it with the one-by-one mounting, and `MountFirstProvider` and `SharedStyleOwner` state what it mounts |
| App.MountRangeSplits | src/App.tsx:159-169 | mounting apps one after the other equals requesting the card once per app plus mounting the providers, because the two halves share no state |
| App.MountFirstIsSequential | src/App.tsx:159-169 | mounting the first n apps is the one-by-one mounting |
| App.MountFirstKeepsValid | src/App.tsx:159-169 | mounting the first n apps keeps the page invariant |
| App.MountFirstProvider | src/App.tsx:146 | the `j`-th app's provider is fresh and starts at that app's initial count |
| App.SharedStyleOwner | src/App.tsx:112-145 | all apps share one attached card style, and its cleanup belongs to the first app's owner alone |
| App.UnmountCounterApp | src/App.tsx:110-154 | unmounting a `CounterApp` runs its owner's cleanups and removes its provider; the other providers keep their values |
| App.UnmountKeepsValid | src/App.tsx:110-154 | unmounting a `CounterApp` keeps the page invariant |
| App.UnmountFirstDropsSharedStyle | src/App.tsx:112-145 | unmounting the first app removes the shared card style from the cache and the page, even though the other apps are still mounted |
| App.UnmountKeepsOtherCounters | src/App.tsx:146-152 | unmounting one app's provider leaves every other app's counter as it was |
| App.UnmountOtherKeepsSharedStyle | src/App.tsx:112-145 | unmounting any other owner, such as a later app, keeps the card style cached and attached |
| App.MountApp | src/App.tsx:156-173 | `App()` keeps the page's shape; `AppIsSequential` and `AppCounters` state that it mounts ten apps one after the other at counts 0, 10, ..., 90 |
| App.AppIsSequential | src/App.tsx:156-173 | `App()` mounts its ten `CounterApp`s one after the other |
| App.AppCounters | src/App.tsx:160-169 | the `j`-th of the ten apps gets a fresh provider starting at `10 * j`; the first has no attribute and starts at 0 |

## Left out

- StyleCache.Css: the return value of `css` (src/css.ts:8, 10, 26) is always `null` and is not represented; the function returns only the new state.
- `createMemo(() => raw)` (src/css.ts:9) is modelled as the identity. Keys are compared by exact string equality, and the CSS text is never parsed. The uno.css styles are not modelled.
- Calling `css` outside any reactive owner is not modelled. In that case `onCleanup` registers nothing, while the model always has a calling owner.
- Solid's reactive scheduler, `batch`, signal re-evaluation and `solid-element` registration are not modelled. Presses are sequential store updates, and a consumer reads the current value.
- `createContext`/`useContext` resolution is not modelled. A consumer's context is given as the nearest provider or none.
- Real DOM and JSX rendering, `<slot>` projection, shadow roots, the `setAttribute("type", …)` call and `console.log` (src/App.tsx:64) are not modelled. A scope is only a sequence of nodes.
- The `Button` component's keyboard, focus and ref handling (src/App.tsx:22-51) is UI event handling and is left out.
- vite.config.ts is build configuration with no logic.
- Provider ids are fresh natural numbers. `App` mounts its apps under owners `owner0` to `owner0 + 9`, standing in for Solid's owner objects.
- Integers are unbounded, whereas JavaScript numbers are doubles. The counters in the page stay far below 2^53.
