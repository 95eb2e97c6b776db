/**
 * The counter protocol of the demo page: every `<counter-state>` element owns
 * one integer signal, and the `current-count`, `sub-button` and `add-button`
 * elements inside it read or step that integer through the context the
 * provider publishes. A consumer with no enclosing provider fails when it is
 * mounted.
 */
module Counter {
  import opened Wrappers

  /** Identity of one mounted `<counter-state>` element. */
  type ProviderId = nat

  /** The `initial-count` a provider starts from when the attribute is absent. */
  const DefaultInitialCount: int := 0

  /** The error a consumer raises when no provider encloses it. */
  const MissingContextMessage: string := "Missing context: wrap <counter-state>"

  /** The nearest enclosing provider of a consumer, if there is one. */
  type Context = Option<ProviderId>

  /** The two buttons; each applies its step to the count of its provider. */
  datatype Button = Sub | Add

  /**
   * The current value of every mounted provider's signal, and the id the
   * next provider will receive.
   */
  datatype Store = Store(counts: map<ProviderId, int>, next: ProviderId)

  /** Every mounted provider has an id below `next`, so a fresh id is unused. */
  ghost predicate Valid(s: Store) {
    forall p :: p in s.counts ==> p < s.next
  }

  /** A context can only name a provider that is mounted. */
  predicate Bound(s: Store, ctx: Context) {
    ctx.Some? ==> ctx.value in s.counts
  }

  /** A page with no provider mounted yet. */
  function Empty(): (s: Store)
    ensures Valid(s) && s.counts == map[]
  {
    Store(map[], 0)
  }

  /** The value a provider starts from, given its `initial-count` attribute. */
  function InitialCount(attr: Option<int>): (r: int)
    ensures attr.None? ==> r == DefaultInitialCount
    ensures attr.Some? ==> r == attr.value
  {
    attr.GetOr(DefaultInitialCount)
  }

  /**
   * Mounting a `<counter-state>` creates one new signal holding its initial
   * count; the providers already mounted keep their values.
   */
  function MountProvider(s: Store, attr: Option<int>): (r: (Store, ProviderId))
    requires Valid(s)
    ensures Valid(r.0)
    ensures r.1 !in s.counts && r.1 in r.0.counts
    ensures r.0.counts[r.1] == InitialCount(attr)
    ensures r.0.counts.Keys == s.counts.Keys + {r.1}
    ensures forall q :: q in s.counts ==> r.0.counts[q] == s.counts[q]
  {
    (Store(s.counts[s.next := InitialCount(attr)], s.next + 1), s.next)
  }

  /**
   * Mounting any consumer: it connects to its enclosing provider, or fails
   * with the missing-context error before producing any output.
   */
  function Connect(s: Store, ctx: Context): (r: Result<ProviderId, string>)
    requires Bound(s, ctx)
    ensures r.Failure? <==> ctx.None?
    ensures r.Failure? ==> r.error == MissingContextMessage
    ensures r.Success? ==> r.value == ctx.value && r.value in s.counts
  {
    match ctx
    case None => Failure(MissingContextMessage)
    case Some(p) => Success(p)
  }

  /** The text a connected `current-count` renders: its provider's count. */
  function CurrentCount(s: Store, ctx: Context): (r: Result<int, string>)
    requires Bound(s, ctx)
    ensures r.Failure? <==> ctx.None?
    ensures r.Failure? ==> r.error == MissingContextMessage
    ensures r.Success? ==> r.value == s.counts[ctx.value]
  {
    var p :- Connect(s, ctx);
    Success(s.counts[p])
  }

  /** The signed change one press of `b` makes. */
  function Step(b: Button): int {
    match b
    case Sub => -1
    case Add => 1
  }

  /**
   * A press on a connected button: its provider's count moves to `curr - 1`
   * or `curr + 1`, and every other provider keeps its value.
   */
  function Press(s: Store, p: ProviderId, b: Button): (r: Store)
    requires p in s.counts
    ensures r.next == s.next && r.counts.Keys == s.counts.Keys
    ensures b.Sub? ==> r.counts[p] == s.counts[p] - 1
    ensures b.Add? ==> r.counts[p] == s.counts[p] + 1
    ensures forall q :: q in s.counts && q != p ==> r.counts[q] == s.counts[q]
    ensures Valid(s) ==> Valid(r)
  {
    s.(counts := s.counts[p := s.counts[p] + Step(b)])
  }

  /**
   * Mounting a `sub-button` or `add-button` and pressing it once: the missing
   * context is reported and nothing changes, otherwise the press applies.
   */
  function MountAndPress(s: Store, ctx: Context, b: Button): (r: Result<Store, string>)
    requires Bound(s, ctx)
    ensures r.Failure? <==> ctx.None?
    ensures r.Failure? ==> r.error == MissingContextMessage
    ensures r.Success? ==> r.value.counts.Keys == s.counts.Keys
    ensures r.Success? ==> r.value.counts[ctx.value] == s.counts[ctx.value] + Step(b)
    ensures r.Success? ==> forall q :: q in s.counts && q != ctx.value ==> r.value.counts[q] == s.counts[q]
  {
    var p :- Connect(s, ctx);
    Success(Press(s, p, b))
  }

  /** A press on `add-button` then one on `sub-button` of the same provider restores the store. */
  lemma {:induction false} AddThenSub(s: Store, p: ProviderId)
    requires p in s.counts
    ensures Press(Press(s, p, Add), p, Sub) == s
  {
    var r := Press(Press(s, p, Add), p, Sub);
    assert r.counts == s.counts by {
      assert r.counts.Keys == s.counts.Keys;
      forall q | q in s.counts
        ensures r.counts[q] == s.counts[q]
      {
      }
    }
  }

  /** The two buttons commute: the order of presses on one provider does not matter. */
  lemma {:induction false} PressesCommute(s: Store, p: ProviderId, q: ProviderId, a: Button, b: Button)
    requires p in s.counts && q in s.counts
    ensures Press(Press(s, p, a), q, b) == Press(Press(s, q, b), p, a)
  {
    var l, r := Press(Press(s, p, a), q, b), Press(Press(s, q, b), p, a);
    assert l.counts == r.counts by {
      forall x | x in s.counts
        ensures l.counts[x] == r.counts[x]
      {
      }
    }
  }

  /** One press, addressed to a mounted provider. */
  datatype Click = Click(target: ProviderId, button: Button)

  /** The net change the clicks in `cs` make to provider `p`: adds minus subs aimed at it. */
  function Net(cs: seq<Click>, p: ProviderId): int {
    if cs == [] then 0
    else (if cs[0].target == p then Step(cs[0].button) else 0) + Net(cs[1..], p)
  }

  /** Every click is aimed at a mounted provider. */
  predicate Targeted(s: Store, cs: seq<Click>) {
    forall k :: 0 <= k < |cs| ==> cs[k].target in s.counts
  }

  /**
   * A sequence of presses on buttons of any providers, one after the other:
   * every provider ends at its start value plus the net of the clicks aimed
   * at it, so a provider nobody clicked keeps its value.
   */
  function PressAll(s: Store, cs: seq<Click>): (r: Store)
    requires Targeted(s, cs)
    ensures r.next == s.next && r.counts.Keys == s.counts.Keys
    ensures forall p :: p in s.counts ==> r.counts[p] == s.counts[p] + Net(cs, p)
    decreases |cs|
  {
    if cs == [] then s
    else
      var s1 := Press(s, cs[0].target, cs[0].button);
      assert Targeted(s1, cs[1..]) by {
        forall k | 0 <= k < |cs[1..]|
          ensures cs[1..][k].target in s1.counts
        {
          assert cs[1..][k] == cs[k + 1];
        }
      }
      PressAll(s1, cs[1..])
  }

  /** Clicks aimed only at other providers never change `p`'s count. */
  lemma {:induction false} NetElsewhere(cs: seq<Click>, p: ProviderId)
    requires forall k :: 0 <= k < |cs| ==> cs[k].target != p
    ensures Net(cs, p) == 0
  {
    if cs != [] {
      assert forall k :: 0 <= k < |cs[1..]| ==> cs[1..][k].target == cs[k + 1].target;
      NetElsewhere(cs[1..], p);
    }
  }

  /** The net change of two click sequences run one after the other adds up. */
  lemma {:induction false} NetAppend(a: seq<Click>, b: seq<Click>, p: ProviderId)
    ensures Net(a + b, p) == Net(a, p) + Net(b, p)
  {
    if a == [] {
      assert a + b == b;
    } else {
      assert (a + b)[0] == a[0] && (a + b)[1..] == a[1..] + b;
      NetAppend(a[1..], b, p);
    }
  }

  /**
   * Isolation between providers: whatever clicks the other providers'
   * buttons receive, the count a `current-count` of `p` shows is unchanged.
   */
  lemma {:induction false} ProvidersIsolated(s: Store, cs: seq<Click>, p: ProviderId)
    requires Targeted(s, cs) && p in s.counts
    requires forall k :: 0 <= k < |cs| ==> cs[k].target != p
    ensures CurrentCount(PressAll(s, cs), Some(p)) == CurrentCount(s, Some(p))
  {
    NetElsewhere(cs, p);
  }

  /** An add and a sub on the same provider, inserted anywhere, leave every net change as it was. */
  lemma {:induction false} NetCancel(a: seq<Click>, b: seq<Click>, p: ProviderId, q: ProviderId)
    ensures Net(a + [Click(p, Add), Click(p, Sub)] + b, q) == Net(a + b, q)
  {
    var mid := [Click(p, Add), Click(p, Sub)];
    NetAppend(a + mid, b, q);
    NetAppend(a, mid, q);
    NetAppend(a, b, q);
    assert mid[1..] == [Click(p, Sub)] && mid[1..][1..] == [];
    assert Net(mid[1..], q) == (if p == q then -1 else 0) + Net(mid[1..][1..], q);
  }

  /** A press on `add-button` then on `sub-button` anywhere in a run cancels out. */
  lemma {:induction false} AddSubCancel(s: Store, a: seq<Click>, b: seq<Click>, p: ProviderId)
    requires Targeted(s, a + b) && p in s.counts
    ensures Targeted(s, a + [Click(p, Add), Click(p, Sub)] + b)
    ensures PressAll(s, a + [Click(p, Add), Click(p, Sub)] + b) == PressAll(s, a + b)
  {
    var all := a + [Click(p, Add), Click(p, Sub)] + b;
    forall k | 0 <= k < |all|
      ensures all[k].target in s.counts
    {
      if k < |a| {
        assert all[k] == (a + b)[k];
      } else if k >= |a| + 2 {
        assert all[k] == (a + b)[k - 2];
      }
    }
    var l, r := PressAll(s, all), PressAll(s, a + b);
    assert l.counts == r.counts by {
      forall q | q in s.counts
        ensures l.counts[q] == r.counts[q]
      {
        NetCancel(a, b, p, q);
      }
    }
  }
}
