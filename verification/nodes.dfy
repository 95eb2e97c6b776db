/**
 * The children of a scope element as an ordered sequence of nodes, and the two
 * DOM edits the style cache performs on it: inserting a new `<style>` node at the
 * front or the back, and detaching nodes by identity.
 */
module Nodes {

  /** DOM object identity: two nodes are the same element exactly when their ids agree. */
  type NodeId = nat

  /**
   * A child of a scope: either a `<style type="text/css">` node holding `text`,
   * tagged with the number of the stylesheet cache that created it, or any
   * other node of the page.
   */
  datatype Node =
    | StyleNode(id: NodeId, text: string, madeBy: nat)
    | Foreign(id: NodeId)

  /** A node occurs at most once among the children of one element. */
  ghost predicate NoDup(kids: seq<Node>) {
    forall p, q :: 0 <= p < q < |kids| ==> kids[p] != kids[q]
  }

  /**
   * `element.prepend(n)` when `prepend` holds, `element.append(n)` otherwise,
   * for a node `n` that is not yet attached.
   */
  function Place(kids: seq<Node>, n: Node, prepend: bool): (r: seq<Node>)
    ensures |r| == |kids| + 1
    ensures prepend ==> r[0] == n && r[1..] == kids
    ensures !prepend ==> r[|kids|] == n && r[..|kids|] == kids
    ensures forall x :: x in r <==> x == n || x in kids
    ensures NoDup(kids) && n !in kids ==> NoDup(r)
  {
    if prepend then [n] + kids else kids + [n]
  }

  /** The children left after `node.remove()` for every node whose id is in `ids`. */
  function Without(kids: seq<Node>, ids: set<NodeId>): seq<Node>
  {
    if kids == [] then []
    else if kids[0].id in ids then Without(kids[1..], ids)
    else [kids[0]] + Without(kids[1..], ids)
  }

  /** A node survives the removal exactly when it was a child and its id was not removed. */
  lemma {:induction false} WithoutMembers(kids: seq<Node>, ids: set<NodeId>)
    ensures forall x :: x in Without(kids, ids) <==> x in kids && x.id !in ids
  {
    if kids != [] {
      WithoutMembers(kids[1..], ids);
      assert forall x :: x in kids <==> x == kids[0] || x in kids[1..];
    }
  }

  /** Removal never makes a node occur twice. */
  lemma {:induction false} WithoutNoDup(kids: seq<Node>, ids: set<NodeId>)
    requires NoDup(kids)
    ensures NoDup(Without(kids, ids))
  {
    if kids != [] {
      var tail := kids[1..];
      assert NoDup(tail) by {
        forall p, q | 0 <= p < q < |tail|
          ensures tail[p] != tail[q]
        {
          assert tail[p] == kids[p + 1] && tail[q] == kids[q + 1];
        }
      }
      WithoutNoDup(tail, ids);
      if kids[0].id !in ids {
        WithoutMembers(tail, ids);
        assert kids[0] !in tail;
        var r := Without(tail, ids);
        assert kids[0] !in r;
        assert Without(kids, ids) == [kids[0]] + r;
        forall p, q | 0 <= p < q < |r| + 1
          ensures ([kids[0]] + r)[p] != ([kids[0]] + r)[q]
        {
          if p == 0 {
            assert ([kids[0]] + r)[q] == r[q - 1];
          } else {
            assert ([kids[0]] + r)[p] == r[p - 1];
            assert ([kids[0]] + r)[q] == r[q - 1];
          }
        }
      }
    }
  }

  /** Removing nodes none of which is attached leaves the children as they were. */
  lemma {:induction false} WithoutAbsent(kids: seq<Node>, ids: set<NodeId>)
    requires forall q :: 0 <= q < |kids| ==> kids[q].id !in ids
    ensures Without(kids, ids) == kids
  {
    if kids != [] {
      assert kids[0].id !in ids;
      WithoutAbsent(kids[1..], ids);
      assert kids == [kids[0]] + kids[1..];
    }
  }

  /** Removing `x` by its id from `before + [x] + after` leaves `before + after`. */
  lemma {:induction false} WithoutMiddle(before: seq<Node>, x: Node, after: seq<Node>)
    requires forall q :: 0 <= q < |before| ==> before[q].id != x.id
    requires forall q :: 0 <= q < |after| ==> after[q].id != x.id
    ensures Without(before + [x] + after, {x.id}) == before + after
  {
    var all := before + [x] + after;
    if before == [] {
      assert all == [x] + after;
      assert all[1..] == after;
      WithoutAbsent(after, {x.id});
    } else {
      assert all[0] == before[0];
      assert all[1..] == before[1..] + [x] + after;
      assert Without(before[1..] + [x] + after, {x.id}) == before[1..] + after by {
        forall q | 0 <= q < |before[1..]|
          ensures before[1..][q].id != x.id
        {
          assert before[1..][q] == before[q + 1];
        }
        WithoutMiddle(before[1..], x, after);
      }
      assert Without(all, {x.id}) == [before[0]] + (before[1..] + after);
      assert before + after == [before[0]] + (before[1..] + after);
    }
  }

  /**
   * Removing the one node whose id is `kids[p].id` deletes exactly position `p`:
   * the nodes before and after it keep their relative order.
   */
  lemma {:induction false} WithoutOne(kids: seq<Node>, p: nat)
    requires p < |kids|
    requires forall q :: 0 <= q < |kids| && q != p ==> kids[q].id != kids[p].id
    ensures Without(kids, {kids[p].id}) == kids[..p] + kids[p + 1..]
  {
    var before, after := kids[..p], kids[p + 1..];
    assert Without(before + [kids[p]] + after, {kids[p].id}) == before + after by {
      forall q | 0 <= q < |before|
        ensures before[q].id != kids[p].id
      {
        assert before[q] == kids[q];
      }
      forall q | 0 <= q < |after|
        ensures after[q].id != kids[p].id
      {
        assert after[q] == kids[p + 1 + q];
      }
      WithoutMiddle(before, kids[p], after);
    }
    assert kids == before + [kids[p]] + after;
  }

  /** Two removals in a row are one removal of both sets of ids. */
  lemma {:induction false} WithoutTwice(kids: seq<Node>, a: set<NodeId>, b: set<NodeId>)
    ensures Without(Without(kids, a), b) == Without(kids, a + b)
  {
    if kids != [] {
      WithoutTwice(kids[1..], a, b);
    }
  }
}
