/** The circular doubly linked list of the buffer cache, as index arrays.
    `order` is the list from most to least recently used; HEAD closes the ring. */
module LruRing {
  import opened Counting

  const NBUF := 30
  const HEAD := NBUF

  ghost function At(order: seq<nat>, i: int): (r: nat) {
    if 1 <= i <= |order| then order[i - 1] else HEAD
  }

  ghost predicate Ring(order: seq<nat>, next: seq<nat>, prev: seq<nat>) {
    && |next| == NBUF + 1 && |prev| == NBUF + 1
    && Distinct(order) && (forall i :: 0 <= i < |order| ==> order[i] < NBUF)
    && forall i, j :: 0 <= i <= |order| && j == i + 1 ==>
         next[At(order, i)] == At(order, j) && prev[At(order, j)] == At(order, i)
  }

  ghost function Without(order: seq<nat>, k: nat): (r: seq<nat>)
    requires k < |order|
  {
    order[..k] + order[k + 1..]
  }

  /** `b->next->prev = b->prev; b->prev->next = b->next` takes b out of the ring. */
  lemma Unlink(order: seq<nat>, next: seq<nat>, prev: seq<nat>, k: nat)
    requires Ring(order, next, prev) && k < |order|
    ensures var b := order[k];
            next[b] <= HEAD && prev[b] <= HEAD
            && Ring(Without(order, k), next[prev[b] := next[b]], prev[next[b] := prev[b]])
  {
    var b := order[k];
    var w := Without(order, k);
    assert b == At(order, k + 1);
    assert next[b] == At(order, k + 2) && prev[b] == At(order, k);
    var next1, prev1 := next[prev[b] := next[b]], prev[next[b] := prev[b]];
    forall i | 0 <= i <= |w|
      ensures next1[At(w, i)] == At(w, i + 1) && prev1[At(w, i + 1)] == At(w, i)
    {
      if i < k {
        assert At(w, i) == At(order, i) && At(w, i + 1) == At(order, i + 1);
      } else if i == k {
        assert At(w, i) == At(order, k) && At(w, i + 1) == At(order, k + 2);
      } else {
        assert At(w, i) == At(order, i + 1) && At(w, i + 1) == At(order, i + 2);
      }
    }
  }

  /** The four assignments that put b first. */
  lemma PushFront(order: seq<nat>, next: seq<nat>, prev: seq<nat>, b: nat)
    requires Ring(order, next, prev) && b < NBUF && b !in order
    ensures next[HEAD] <= HEAD
    ensures var first := next[HEAD];
            Ring([b] + order, next[b := first][HEAD := b], prev[b := HEAD][first := b])
  {
    var first := next[HEAD];
    var o := [b] + order;
    assert At(order, 0) == HEAD && first == At(order, 1);
    var next1, prev1 := next[b := first][HEAD := b], prev[b := HEAD][first := b];
    forall i | 0 <= i <= |o|
      ensures next1[At(o, i)] == At(o, i + 1) && prev1[At(o, i + 1)] == At(o, i)
    {
      if i == 0 {
        assert At(o, 0) == HEAD && At(o, 1) == b;
      } else {
        assert At(o, i + 1) == At(order, i);
        if i > 1 { assert At(o, i) == At(order, i - 1); }
      }
    }
  }

  /** Taking an element out and putting it first keeps the same elements. */
  lemma MoveToFrontKeeps(order: seq<nat>, k: nat)
    requires Distinct(order) && k < |order|
    ensures order[k] !in Without(order, k)
    ensures forall x :: x in [order[k]] + Without(order, k) <==> x in order
  {
    var b, w := order[k], Without(order, k);
    forall x | x in order ensures x in [b] + w {
      var i :| 0 <= i < |order| && order[i] == x;
      if i < k { assert w[i] == x; } else if i > k { assert w[i - 1] == x; }
    }
  }
}
