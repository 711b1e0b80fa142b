/**
 * The waitlist of one listing as a sequence of member ids in join order, and
 * the two mutations the buyer flow applies to it: the idempotent append of
 * `addUserToQueue` (`includes` then `push`) and the removal of
 * `removeUserFromQueue` (`indexOf` then `splice`). The same idempotent append
 * is applied to a buyer's list of watched listings.
 */
module Waitlist {

  /** No element occurs twice. */
  predicate NoDup<T(==)>(q: seq<T>)
  {
    forall i, j :: 0 <= i < j < |q| ==> q[i] != q[j]
  }

  /** Number of occurrences of `x` in `q`. */
  function Count<T(==)>(q: seq<T>, x: T): nat
  {
    if q == [] then 0 else (if q[0] == x then 1 else 0) + Count(q[1..], x)
  }

  /** JavaScript's `Array.prototype.indexOf`: the first position of `x`, or -1. */
  function FirstIndexOf<T(==)>(q: seq<T>, x: T): (i: int)
    ensures -1 <= i < |q|
    ensures i == -1 <==> x !in q
    ensures 0 <= i ==> q[i] == x && forall k :: 0 <= k < i ==> q[k] != x
  {
    if q == [] then -1
    else if q[0] == x then 0
    else
      var j := FirstIndexOf(q[1..], x);
      if j == -1 then -1
      else j + 1
  }

  /** The first position is the only position before which `x` does not occur. */
  lemma FirstIndexOfUnique<T>(q: seq<T>, x: T, k: nat)
    requires k < |q| && q[k] == x && forall j :: 0 <= j < k ==> q[j] != x
    ensures FirstIndexOf(q, x) == k
  {
    var f := FirstIndexOf(q, x);
    assert f >= 0;
  }

  /** `splice(i, 1)`: drop the element at position `i`, keep the rest in order. */
  function Remove<T>(q: seq<T>, i: nat): (r: seq<T>)
    requires i < |q|
    ensures |r| == |q| - 1
    ensures forall k :: 0 <= k < i ==> r[k] == q[k]
    ensures forall k :: i <= k < |r| ==> r[k] == q[k + 1]
  {
    q[..i] + q[i + 1..]
  }

  /** Append `x` unless it is already a member. */
  function Enqueue<T(==)>(q: seq<T>, x: T): (r: seq<T>)
    ensures x in r
    ensures x in q ==> r == q
    ensures x !in q ==> r == q + [x]
  {
    if x in q then q else q + [x]
  }

  /** Remove the first occurrence of `x` wherever it is; no change when absent. */
  function Dequeue<T(==)>(q: seq<T>, x: T): (r: seq<T>)
    ensures x !in q ==> r == q
    ensures x in q ==> |r| == |q| - 1
  {
    if x in q then Remove(q, FirstIndexOf(q, x)) else q
  }

  datatype Op<T> = Join(who: T) | Leave(who: T)

  /** The waitlist after a series of joins and leaves, applied in order. */
  function Apply<T(==)>(q: seq<T>, ops: seq<Op<T>>): seq<T>
    decreases |ops|
  {
    if ops == [] then q
    else
      var q' := match ops[0] case Join(u) => Enqueue(q, u) case Leave(u) => Dequeue(q, u);
      Apply(q', ops[1..])
  }

  /** `u` precedes `v` in the queue. */
  predicate Precedes<T(==)>(q: seq<T>, u: T, v: T)
  {
    u in q && v in q && FirstIndexOf(q, u) < FirstIndexOf(q, v)
  }

  // ---------------------------------------------------------------- lemmas

  lemma CountOfNoDup<T>(q: seq<T>, x: T)
    requires NoDup(q)
    ensures Count(q, x) == if x in q then 1 else 0
  {
    if q != [] {
      assert NoDup(q[1..]) by {
        forall i, j | 0 <= i < j < |q[1..]| ensures q[1..][i] != q[1..][j] {
          assert q[1..][i] == q[i + 1] && q[1..][j] == q[j + 1];
        }
      }
      CountOfNoDup(q[1..], x);
      if q[0] == x {
        assert x !in q[1..] by {
          forall k | 0 <= k < |q[1..]| ensures q[1..][k] != x {
            assert q[1..][k] == q[k + 1];
          }
        }
      } else {
        assert x in q <==> x in q[1..] by {
          assert q == [q[0]] + q[1..];
        }
      }
    }
  }

  /** A duplicate-free waitlist stays duplicate-free after a join. */
  lemma EnqueueKeepsNoDup<T>(q: seq<T>, x: T)
    requires NoDup(q)
    ensures NoDup(Enqueue(q, x))
  {
  }

  /** A second join of the same user changes nothing. */
  lemma EnqueueIdempotent<T>(q: seq<T>, x: T)
    ensures Enqueue(Enqueue(q, x), x) == Enqueue(q, x)
  {
  }

  /** Joining twice in a row leaves the user in the waitlist exactly once. */
  lemma JoinTwiceOnce<T>(q: seq<T>, x: T)
    requires NoDup(q)
    ensures Count(Enqueue(Enqueue(q, x), x), x) == 1
  {
    EnqueueKeepsNoDup(q, x);
    EnqueueIdempotent(q, x);
    CountOfNoDup(Enqueue(q, x), x);
  }

  /** Removing one position keeps a duplicate-free queue duplicate-free. */
  lemma RemoveKeepsNoDup<T>(q: seq<T>, i: nat)
    requires i < |q| && NoDup(q)
    ensures NoDup(Remove(q, i))
  {
    var r := Remove(q, i);
    forall a, b | 0 <= a < b < |r| ensures r[a] != r[b] {
      var a' := if a < i then a else a + 1;
      var b' := if b < i then b else b + 1;
      assert r[a] == q[a'] && r[b] == q[b'] && a' < b';
    }
  }

  /** A leave removes the user entirely and nobody else. */
  lemma DequeueMembers<T>(q: seq<T>, x: T, y: T)
    requires NoDup(q)
    ensures x !in Dequeue(q, x)
    ensures y != x ==> (y in Dequeue(q, x) <==> y in q)
    ensures NoDup(Dequeue(q, x))
  {
    if x in q {
      var i := FirstIndexOf(q, x);
      var r := Remove(q, i);
      RemoveKeepsNoDup(q, i);
      assert r == q[..i] + q[i + 1..];
      assert q == q[..i] + [x] + q[i + 1..];
      forall k | 0 <= k < |r| ensures r[k] != x {
        if k < i { assert r[k] == q[k]; } else { assert r[k] == q[k + 1]; }
      }
    }
  }

  /** Every series of joins and leaves keeps the waitlist duplicate-free. */
  lemma {:induction false} ApplyKeepsNoDup<T>(q: seq<T>, ops: seq<Op<T>>)
    requires NoDup(q)
    ensures NoDup(Apply(q, ops))
    decreases |ops|
  {
    if ops != [] {
      var q' := match ops[0] case Join(u) => Enqueue(q, u) case Leave(u) => Dequeue(q, u);
      match ops[0] {
        case Join(u) => EnqueueKeepsNoDup(q, u);
        case Leave(u) => DequeueMembers(q, u, u);
      }
      ApplyKeepsNoDup(q', ops[1..]);
    }
  }

  lemma FirstIndexOfAfterAppend<T>(q: seq<T>, x: T, u: T)
    requires u in q
    ensures FirstIndexOf(q + [x], u) == FirstIndexOf(q, u)
  {
    var f := FirstIndexOf(q, u);
    FirstIndexOfUnique(q + [x], u, f);
  }

  lemma FirstIndexOfAfterRemove<T>(q: seq<T>, i: nat, u: T)
    requires i < |q| && u in q && q[i] != u
    ensures u in Remove(q, i)
    ensures FirstIndexOf(Remove(q, i), u)
            == if FirstIndexOf(q, u) < i then FirstIndexOf(q, u) else FirstIndexOf(q, u) - 1
  {
    if FirstIndexOf(q, u) < i {
      RemoveAfterFirst(q, i, u);
    } else {
      RemoveBeforeFirst(q, i, u);
    }
  }

  /** Removing a position after the first `u` leaves that position in place. */
  lemma RemoveAfterFirst<T>(q: seq<T>, i: nat, u: T)
    requires i < |q| && u in q && FirstIndexOf(q, u) < i
    ensures FirstIndexOf(Remove(q, i), u) == FirstIndexOf(q, u)
  {
    var f := FirstIndexOf(q, u);
    var r := Remove(q, i);
    forall j | 0 <= j < f ensures r[j] != u {
      assert r[j] == q[j];
    }
    FirstIndexOfUnique(r, u, f);
  }

  /** Removing a position before the first `u` moves it one place forward. */
  lemma RemoveBeforeFirst<T>(q: seq<T>, i: nat, u: T)
    requires i < |q| && u in q && i < FirstIndexOf(q, u)
    ensures FirstIndexOf(Remove(q, i), u) == FirstIndexOf(q, u) - 1
  {
    var f := FirstIndexOf(q, u);
    var r := Remove(q, i);
    assert r[f - 1] == q[f];
    forall j | 0 <= j < f - 1 ensures r[j] != u {
      if j < i {
        assert r[j] == q[j];
      } else {
        assert r[j] == q[j + 1];
      }
    }
    FirstIndexOfUnique(r, u, f - 1);
  }

  /** A join keeps the relative order of every pair already waiting. */
  lemma EnqueueKeepsOrder<T>(q: seq<T>, x: T, u: T, v: T)
    requires Precedes(q, u, v)
    ensures Precedes(Enqueue(q, x), u, v)
  {
    if x !in q {
      FirstIndexOfAfterAppend(q, x, u);
      FirstIndexOfAfterAppend(q, x, v);
    }
  }

  /** A leave keeps the relative order of every pair that stays. */
  lemma DequeueKeepsOrder<T>(q: seq<T>, x: T, u: T, v: T)
    requires Precedes(q, u, v) && u != x && v != x
    ensures Precedes(Dequeue(q, x), u, v)
  {
    if x in q {
      var i := FirstIndexOf(q, x);
      FirstIndexOfAfterRemove(q, i, u);
      FirstIndexOfAfterRemove(q, i, v);
    }
  }

  /** Survivors keep their join order across any series of joins and of leaves by others. */
  lemma {:induction false} ApplyKeepsOrder<T>(q: seq<T>, ops: seq<Op<T>>, u: T, v: T)
    requires Precedes(q, u, v)
    requires forall k :: 0 <= k < |ops| && ops[k].Leave? ==> ops[k].who != u && ops[k].who != v
    ensures Precedes(Apply(q, ops), u, v)
    decreases |ops|
  {
    if ops != [] {
      var q' := match ops[0] case Join(x) => Enqueue(q, x) case Leave(x) => Dequeue(q, x);
      match ops[0] {
        case Join(x) => EnqueueKeepsOrder(q, x, u, v);
        case Leave(x) => DequeueKeepsOrder(q, x, u, v);
      }
      forall k | 0 <= k < |ops[1..]| && ops[1..][k].Leave?
        ensures ops[1..][k].who != u && ops[1..][k].who != v
      {
        assert ops[1..][k] == ops[k + 1];
      }
      ApplyKeepsOrder(q', ops[1..], u, v);
    }
  }
}
