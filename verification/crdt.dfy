/** The replicated document, abstracted as a delta-state CRDT whose state is the
    set of atomic update identifiers it has integrated. Merging a delta is set
    union, which is exactly the idempotent, commutative, associative merge the
    collaboration service relies on (it re-applies the whole update log on top
    of a snapshot and lets remote updates arrive in any order). */
module Crdt {

  /** Identifier of one atomic change (one inserted/deleted item in Yjs terms). */
  type UpdateId = nat

  /** Full replica state, a state vector, or a delta: all are sets of update ids. */
  type State = set<UpdateId>

  /** The outcome of `Y.applyUpdate`: the merged state, and the part of the delta
      that was new. Yjs raises the document's 'update' event only when that
      part is non-empty, and the event carries exactly that part. */
  datatype Applied = Applied(state: State, event: set<UpdateId>)

  function Apply(s: State, delta: State): (r: Applied)
    ensures r.state == s + delta
    ensures r.event !! s && r.event <= delta
    ensures r.state == s + r.event
  {
    Applied(s + delta, delta - s)
  }

  /** The Step2 answer to a Step1 that advertised `vector`: every update the
      sender of the vector has not seen. */
  function Diff(s: State, vector: State): (r: State)
    ensures r <= s && r !! vector
    ensures vector + r >= s
  {
    s - vector
  }

  /** Applying a sequence of deltas left to right. */
  function ApplyAll(s: State, deltas: seq<State>): State
    decreases |deltas|
  {
    if |deltas| == 0 then s else ApplyAll(Apply(s, deltas[0]).state, deltas[1..])
  }

  /** Union of all deltas of a sequence. */
  function UnionAll(deltas: seq<State>): State
    decreases |deltas|
  {
    if |deltas| == 0 then {} else deltas[0] + UnionAll(deltas[1..])
  }

  /** Folding deltas into a state is a union with all of them. */
  lemma {:induction false} ApplyAllIsUnion(s: State, deltas: seq<State>)
    ensures ApplyAll(s, deltas) == s + UnionAll(deltas)
    decreases |deltas|
  {
    if |deltas| > 0 {
      ApplyAllIsUnion(s + deltas[0], deltas[1..]);
    }
  }

  /** An id is in the union exactly when some delta of the sequence holds it. */
  lemma {:induction false} UnionAllMembers(deltas: seq<State>, x: UpdateId)
    ensures x in UnionAll(deltas) <==> exists i :: 0 <= i < |deltas| && x in deltas[i]
    decreases |deltas|
  {
    if |deltas| > 0 {
      UnionAllMembers(deltas[1..], x);
      if x in UnionAll(deltas[1..]) {
        var i :| 0 <= i < |deltas[1..]| && x in deltas[1..][i];
        assert x in deltas[i + 1];
      }
      if exists i :: 0 <= i < |deltas| && x in deltas[i] {
        var i :| 0 <= i < |deltas| && x in deltas[i];
        if i > 0 {
          assert x in deltas[1..][i - 1];
        }
      }
    }
  }

  /** Union distributes over concatenation of delta sequences. */
  lemma {:induction false} UnionAllAppend(a: seq<State>, b: seq<State>)
    ensures UnionAll(a + b) == UnionAll(a) + UnionAll(b)
    decreases |a|
  {
    if |a| > 0 {
      assert (a + b)[1..] == a[1..] + b;
      UnionAllAppend(a[1..], b);
    } else {
      assert a + b == b;
    }
  }

  /** Convergence: two replicas that start from the same state and receive the
      same deltas, in any order, with any duplication, end in the same state. */
  lemma {:induction false} Convergence(s: State, a: seq<State>, b: seq<State>)
    requires forall d :: d in a <==> d in b
    ensures ApplyAll(s, a) == ApplyAll(s, b)
  {
    ApplyAllIsUnion(s, a);
    ApplyAllIsUnion(s, b);
    forall x
      ensures x in UnionAll(a) <==> x in UnionAll(b)
    {
      UnionAllMembers(a, x);
      UnionAllMembers(b, x);
      if x in UnionAll(a) {
        var i :| 0 <= i < |a| && x in a[i];
        assert a[i] in a;
        assert a[i] in b;
        var j :| 0 <= j < |b| && b[j] == a[i];
        assert x in b[j];
      }
      if x in UnionAll(b) {
        var j :| 0 <= j < |b| && x in b[j];
        assert b[j] in b;
        assert b[j] in a;
        var i :| 0 <= i < |a| && a[i] == b[j];
        assert x in a[i];
      }
    }
  }

  /** Re-applying a delta that is already integrated changes nothing and
      raises no update event. */
  lemma {:induction false} ApplyIdempotent(s: State, delta: State)
    ensures Apply(Apply(s, delta).state, delta) == Applied(Apply(s, delta).state, {})
  {
  }

  /** Two deltas applied in either order give the same state. */
  lemma {:induction false} ApplyCommutes(s: State, a: State, b: State)
    ensures Apply(Apply(s, a).state, b).state == Apply(Apply(s, b).state, a).state
  {
  }
}
