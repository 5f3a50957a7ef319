/** Running a step function over a list of inputs, and joining lists. */
module Folds {

  function Fold<S, E>(step: (S, E) -> S, s: S, inputs: seq<E>): (r: S) {
    if inputs == [] then s else step(Fold(step, s, inputs[..|inputs| - 1]), inputs[|inputs| - 1])
  }

  function Concat<E>(parts: seq<seq<E>>): (r: seq<E>) {
    if parts == [] then [] else Concat(parts[..|parts| - 1]) + parts[|parts| - 1]
  }

  lemma {:induction false} FoldAppend<S, E>(step: (S, E) -> S, s: S, a: seq<E>, b: seq<E>)
    ensures Fold(step, s, a + b) == Fold(step, Fold(step, s, a), b)
  {
    if b == [] {
      assert a + b == a;
    } else {
      FoldAppend(step, s, a, b[..|b| - 1]);
      assert (a + b)[..|a + b| - 1] == a + b[..|b| - 1];
    }
  }

  lemma {:induction false} FoldCons<S, E>(step: (S, E) -> S, s: S, e: E, rest: seq<E>)
    ensures Fold(step, s, [e]) == step(s, e)
    ensures Fold(step, s, [e] + rest) == Fold(step, step(s, e), rest)
  {
    assert [e][..0] == [];
    FoldAppend(step, s, [e], rest);
  }

  lemma {:induction false} ConcatCons<E>(part: seq<E>, parts: seq<seq<E>>)
    ensures Concat([part] + parts) == part + Concat(parts)
  {
    var all := [part] + parts;
    if parts == [] {
      assert all[..0] == [] && all[0] == part;
    } else {
      var n := |parts| - 1;
      ConcatCons(part, parts[..n]);
      assert all[..|all| - 1] == [part] + parts[..n];
      assert part + (Concat(parts[..n]) + parts[n]) == part + Concat(parts[..n]) + parts[n];
    }
  }

  /** A state that ignores its inputs is never left. */
  lemma {:induction false} FoldStuck<S, E(!new)>(step: (S, E) -> S, s: S, inputs: seq<E>)
    requires forall e :: step(s, e) == s
    ensures Fold(step, s, inputs) == s
  {
    if inputs != [] { FoldStuck(step, s, inputs[..|inputs| - 1]); }
  }

  /** If each input leads from one listed state to the next, all of them lead from the first to the last. */
  lemma {:induction false} FoldAlong<S, E>(step: (S, E) -> S, states: seq<S>, inputs: seq<E>, k: nat)
    requires k <= |inputs| && |states| == |inputs| + 1
    requires forall i :: 0 <= i < |inputs| ==> step(states[i], inputs[i]) == states[i + 1]
    ensures Fold(step, states[0], inputs[..k]) == states[k]
  {
    if k > 0 {
      FoldAlong(step, states, inputs, k - 1);
      assert inputs[..k][..k - 1] == inputs[..k - 1];
    }
  }

  /** The same for groups of inputs. */
  lemma {:induction false} FoldGroups<S, E>(step: (S, E) -> S, states: seq<S>, groups: seq<seq<E>>, k: nat)
    requires k <= |groups| && |states| == |groups| + 1
    requires forall i :: 0 <= i < |groups| ==> Fold(step, states[i], groups[i]) == states[i + 1]
    ensures Fold(step, states[0], Concat(groups[..k])) == states[k]
  {
    if k > 0 {
      FoldGroups(step, states, groups, k - 1);
      assert groups[..k][..k - 1] == groups[..k - 1];
      FoldAppend(step, states[0], Concat(groups[..k - 1]), groups[k - 1]);
    }
  }

  /** The parts marked as kept, in order. */
  function Kept<E>(parts: seq<seq<E>>, keep: seq<bool>): (r: seq<E>)
    requires |parts| == |keep|
  {
    if parts == [] then []
    else Kept(parts[..|parts| - 1], keep[..|parts| - 1]) + if keep[|parts| - 1] then parts[|parts| - 1] else []
  }

  /** Dropping a nonempty part shows in the length. */
  lemma {:induction false} KeptComplete<E>(parts: seq<seq<E>>, keep: seq<bool>)
    requires |parts| == |keep| && forall i :: 0 <= i < |parts| ==> parts[i] != []
    ensures |Kept(parts, keep)| <= |Concat(parts)|
    ensures (forall i :: 0 <= i < |keep| ==> keep[i]) ==> Kept(parts, keep) == Concat(parts)
    ensures (exists i :: 0 <= i < |keep| && !keep[i]) ==> |Kept(parts, keep)| < |Concat(parts)|
  {
    if parts != [] {
      var k := |parts| - 1;
      KeptComplete(parts[..k], keep[..k]);
      if i :| 0 <= i < |keep| && !keep[i] && keep[k] { assert !keep[..k][i]; }
    }
  }

  lemma {:induction false} AllConcat<E>(parts: seq<seq<E>>, x: E)
    requires x in Concat(parts)
    ensures exists i :: 0 <= i < |parts| && x in parts[i]
  {
    if x in Concat(parts[..|parts| - 1]) { AllConcat(parts[..|parts| - 1], x); }
  }

  /** The same elements added to two equal sums of multisets. */
  lemma {:induction false} AddToBoth<E>(a: multiset<E>, b: multiset<E>, c: multiset<E>, d: multiset<E>, g: multiset<E>)
    requires a + b == c + d
    ensures a + g + b == c + g + d
  {
    assert a + g + b == a + b + g;
    assert c + g + d == c + d + g;
  }
}
