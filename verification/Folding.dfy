// Running a step over a list of inputs, collecting the outputs.
module Folding {
  import opened Options

  function Fold<S, I, O>(step: (S, I) -> (S, Option<O>), s: S, inputs: seq<I>): (S, seq<O>) {
    if inputs == [] then (s, []) else
    var (s1, outs) := Fold(step, s, inputs[..|inputs| - 1]);
    var (s2, out) := step(s1, inputs[|inputs| - 1]);
    (s2, if out.Some? then outs + [out.value] else outs)
  }

  // Running over a + b is running over a and going on with b.
  lemma {:induction false} FoldAppend<S, I, O>(step: (S, I) -> (S, Option<O>), s: S, a: seq<I>, b: seq<I>)
    ensures var (s1, p) := Fold(step, s, a); var (s2, q) := Fold(step, s1, b);
      Fold(step, s, a + b) == (s2, p + q)
  {
    var (s1, p) := Fold(step, s, a);
    if b == [] {
      assert a + b == a && p + [] == p;
    } else {
      var n := |b| - 1;
      assert (a + b)[..|a + b| - 1] == a + b[..n];
      FoldAppend(step, s, a, b[..n]);
      var (s2, q) := Fold(step, s1, b[..n]);
      var (s3, out) := step(s2, b[n]);
      if out.Some? { assert p + (q + [out.value]) == (p + q) + [out.value]; }
    }
  }

  lemma FoldMore<S, I, O>(step: (S, I) -> (S, Option<O>), s: S, a: seq<I>, i: I)
    ensures var (s1, p) := Fold(step, s, a); var (s2, out) := step(s1, i);
      Fold(step, s, a + [i]) == (s2, if out.Some? then p + [out.value] else p)
  {
    assert (a + [i])[..|a|] == a;
  }

  lemma FoldPrefix<S, I, O>(step: (S, I) -> (S, Option<O>), s: S, inputs: seq<I>, k: nat)
    requires k < |inputs|
    ensures var (s1, p) := Fold(step, s, inputs[..k]); var (s2, out) := step(s1, inputs[k]);
      Fold(step, s, inputs[..k + 1]) == (s2, if out.Some? then p + [out.value] else p)
  {
    FoldMore(step, s, inputs[..k], inputs[k]);
    assert inputs[..k] + [inputs[k]] == inputs[..k + 1];
  }

  // Before input j, the state is the one after input i, changed by the inputs between.
  lemma FoldBetween<S, I, O>(step: (S, I) -> (S, Option<O>), s: S, inputs: seq<I>, i: nat, j: nat)
    requires i < j <= |inputs|
    ensures Fold(step, s, inputs[..j]).0
         == Fold(step, step(Fold(step, s, inputs[..i]).0, inputs[i]).0, inputs[i + 1..j]).0
  {
    var head := inputs[..i] + [inputs[i]];
    FoldMore(step, s, inputs[..i], inputs[i]);
    FoldAppend(step, s, head, inputs[i + 1..j]);
    assert head + inputs[i + 1..j] == inputs[..j];
  }

  // The output of input i stands behind those of the inputs before it.
  lemma FoldOutput<S, I, O>(step: (S, I) -> (S, Option<O>), s: S, inputs: seq<I>, i: nat) returns (after: seq<O>)
    requires i < |inputs|
    ensures var out := step(Fold(step, s, inputs[..i]).0, inputs[i]).1;
      out.Some? ==> Fold(step, s, inputs).1 == Fold(step, s, inputs[..i]).1 + [out.value] + after
  {
    var head := inputs[..i] + [inputs[i]];
    FoldMore(step, s, inputs[..i], inputs[i]);
    FoldAppend(step, s, head, inputs[i + 1..]);
    assert head + inputs[i + 1..] == inputs;
    after := Fold(step, Fold(step, s, head).0, inputs[i + 1..]).1;
  }

  // Two runs whose steps do the same to their inputs end the same.
  lemma {:induction false} FoldAlike<S(!new), I, J, O>(step: (S, I) -> (S, Option<O>), step': (S, J) -> (S, Option<O>), s: S,
                                           inputs: seq<I>, inputs': seq<J>)
    requires |inputs| == |inputs'|
    requires forall i, t: S | 0 <= i < |inputs| :: step(t, inputs[i]) == step'(t, inputs'[i])
    ensures Fold(step, s, inputs) == Fold(step', s, inputs')
  {
    if inputs != [] {
      var n := |inputs| - 1;
      FoldAlike(step, step', s, inputs[..n], inputs'[..n]);
      assert step(Fold(step, s, inputs[..n]).0, inputs[n]) == step'(Fold(step, s, inputs[..n]).0, inputs'[n]);
    }
  }

  // The same step k times.
  function Iterate<S>(step: S -> S, s: S, k: nat): S {
    if k == 0 then s else step(Iterate(step, s, k - 1))
  }

  lemma {:induction false} IterateAlike<S(!new)>(step: S -> S, step': S -> S, s: S, k: nat)
    requires forall t :: step(t) == step'(t)
    ensures Iterate(step, s, k) == Iterate(step', s, k)
  {
    if k > 0 { IterateAlike(step, step', s, k - 1); }
  }

  // A property every step keeps holds after the whole run.
  lemma {:induction false} FoldKeeps<S(!new), I(!new), O>(step: (S, I) -> (S, Option<O>), s: S, inputs: seq<I>, ok: S -> bool)
    requires ok(s) && forall t, i :: ok(t) ==> ok(step(t, i).0)
    ensures ok(Fold(step, s, inputs).0)
  {
    if inputs != [] { FoldKeeps(step, s, inputs[..|inputs| - 1], ok); }
  }
}
