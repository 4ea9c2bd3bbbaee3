/** Iterated steps and folds over inputs, for any state type: what carries over from one step
    to many. */
module Iteration {

  function Iterate<S>(f: S -> S, s: S, n: nat): S {
    if n == 0 then s else Iterate(f, f(s), n - 1)
  }

  lemma IterateStep<S>(f: S -> S, s: S, t: S, n: nat)
    requires n > 0 && f(s) == t
    ensures Iterate(f, s, n) == Iterate(f, t, n - 1)
  {
  }

  /** A fold takes its inputs from left to right. */
  function Fold<S, B>(step: (S, B) -> S, s: S, inputs: seq<B>): S {
    if inputs == [] then s
    else step(Fold(step, s, inputs[..|inputs| - 1]), inputs[|inputs| - 1])
  }

  lemma {:induction false} IterateLinear<S(!new)>(f: S -> S, op: (S, S) -> S, a: S, b: S, n: nat)
    requires forall x, y :: f(op(x, y)) == op(f(x), f(y))
    ensures Iterate(f, op(a, b), n) == op(Iterate(f, a, n), Iterate(f, b, n))
  {
    if n > 0 {
      IterateLinear(f, op, f(a), f(b), n - 1);
    }
  }

  ghost predicate OneToOne<S(!new)>(f: S -> S) {
    forall x, y :: f(x) == f(y) ==> x == y
  }

  lemma {:induction false} IterateOneToOne<S(!new)>(f: S -> S, a: S, b: S, n: nat)
    requires OneToOne(f) && Iterate(f, a, n) == Iterate(f, b, n)
    ensures a == b
  {
    if n > 0 {
      IterateOneToOne(f, f(a), f(b), n - 1);
    }
  }

  /** If every step of g looks through h like a step of f, then so do n steps. */
  lemma {:induction false} IterateSimulates<S(!new), T>(g: S -> S, f: T -> T, h: S -> T, s: S, n: nat)
    requires forall x :: h(g(x)) == f(h(x))
    ensures h(Iterate(g, s, n)) == Iterate(f, h(s), n)
  {
    if n > 0 {
      IterateSimulates(g, f, h, g(s), n - 1);
    }
  }

  lemma {:induction false} FoldConcat<S, B>(step: (S, B) -> S, s: S, a: seq<B>, b: seq<B>)
    ensures Fold(step, s, a + b) == Fold(step, Fold(step, s, a), b)
    decreases |b|
  {
    if b == [] {
      assert a + b == a;
    } else {
      var m := |b| - 1;
      assert (a + b)[..|a + b| - 1] == a + b[..m];
      FoldConcat(step, s, a, b[..m]);
    }
  }

  /** Steps that keep states apart keep them apart over any common input. */
  lemma {:induction false} FoldOneToOne<S(!new), B(!new)>(step: (S, B) -> S, s: S, s': S, inputs: seq<B>)
    requires KeepsApart(step)
    requires Fold(step, s, inputs) == Fold(step, s', inputs)
    ensures s == s'
    decreases |inputs|
  {
    if inputs != [] {
      FoldOneToOne(step, s, s', inputs[..|inputs| - 1]);
    }
  }

  lemma {:induction false} IterateAdd<S>(f: S -> S, s: S, m: nat, n: nat)
    ensures Iterate(f, s, m + n) == Iterate(f, Iterate(f, s, m), n)
  {
    if m > 0 {
      IterateAdd(f, f(s), m - 1, n);
    }
  }

  lemma IterateLast<S>(f: S -> S, s: S, n: nat)
    ensures Iterate(f, s, n + 1) == f(Iterate(f, s, n))
  {
    IterateAdd(f, s, n, 1);
    assert Iterate(f, Iterate(f, s, n), 1) == Iterate(f, f(Iterate(f, s, n)), 0);
  }

  lemma FoldFirst<S, B>(step: (S, B) -> S, s: S, inputs: seq<B>)
    requires inputs != []
    ensures Fold(step, s, inputs) == Fold(step, step(s, inputs[0]), inputs[1..])
  {
    assert inputs == [inputs[0]] + inputs[1..];
    FoldConcat(step, s, [inputs[0]], inputs[1..]);
    assert Fold(step, s, [inputs[0]]) == step(Fold(step, s, []), inputs[0]);
  }

  // ---------------------------------------------------------------- folds between two flips

  /** A fold whose state is flipped on the way in and on the way out. */
  function Flipped<S, B>(step: (S, B) -> S, flip: S -> S, s: S, inputs: seq<B>): S {
    flip(Fold(step, flip(s), inputs))
  }

  ghost predicate Involution<S(!new)>(flip: S -> S) {
    forall x :: flip(flip(x)) == x
  }

  ghost predicate KeepsApart<S(!new), B(!new)>(step: (S, B) -> S) {
    forall x, y, b :: step(x, b) == step(y, b) ==> x == y
  }

  lemma FlippedConcat<S(!new), B>(step: (S, B) -> S, flip: S -> S, s: S, a: seq<B>, b: seq<B>)
    requires Involution(flip)
    ensures Flipped(step, flip, Flipped(step, flip, s, a), b) == Flipped(step, flip, s, a + b)
  {
    FoldConcat(step, flip(s), a, b);
  }

  lemma FlipOneToOne<S(!new)>(flip: S -> S, x: S, y: S)
    requires Involution(flip) && flip(x) == flip(y)
    ensures x == y
  {
    assert x == flip(flip(x)) == flip(flip(y)) == y;
  }

  lemma FlippedOneToOne<S(!new), B(!new)>(step: (S, B) -> S, flip: S -> S, s: S, s': S, inputs: seq<B>)
    requires Involution(flip) && KeepsApart(step)
    requires Flipped(step, flip, s, inputs) == Flipped(step, flip, s', inputs)
    ensures s == s'
  {
    FlipOneToOne(flip, Fold(step, flip(s), inputs), Fold(step, flip(s'), inputs));
    FoldOneToOne(step, flip(s), flip(s'), inputs);
    FlipOneToOne(flip, s, s');
  }

  /** If no state confuses x and y, no context does. */
  lemma FlippedInContext<S(!new), B(!new)>(step: (S, B) -> S, flip: S -> S, s: S,
                                           before: seq<B>, x: seq<B>, y: seq<B>, after: seq<B>)
    requires Involution(flip) && KeepsApart(step)
    requires forall t :: Fold(step, t, x) == Fold(step, t, y) ==> x == y
    ensures Flipped(step, flip, s, before + x + after) == Flipped(step, flip, s, before + y + after) <==> x == y
  {
    if Flipped(step, flip, s, before + x + after) == Flipped(step, flip, s, before + y + after) {
      FlippedConcat(step, flip, s, before + x, after);
      FlippedConcat(step, flip, s, before + y, after);
      FlippedOneToOne(step, flip, Flipped(step, flip, s, before + x), Flipped(step, flip, s, before + y), after);
      FlipOneToOne(flip, Fold(step, flip(s), before + x), Fold(step, flip(s), before + y));
      FoldConcat(step, flip(s), before, x);
      FoldConcat(step, flip(s), before, y);
    }
  }
}
