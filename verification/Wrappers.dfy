// Small datatypes shared by the models.
module Wrappers {

  datatype Option<+T> = None | Some(value: T)

  function Min(a: int, b: int): int {
    if a <= b then a else b
  }

  function Max(a: int, b: int): int {
    if a >= b then a else b
  }
}

// The window arithmetic of the report code, wrapped so that proofs about windows
// can `hide` the division underneath.
module Windows {

  function Idx(at: nat, step: nat): nat
    requires step > 0
  {
    at / step
  }

  function Scale(k: nat, step: nat): nat {
    k * step
  }

  predicate Multiple(x: nat, step: nat)
    requires step > 0
  {
    x % step == 0
  }

  // The source's `at / step * step`.
  function Align(at: nat, step: nat): nat
    requires step > 0
  {
    at / step * step
  }

  lemma MulMono(a: nat, b: nat, step: nat)
    requires a <= b
    ensures a * step <= b * step
  {
  }

  // Division is characterised by the window it names.
  lemma DivUnique(x: nat, step: nat, k: nat)
    requires step > 0
    requires k * step <= x < k * step + step
    ensures Idx(x, step) == k && x % step == x - k * step
  {
    var q := x / step;
    assert x == q * step + x % step;
    if q < k {
      MulMono(q + 1, k, step);
      assert false;
    } else if q > k {
      MulMono(k + 1, q, step);
      assert false;
    }
  }

  lemma MultipleIdx(k: nat, step: nat)
    requires step > 0
    ensures Multiple(k * step, step) && Idx(k * step, step) == k && Align(k * step, step) == k * step
  {
    DivUnique(k * step, step, k);
  }

  lemma MultipleIsAligned(x: nat, step: nat)
    requires step > 0
    ensures Multiple(x, step) <==> Align(x, step) == x
  {
    MultipleIdx(x / step, step);
  }

  lemma AlignFacts(at: nat, step: nat)
    requires step > 0
    ensures Align(at, step) <= at < Align(at, step) + step
    ensures Multiple(Align(at, step), step)
    ensures Idx(Align(at, step), step) == Idx(at, step)
    ensures at >= step <==> Idx(at, step) >= 1
    ensures at >= step <==> Align(at, step) > 0
  {
    MultipleIdx(at / step, step);
    if at >= step && at / step == 0 {
      assert false;
    }
    if at / step >= 1 {
      MulMono(1, at / step, step);
    }
  }

  lemma IdxMono(x: nat, y: nat, step: nat)
    requires step > 0 && x <= y
    ensures Idx(x, step) <= Idx(y, step) && Align(x, step) <= Align(y, step)
  {
    var a, b := x / step, y / step;
    if b < a {
      MulMono(b + 1, a, step);
      assert false;
    }
    MulMono(a, b, step);
  }

  // A time lies before window `k` exactly when its window does.
  lemma BelowIdx(at: nat, k: nat, step: nat)
    requires step > 0
    ensures at < Scale(k, step) <==> Idx(at, step) < k
  {
    if at < k * step && at / step >= k {
      MulMono(k, at / step, step);
      assert false;
    }
    if at / step < k {
      MulMono(at / step + 1, k, step);
    }
  }

  lemma NextMultiple(x: nat, step: nat)
    requires step > 0 && Multiple(x, step)
    ensures Multiple(x + step, step) && Idx(x + step, step) == Idx(x, step) + 1
  {
    assert (x / step + 1) * step == x + step;
    MultipleIdx(x / step + 1, step);
  }

  // Two multiples of the same step that differ, differ by at least a step.
  lemma MultiplesApart(x: nat, y: nat, step: nat)
    requires step > 0
    requires Multiple(x, step) && Multiple(y, step) && x < y
    ensures x + step <= y
    ensures Multiple(y - x, step)
  {
    var a, b := x / step, y / step;
    assert x == a * step && y == b * step;
    if b <= a {
      MulMono(b, a, step);
      assert false;
    }
    MulMono(a + 1, b, step);
    assert (b - a) * step == y - x;
    MultipleIdx(b - a, step);
  }

  lemma MultiplesAdd(x: nat, y: nat, step: nat)
    requires step > 0
    requires Multiple(x, step) && Multiple(y, step)
    ensures Multiple(x + y, step)
  {
    var a, b := x / step, y / step;
    assert x == a * step && y == b * step;
    assert x + y == (a + b) * step;
    MultipleIdx(a + b, step);
  }

  // A multiple of a multiple is a multiple.
  lemma MultipleOfMultiple(x: nat, outer: nat, inner: nat)
    requires inner > 0 && outer > 0 && Multiple(outer, inner)
    requires Multiple(x, outer)
    ensures Multiple(x, inner)
  {
    var a, b := x / outer, outer / inner;
    assert x == a * outer && outer == b * inner;
    assert x == (a * b) * inner;
    MultipleIdx(a * b, inner);
  }
}
