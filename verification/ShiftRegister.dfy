/**
 Error detection of a register that is fed one symbol at a time, told without any
 bit-level reasoning. `top1`, `top2` and `top3` view ever larger leading parts of a state;
 a step consults one table entry, and the leading part of its result reveals which one.
 */
module ShiftRegister {

  datatype Register<!S, !B, V, I> = Register(
    step: (S, B) -> S,
    index: (S, B) -> I,
    top1: S -> V,
    top2: S -> V,
    top3: S -> V)

  /** What the result of one step reveals, for two steps side by side. */
  ghost predicate StepsReveal<S, B, V, I>(r: Register<S, B, V, I>, x: S, b: B, y: S, c: B) {
    && (r.step(x, b) == r.step(y, c) ==> r.index(x, b) == r.index(y, c) && r.top3(x) == r.top3(y))
    && (r.top3(r.step(x, b)) == r.top3(r.step(y, c)) ==> r.index(x, b) == r.index(y, c) && r.top2(x) == r.top2(y))
    && (r.top2(r.step(x, b)) == r.top2(r.step(y, c)) ==> r.index(x, b) == r.index(y, c) && r.top1(x) == r.top1(y))
    && (r.top1(r.step(x, b)) == r.top1(r.step(y, c)) ==> r.index(x, b) == r.index(y, c))
    && (x == y && r.index(x, b) == r.index(y, c) ==> b == c)
    && (b == c && r.index(x, b) == r.index(y, c) && r.top3(x) == r.top3(y) ==> x == y)
  }

  /** The law that makes four steps invertible. */
  ghost predicate Revealing<S(!new), B(!new), V, I>(r: Register<S, B, V, I>) {
    forall x, b, y, c :: StepsReveal(r, x, b, y, c)
  }

  /** The state reached from `x` after all of `s`. */
  function Fold<S, B>(step: (S, B) -> S, x: S, s: seq<B>): S {
    if s == [] then x else step(Fold(step, x, s[..|s| - 1]), s[|s| - 1])
  }

  lemma {:induction false} FoldConcat<S, B>(step: (S, B) -> S, x: S, a: seq<B>, b: seq<B>)
    ensures Fold(step, x, a + b) == Fold(step, Fold(step, x, a), b)
  {
    if b == [] {
      assert a + b == a;
    } else {
      FoldConcat(step, x, a, b[..|b| - 1]);
      assert (a + b)[..|a + b| - 1] == a + b[..|b| - 1];
    }
  }

  lemma FoldExtend<S, B>(step: (S, B) -> S, x: S, s: seq<B>, k: nat)
    requires k < |s|
    ensures Fold(step, x, s[..k + 1]) == step(Fold(step, x, s[..k]), s[k])
  {
    assert s[..k + 1][..k] == s[..k];
  }

  /** Different states stay different over any common suffix. */
  lemma {:induction false} SuffixInjective<S(!new), B(!new), V, I>(r: Register<S, B, V, I>, x: S, y: S, s: seq<B>)
    requires Revealing(r)
    requires Fold(r.step, x, s) == Fold(r.step, y, s)
    ensures x == y
  {
    if s != [] {
      var s', b := s[..|s| - 1], s[|s| - 1];
      assert StepsReveal(r, Fold(r.step, x, s'), b, Fold(r.step, y, s'), b);
      SuffixInjective(r, x, y, s');
    }
  }

  /** The last state reveals the entries consulted, last one first, and the entries reveal
      the symbols, first one first. */
  lemma FourStepsInjective<S(!new), B(!new), V, I>(
    r: Register<S, B, V, I>, x: S, w0: B, w1: B, w2: B, w3: B, v0: B, v1: B, v2: B, v3: B)
    requires Revealing(r)
    requires r.step(r.step(r.step(r.step(x, w0), w1), w2), w3) == r.step(r.step(r.step(r.step(x, v0), v1), v2), v3)
    ensures w0 == v0 && w1 == v1 && w2 == v2 && w3 == v3
  {
    var x1, y1 := r.step(x, w0), r.step(x, v0);
    var x2, y2 := r.step(x1, w1), r.step(y1, v1);
    var x3, y3 := r.step(x2, w2), r.step(y2, v2);
    assert StepsReveal(r, x3, w3, y3, v3);
    assert StepsReveal(r, x2, w2, y2, v2);
    assert StepsReveal(r, x1, w1, y1, v1);
    assert StepsReveal(r, x, w0, x, v0);
  }

  lemma FoldOfFour<S, B>(step: (S, B) -> S, x: S, w: seq<B>)
    requires |w| == 4
    ensures Fold(step, x, w) == step(step(step(step(x, w[0]), w[1]), w[2]), w[3])
  {
    assert w[..3][..2] == w[..2] && w[..2][..1] == w[..1] && w[..1][..0] == [];
    assert Fold(step, x, w[..1]) == step(x, w[0]);
    assert Fold(step, x, w[..2]) == step(step(x, w[0]), w[1]);
    assert Fold(step, x, w[..3]) == step(step(step(x, w[0]), w[1]), w[2]);
  }

  /** From one state, different four-symbol words lead to different states. */
  lemma WordInjective<S(!new), B(!new), V, I>(r: Register<S, B, V, I>, x: S, w: seq<B>, v: seq<B>)
    requires Revealing(r)
    requires |w| == |v| == 4
    requires Fold(r.step, x, w) == Fold(r.step, x, v)
    ensures w == v
  {
    FoldOfFour(r.step, x, w);
    FoldOfFour(r.step, x, v);
    FourStepsInjective(r, x, w[0], w[1], w[2], w[3], v[0], v[1], v[2], v[3]);
  }

  /** `a` and `b` are equal outside the `n` positions from `k` on. */
  ghost predicate DifferOnlyWithin<B>(a: seq<B>, b: seq<B>, k: nat, n: nat) {
    && |a| == |b|
    && k + n <= |a|
    && a[..k] == b[..k]
    && a[k + n..] == b[k + n..]
  }

  /** The fold of a sequence split into a prefix, a four-symbol word and a suffix. */
  lemma FoldAround<S, B>(step: (S, B) -> S, x: S, a: seq<B>, j: nat)
    requires j + 4 <= |a|
    ensures Fold(step, x, a) == Fold(step, Fold(step, Fold(step, x, a[..j]), a[j..j + 4]), a[j + 4..])
  {
    assert a == a[..j] + (a[j..j + 4] + a[j + 4..]);
    FoldConcat(step, x, a[..j], a[j..j + 4] + a[j + 4..]);
    FoldConcat(step, Fold(step, x, a[..j]), a[j..j + 4], a[j + 4..]);
  }

  /** Any window of at most four symbols lies in one of exactly four. */
  lemma WidenWindow<B>(a: seq<B>, b: seq<B>, k: nat, n: nat, j: nat)
    requires n <= 4 <= |a|
    requires DifferOnlyWithin(a, b, k, n)
    requires j == if k + 4 <= |a| then k else |a| - 4
    ensures DifferOnlyWithin(a, b, j, 4)
  {
    assert a[..j] == a[..k][..j] && b[..j] == b[..k][..j];
    var d := j + 4 - (k + n);
    assert a[j + 4..] == a[k + n..][d..] && b[j + 4..] == b[k + n..][d..];
  }

  /** Sequences of at least four symbols that differ only within four consecutive ones and
      have the same fold are equal. */
  lemma BurstDetected<S(!new), B(!new), V, I>(r: Register<S, B, V, I>, x: S, a: seq<B>, b: seq<B>, k: nat, n: nat)
    requires Revealing(r)
    requires n <= 4 <= |a|
    requires DifferOnlyWithin(a, b, k, n)
    requires Fold(r.step, x, a) == Fold(r.step, x, b)
    ensures a == b
  {
    hide Fold, Revealing, DifferOnlyWithin;
    var j := if k + 4 <= |a| then k else |a| - 4;
    WidenWindow(a, b, k, n, j);
    SameAround(a, b, j);
    FoldAround(r.step, x, a, j);
    FoldAround(r.step, x, b, j);
    var c, w, v := Fold(r.step, x, a[..j]), a[j..j + 4], b[j..j + 4];
    SuffixInjective(r, Fold(r.step, c, w), Fold(r.step, c, v), a[j + 4..]);
    WordInjective(r, c, w, v);
    SameInside(a, b, j);
  }

  lemma SameAround<B>(a: seq<B>, b: seq<B>, j: nat)
    requires DifferOnlyWithin(a, b, j, 4)
    ensures |a| == |b| && j + 4 <= |a| && a[..j] == b[..j] && a[j + 4..] == b[j + 4..]
  {
  }

  lemma SameInside<B>(a: seq<B>, b: seq<B>, j: nat)
    requires DifferOnlyWithin(a, b, j, 4) && a[j..j + 4] == b[j..j + 4]
    ensures a == b
  {
    assert a == a[..j] + a[j..j + 4] + a[j + 4..];
    assert b == b[..j] + b[j..j + 4] + b[j + 4..];
  }
}
