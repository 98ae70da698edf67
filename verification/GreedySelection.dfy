/**
 Greedy selection from a ranked list, for any "suppresses" relation: what survives, and
 why there is only one such selection.
 */
module GreedySelection {

  /** Entry `i` survives: no earlier survivor suppresses it. */
  ghost predicate Survives<T>(s: seq<T>, r: (T, T) -> bool, i: nat)
    requires i < |s|
    decreases i
  {
    forall j :: 0 <= j < i && Survives(s, r, j) ==> !r(s[j], s[i])
  }

  /** The survivors among the first `n` entries, in order. */
  ghost function Survivors<T>(s: seq<T>, r: (T, T) -> bool, n: nat): seq<T>
    requires n <= |s|
  {
    if n == 0 then []
    else Survivors(s, r, n - 1) + (if Survives(s, r, n - 1) then [s[n - 1]] else [])
  }

  ghost function Selection<T>(s: seq<T>, r: (T, T) -> bool): seq<T> { Survivors(s, r, |s|) }

  /** A bitmap that keeps an entry exactly when no earlier kept entry suppresses it. */
  ghost predicate IsKernel<T>(s: seq<T>, r: (T, T) -> bool, keep: seq<bool>) {
    && |keep| == |s|
    && forall i :: 0 <= i < |s| ==> (keep[i] <==> forall j :: 0 <= j < i && keep[j] ==> !r(s[j], s[i]))
  }

  /** The kept entries of a bitmap. */
  function Pick<T>(s: seq<T>, keep: seq<bool>): seq<T>
    requires |keep| == |s|
  {
    if s == [] then []
    else Pick(s[..|s| - 1], keep[..|s| - 1]) + (if keep[|s| - 1] then [s[|s| - 1]] else [])
  }

  lemma {:induction false} KernelEntry<T>(s: seq<T>, r: (T, T) -> bool, keep: seq<bool>, i: nat)
    requires IsKernel(s, r, keep) && i < |s|
    ensures keep[i] == Survives(s, r, i)
  {
    forall j | 0 <= j < i ensures keep[j] == Survives(s, r, j) {
      KernelEntry(s, r, keep, j);
    }
  }

  lemma {:induction false} PickSurvivors<T>(s: seq<T>, r: (T, T) -> bool, keep: seq<bool>, n: nat)
    requires n <= |s| && |keep| == |s|
    requires forall i :: 0 <= i < |s| ==> keep[i] == Survives(s, r, i)
    ensures Pick(s[..n], keep[..n]) == Survivors(s, r, n)
  {
    if n > 0 {
      PickSurvivors(s, r, keep, n - 1);
      assert s[..n][..n - 1] == s[..n - 1] && keep[..n][..n - 1] == keep[..n - 1];
    }
  }

  /** The kernel equation has one solution, and the selection is what it keeps. */
  lemma KernelUnique<T>(s: seq<T>, r: (T, T) -> bool, keep: seq<bool>)
    requires IsKernel(s, r, keep)
    ensures Selection(s, r) == Pick(s, keep)
    ensures forall other :: IsKernel(s, r, other) ==> other == keep
  {
    forall i | 0 <= i < |s| ensures keep[i] == Survives(s, r, i) {
      KernelEntry(s, r, keep, i);
    }
    PickSurvivors(s, r, keep, |s|);
    assert s[..|s|] == s && keep[..|s|] == keep;
    forall other | IsKernel(s, r, other) ensures other == keep {
      forall i | 0 <= i < |s| ensures other[i] == keep[i] {
        KernelEntry(s, r, other, i);
      }
    }
  }

  lemma KernelExists<T>(s: seq<T>, r: (T, T) -> bool) returns (keep: seq<bool>)
    ensures IsKernel(s, r, keep)
  {
    keep := seq(|s|, i requires 0 <= i < |s| => Survives(s, r, i));
    forall i | 0 <= i < |s|
      ensures keep[i] <==> forall j :: 0 <= j < i && keep[j] ==> !r(s[j], s[i])
    {
      assert forall j :: 0 <= j < i ==> keep[j] == Survives(s, r, j);
    }
  }

  // ----------------------------------------------------- shape of a selection

  /** No entry suppresses a later one. */
  ghost predicate Separated<T>(s: seq<T>, r: (T, T) -> bool) {
    forall i, j :: 0 <= i < j < |s| ==> !r(s[i], s[j])
  }

  /** `at` lists, in order, the positions in `s` of the entries of `sub`. */
  ghost predicate Positions<T>(s: seq<T>, sub: seq<T>, at: seq<nat>) {
    && |at| == |sub|
    && (forall a :: 0 <= a < |at| ==> at[a] < |s| && sub[a] == s[at[a]])
    && (forall a, b :: 0 <= a < b < |at| ==> at[a] < at[b])
  }

  /** The positions of the survivors. */
  ghost function SurvivorPositions<T>(s: seq<T>, r: (T, T) -> bool, n: nat): seq<nat>
    requires n <= |s|
  {
    if n == 0 then []
    else SurvivorPositions(s, r, n - 1) + (if Survives(s, r, n - 1) then [n - 1] else [])
  }

  lemma {:induction false} PositionsOfSurvivors<T>(s: seq<T>, r: (T, T) -> bool, n: nat)
    requires n <= |s|
    ensures Positions(s, Survivors(s, r, n), SurvivorPositions(s, r, n))
    ensures forall a :: 0 <= a < |SurvivorPositions(s, r, n)| ==>
      SurvivorPositions(s, r, n)[a] < n && Survives(s, r, SurvivorPositions(s, r, n)[a])
  {
    if n > 0 {
      PositionsOfSurvivors(s, r, n - 1);
    }
  }

  lemma {:induction false} SurvivorSelected<T>(s: seq<T>, r: (T, T) -> bool, n: nat, i: nat)
    requires i < n <= |s| && Survives(s, r, i)
    ensures s[i] in Survivors(s, r, n)
  {
    if i < n - 1 {
      SurvivorSelected(s, r, n - 1, i);
    }
  }

  /** A selection keeps any transitive ranking of its list, and no entry of it suppresses a later one. */
  lemma SelectionOrdered<T>(s: seq<T>, r: (T, T) -> bool, above: (T, T) -> bool)
    requires forall i, j :: 0 <= i < j < |s| ==> above(s[i], s[j])
    ensures var kept := Selection(s, r);
            && Separated(kept, r)
            && forall i, j :: 0 <= i < j < |kept| ==> above(kept[i], kept[j])
  {
    PositionsOfSurvivors(s, r, |s|);
    var kept, at := Selection(s, r), SurvivorPositions(s, r, |s|);
    forall i, j | 0 <= i < j < |kept| ensures !r(kept[i], kept[j]) && above(kept[i], kept[j]) {
      assert Survives(s, r, at[i]) && Survives(s, r, at[j]);
    }
  }

  /** Every entry is selected, or an earlier selected entry suppresses it. */
  lemma SelectionCovers<T>(s: seq<T>, r: (T, T) -> bool, above: (T, T) -> bool, d: T)
    requires forall i, j :: 0 <= i < j < |s| ==> above(s[i], s[j])
    requires d in s
    ensures d in Selection(s, r) || exists k :: k in Selection(s, r) && above(k, d) && r(k, d)
  {
    var i :| 0 <= i < |s| && s[i] == d;
    if Survives(s, r, i) {
      SurvivorSelected(s, r, |s|, i);
    } else {
      var j :| 0 <= j < i && Survives(s, r, j) && r(s[j], s[i]);
      SurvivorSelected(s, r, |s|, j);
    }
  }

  lemma {:induction false} SurvivorsLength<T>(s: seq<T>, r: (T, T) -> bool, n: nat)
    requires n <= |s|
    ensures |Survivors(s, r, n)| <= n
  {
    if n > 0 { SurvivorsLength(s, r, n - 1); }
  }

  /** No entry before `n` suppresses a later one before `n`. */
  ghost predicate SeparatedTo<T>(s: seq<T>, r: (T, T) -> bool, n: nat)
    requires n <= |s|
  {
    forall i, j :: 0 <= i < j < n ==> !r(s[i], s[j])
  }

  lemma SeparatedPrefix<T>(s: seq<T>, r: (T, T) -> bool, n: nat)
    requires n <= |s|
    ensures Separated(s[..n], r) <==> SeparatedTo(s, r, n)
  {
    var t := s[..n];
    assert forall i :: 0 <= i < n ==> t[i] == s[i];
    if Separated(t, r) {
      forall i, j | 0 <= i < j < n ensures !r(s[i], s[j]) {
        assert !r(t[i], t[j]);
      }
    }
  }

  lemma {:induction false} SeparatedSurvive<T>(s: seq<T>, r: (T, T) -> bool, n: nat, i: nat)
    requires i < n <= |s| && SeparatedTo(s, r, n)
    ensures Survives(s, r, i)
  {
    forall j | 0 <= j < i ensures !r(s[j], s[i]) {}
  }

  lemma SeparatedStep<T>(s: seq<T>, r: (T, T) -> bool, n: nat)
    requires n < |s|
    ensures SeparatedTo(s, r, n + 1) <==> SeparatedTo(s, r, n) && Survives(s, r, n)
  {
    if SeparatedTo(s, r, n + 1) {
      SeparatedSurvive(s, r, n + 1, n);
    }
    if SeparatedTo(s, r, n) && Survives(s, r, n) {
      forall i | 0 <= i < n ensures !r(s[i], s[n]) {
        SeparatedSurvive(s, r, n, i);
      }
    }
  }

  lemma {:induction false} SurvivorsWhole<T>(s: seq<T>, r: (T, T) -> bool, n: nat)
    requires n <= |s|
    ensures Survivors(s, r, n) == s[..n] <==> SeparatedTo(s, r, n)
  {
    if n > 0 {
      SurvivorsWhole(s, r, n - 1);
      SurvivorsLength(s, r, n - 1);
      SeparatedStep(s, r, n - 1);
      SplitLast(s, n, Survivors(s, r, n - 1));
    }
  }

  lemma SplitLast<T>(s: seq<T>, n: nat, front: seq<T>)
    requires 0 < n <= |s| && |front| < n
    ensures front + [s[n - 1]] == s[..n] <==> front == s[..n - 1]
    ensures front != s[..n]
  {
    assert s[..n] == s[..n - 1] + [s[n - 1]];
    if front + [s[n - 1]] == s[..n] {
      assert front == s[..n][..n - 1] == s[..n - 1];
    }
  }

  /** Nothing is dropped from a separated list, and only from one that is not. */
  lemma SeparatedKept<T>(s: seq<T>, r: (T, T) -> bool, n: nat)
    requires n <= |s|
    ensures Survivors(s, r, n) == s[..n] <==> Separated(s[..n], r)
  {
    SurvivorsWhole(s, r, n);
    SeparatedPrefix(s, r, n);
  }

  /** The survivors as a bitmap. */
  lemma SurvivorBits<T>(s: seq<T>, r: (T, T) -> bool) returns (keep: seq<bool>)
    ensures |keep| == |s| && forall i :: 0 <= i < |s| ==> keep[i] == Survives(s, r, i)
  {
    keep := seq(|s|, i requires 0 <= i < |s| => Survives(s, r, i));
  }

  lemma OneMore<T>(a: seq<T>, b: seq<T>, x: T)
    requires multiset(a) <= multiset(b)
    ensures multiset(a + [x]) <= multiset(b + [x]) && multiset(a) <= multiset(b + [x])
  {}

  lemma {:induction false} PickMultiset<T>(s: seq<T>, keep: seq<bool>)
    requires |keep| == |s|
    ensures multiset(Pick(s, keep)) <= multiset(s)
  {
    if s != [] {
      var front := s[..|s| - 1];
      PickMultiset(front, keep[..|s| - 1]);
      OneMore(Pick(front, keep[..|s| - 1]), front, s[|s| - 1]);
      assert s == front + [s[|s| - 1]];
    }
  }

  lemma SurvivorsMultiset<T>(s: seq<T>, r: (T, T) -> bool, n: nat)
    requires n <= |s|
    ensures multiset(Survivors(s, r, n)) <= multiset(s[..n])
  {
    var keep := SurvivorBits(s, r);
    PickSurvivors(s, r, keep, n);
    PickMultiset(s[..n], keep[..n]);
  }

  /** A map that preserves the relation carries selections to selections. */
  lemma {:induction false} SurvivesMapped<T, U>(s: seq<T>, r: (T, T) -> bool, m: seq<U>, q: (U, U) -> bool, i: nat)
    requires |m| == |s| && i < |s|
    requires forall a, b :: 0 <= a < b < |s| ==> q(m[a], m[b]) == r(s[a], s[b])
    ensures Survives(m, q, i) == Survives(s, r, i)
  {
    forall j | 0 <= j < i ensures Survives(m, q, j) == Survives(s, r, j) {
      SurvivesMapped(s, r, m, q, j);
    }
  }

  function Mapped<T, U>(s: seq<T>, f: T -> U): seq<U> {
    seq(|s|, i requires 0 <= i < |s| => f(s[i]))
  }

  lemma MappedConcat<T, U>(a: seq<T>, b: seq<T>, f: T -> U)
    ensures Mapped(a + b, f) == Mapped(a, f) + Mapped(b, f)
  {}

  lemma {:induction false} PickMapped<T, U>(s: seq<T>, keep: seq<bool>, f: T -> U)
    requires |keep| == |s|
    ensures Pick(Mapped(s, f), keep) == Mapped(Pick(s, keep), f)
  {
    if s != [] {
      var front, last := s[..|s| - 1], if keep[|s| - 1] then [s[|s| - 1]] else [];
      PickMapped(front, keep[..|s| - 1], f);
      assert Mapped(s, f)[..|s| - 1] == Mapped(front, f);
      MappedConcat(Pick(front, keep[..|s| - 1]), last, f);
    }
  }

  lemma SurvivorsMapped<T, U>(s: seq<T>, r: (T, T) -> bool, q: (U, U) -> bool, f: T -> U, n: nat)
    requires n <= |s|
    requires forall a, b :: 0 <= a < b < |s| ==> q(f(s[a]), f(s[b])) == r(s[a], s[b])
    ensures Survivors(Mapped(s, f), q, n) == Mapped(Survivors(s, r, n), f)
  {
    var keep := SurvivorBits(s, r);
    var m := Mapped(s, f);
    forall i | 0 <= i < |s| ensures keep[i] == Survives(m, q, i) {
      SurvivesMapped(s, r, m, q, i);
    }
    PickSurvivors(s, r, keep, n);
    PickSurvivors(m, q, keep, n);
    PickMapped(s[..n], keep[..n], f);
    assert m[..n] == Mapped(s[..n], f);
  }

  function Without<T>(s: seq<T>, i: nat): seq<T>
    requires i < |s|
  {
    s[..i] + s[i + 1..]
  }

  lemma WithoutMultiset<T>(s: seq<T>, i: nat)
    requires i < |s|
    ensures multiset(Without(s, i)) == multiset(s) - multiset{s[i]}
    ensures multiset(s) == multiset(Without(s, i)) + multiset{s[i]}
  {
    assert s == s[..i] + ([s[i]] + s[i + 1..]);
    assert multiset(s) == multiset(s[..i]) + (multiset{s[i]} + multiset(s[i + 1..]));
    assert multiset(Without(s, i)) == multiset(s[..i]) + multiset(s[i + 1..]);
  }

  lemma MappedWithout<T, U>(s: seq<T>, f: T -> U, i: nat)
    requires i < |s|
    ensures multiset(Mapped(s, f)) == multiset(Mapped(Without(s, i), f)) + multiset{f(s[i])}
  {
    WithoutMultiset(Mapped(s, f), i);
    assert Without(Mapped(s, f), i) == Mapped(Without(s, i), f);
  }

  lemma {:induction false} MappedMultiset<T, U>(a: seq<T>, b: seq<T>, f: T -> U)
    requires multiset(a) == multiset(b)
    ensures multiset(Mapped(a, f)) == multiset(Mapped(b, f))
  {
    if a == [] {
      assert |multiset(b)| == 0;
    } else {
      assert a[0] in multiset(b);
      var i :| 0 <= i < |b| && b[i] == a[0];
      WithoutMultiset(a, 0);
      WithoutMultiset(b, i);
      MappedMultiset(Without(a, 0), Without(b, i), f);
      MappedWithout(a, f, 0);
      MappedWithout(b, f, i);
    }
  }

  /** One entry against the rest of a separated list. */
  lemma SeparatedWithout<T(!new)>(s: seq<T>, r: (T, T) -> bool, i: nat)
    requires i < |s| && Separated(s, r)
    requires forall x, y :: r(x, y) == r(y, x)
    ensures Separated(Without(s, i), r)
    ensures forall y :: y in Without(s, i) ==> !r(s[i], y)
  {
    var rest := Without(s, i);
    assert forall k :: 0 <= k < |rest| ==> rest[k] == s[if k < i then k else k + 1];
  }

  lemma SeparatedCons<T>(s: seq<T>, r: (T, T) -> bool)
    requires s != [] && Separated(s[1..], r)
    requires forall y :: y in s[1..] ==> !r(s[0], y)
    ensures Separated(s, r)
  {
    forall i, j | 0 <= i < j < |s| ensures !r(s[i], s[j]) {
      assert s[j] == s[1..][j - 1];
      if i > 0 { assert s[i] == s[1..][i - 1]; }
    }
  }

  lemma TailMultiset<T>(s: seq<T>)
    requires s != []
    ensures multiset(s[1..]) == multiset(s) - multiset{s[0]}
  {
    WithoutMultiset(s, 0);
    assert Without(s, 0) == s[1..];
  }

  /** Separation by a symmetric relation does not depend on the order. */
  lemma {:induction false} SeparatedPermuted<T(!new)>(a: seq<T>, b: seq<T>, r: (T, T) -> bool)
    requires multiset(a) == multiset(b) && Separated(a, r)
    requires forall x, y :: r(x, y) == r(y, x)
    ensures Separated(b, r)
  {
    if b != [] {
      assert b[0] in multiset(a);
      var i :| 0 <= i < |a| && a[i] == b[0];
      WithoutMultiset(a, i);
      TailMultiset(b);
      SeparatedWithout(a, r, i);
      SeparatedPermuted(Without(a, i), b[1..], r);
      forall y | y in b[1..] ensures !r(b[0], y) {
        assert y in multiset(b[1..]) && y in multiset(Without(a, i));
      }
      SeparatedCons(b, r);
    }
  }
}
