/** generateSubsets: the backtracking enumeration of all k-element combinations
    of an array, kept in index order. */
module Combinations {

  /** The binomial coefficient, by Pascal's rule. */
  function Binom(n: nat, k: nat): nat
  {
    if k == 0 then 1
    else if n == 0 then 0
    else Binom(n - 1, k - 1) + Binom(n - 1, k)
  }

  lemma {:induction false} BinomBelow(n: nat, k: nat)
    requires n < k
    ensures Binom(n, k) == 0
  {
    if n > 0 {
      BinomBelow(n - 1, k - 1);
      BinomBelow(n - 1, k);
    }
  }

  lemma EightChooseThree()
    ensures Binom(8, 3) == 56
  {
  }

  /** What one call generateSubsets(arr, k, start, cur, result) appends to result. */
  function Combos<T>(arr: seq<T>, k: nat, start: nat, cur: seq<T>): seq<seq<T>>
    requires start <= |arr|
    decreases |arr| - start, 1
  {
    if |cur| == k then [cur] else CombosFrom(arr, k, start, cur)
  }

  /** What the loop of that call appends from scan position i on. */
  function CombosFrom<T>(arr: seq<T>, k: nat, i: nat, cur: seq<T>): seq<seq<T>>
    requires i <= |arr|
    decreases |arr| - i, 0
  {
    if i == |arr| then []
    else Combos(arr, k, i + 1, cur + [arr[i]]) + CombosFrom(arr, k, i + 1, cur)
  }

  /** The generator's shared state: the partial subset it pushes to and pops
      from, and the result array it appends copies to. */
  class SubsetGenerator<T> {
    var current: seq<T>
    var result: seq<seq<T>>

    constructor ()
      ensures current == [] && result == []
    {
      current := [];
      result := [];
    }

    method Generate(arr: seq<T>, k: nat, start: nat)
      requires start <= |arr|
      modifies this
      ensures current == old(current)
      ensures result == old(result) + Combos(arr, k, start, old(current))
      decreases |arr| - start
    {
      if |current| == k {
        result := result + [current];
        return;
      }
      var i := start;
      while i < |arr|
        invariant start <= i <= |arr|
        invariant current == old(current)
        invariant result + CombosFrom(arr, k, i, current)
                  == old(result) + CombosFrom(arr, k, start, current)
        decreases |arr| - i
      {
        ghost var before := result;
        current := current + [arr[i]];
        Generate(arr, k, i + 1);
        current := current[..|current| - 1];
        assert current == old(current);
        assert result + CombosFrom(arr, k, i + 1, current)
               == before + CombosFrom(arr, k, i, current);
        i := i + 1;
      }
    }
  }

  // ---- Counting and shape, for any input array ----

  lemma {:induction false} CombosCount<T>(arr: seq<T>, k: nat, start: nat, cur: seq<T>)
    requires start <= |arr| && |cur| <= k
    ensures |Combos(arr, k, start, cur)| == Binom(|arr| - start, k - |cur|)
    decreases |arr| - start, 1
  {
    if |cur| != k {
      CombosFromCount(arr, k, start, cur);
    }
  }

  lemma {:induction false} CombosFromCount<T>(arr: seq<T>, k: nat, i: nat, cur: seq<T>)
    requires i <= |arr| && |cur| < k
    ensures |CombosFrom(arr, k, i, cur)| == Binom(|arr| - i, k - |cur|)
    decreases |arr| - i, 0
  {
    if i < |arr| {
      CombosCount(arr, k, i + 1, cur + [arr[i]]);
      CombosFromCount(arr, k, i + 1, cur);
    }
  }

  // ---- Index selections ----

  function Range(n: nat): (r: seq<nat>)
    ensures |r| == n && forall i :: 0 <= i < n ==> r[i] == i
  {
    seq(n, i => i)
  }

  predicate Increasing(d: seq<nat>)
  {
    forall a, b :: 0 <= a < b < |d| ==> d[a] < d[b]
  }

  predicate Within(d: seq<nat>, lo: nat, hi: nat)
  {
    forall j :: 0 <= j < |d| ==> lo <= d[j] < hi
  }

  /** The elements of arr at the positions idx, in that order. */
  function Pick<T>(arr: seq<T>, idx: seq<nat>): (r: seq<T>)
    requires Within(idx, 0, |arr|)
    ensures |r| == |idx|
  {
    seq(|idx|, j requires 0 <= j < |idx| => arr[idx[j]])
  }

  /** A holds, position by position, the picks from arr of the index lists in B. */
  ghost predicate Corresponds<T>(arr: seq<T>, A: seq<seq<T>>, B: seq<seq<nat>>)
  {
    |A| == |B| &&
    forall p :: 0 <= p < |B| ==> Within(B[p], 0, |arr|) && A[p] == Pick(arr, B[p])
  }

  lemma CorrespondsConcat<T>(arr: seq<T>, A1: seq<seq<T>>, B1: seq<seq<nat>>, A2: seq<seq<T>>, B2: seq<seq<nat>>)
    requires Corresponds(arr, A1, B1) && Corresponds(arr, A2, B2)
    ensures Corresponds(arr, A1 + A2, B1 + B2)
  {
    forall p | 0 <= p < |B1 + B2|
      ensures Within((B1 + B2)[p], 0, |arr|) && (A1 + A2)[p] == Pick(arr, (B1 + B2)[p])
    {
      if p < |B1| {
        assert (A1 + A2)[p] == A1[p] && (B1 + B2)[p] == B1[p];
      } else {
        assert (A1 + A2)[p] == A2[p - |A1|] && (B1 + B2)[p] == B2[p - |B1|];
      }
    }
  }

  lemma PickSnoc<T>(arr: seq<T>, idx: seq<nat>, i: nat)
    requires Within(idx, 0, |arr|) && i < |arr|
    ensures Within(idx + [i], 0, |arr|)
    ensures Pick(arr, idx + [i]) == Pick(arr, idx) + [arr[i]]
  {
  }

  /** Running the generator on arr picks the same positions as running it on
      the positions 0 .. |arr|-1 themselves. */
  lemma {:induction false} CombosPick<T>(arr: seq<T>, k: nat, start: nat, ci: seq<nat>)
    requires start <= |arr| && Within(ci, 0, |arr|)
    ensures Corresponds(arr, Combos(arr, k, start, Pick(arr, ci)), Combos(Range(|arr|), k, start, ci))
    decreases |arr| - start, 1
  {
    if |ci| != k {
      CombosFromPick(arr, k, start, ci);
    }
  }

  lemma {:induction false} CombosFromPick<T>(arr: seq<T>, k: nat, i: nat, ci: seq<nat>)
    requires i <= |arr| && Within(ci, 0, |arr|)
    ensures Corresponds(arr, CombosFrom(arr, k, i, Pick(arr, ci)), CombosFrom(Range(|arr|), k, i, ci))
    decreases |arr| - i, 0
  {
    if i < |arr| {
      var rng := Range(|arr|);
      PickSnoc(arr, ci, i);
      assert rng[i] == i;
      CombosPick(arr, k, i + 1, ci + [i]);
      CombosFromPick(arr, k, i + 1, ci);
      CorrespondsConcat(arr,
        Combos(arr, k, i + 1, Pick(arr, ci) + [arr[i]]), Combos(rng, k, i + 1, ci + [rng[i]]),
        CombosFrom(arr, k, i + 1, Pick(arr, ci)), CombosFrom(rng, k, i + 1, ci));
    }
  }

  /** Every index list the generator produces on 0 .. n-1 extends cur by a
      strictly increasing run of positions in [start, n). */
  lemma {:induction false} IndexCombosShape(n: nat, k: nat, start: nat, cur: seq<nat>)
    requires start <= n && |cur| <= k
    ensures forall c :: c in Combos(Range(n), k, start, cur) ==>
      |c| == k && c[..|cur|] == cur && Increasing(c[|cur|..]) && Within(c[|cur|..], start, n)
    decreases n - start, 1
  {
    if |cur| != k {
      IndexCombosFromShape(n, k, start, cur);
    }
  }

  lemma {:induction false} IndexCombosFromShape(n: nat, k: nat, i: nat, cur: seq<nat>)
    requires i <= n && |cur| < k
    ensures forall c :: c in CombosFrom(Range(n), k, i, cur) ==>
      |c| == k && c[..|cur|] == cur && Increasing(c[|cur|..]) && Within(c[|cur|..], i, n)
    decreases n - i, 0
  {
    if i < n {
      var rng := Range(n);
      assert rng[i] == i;
      var ext := cur + [i];
      IndexCombosShape(n, k, i + 1, ext);
      IndexCombosFromShape(n, k, i + 1, cur);
      forall c | c in Combos(rng, k, i + 1, ext)
        ensures |c| == k && c[..|cur|] == cur && Increasing(c[|cur|..]) && Within(c[|cur|..], i, n)
      {
        assert c[..|ext|] == ext;
        assert c[..|cur|] == c[..|ext|][..|cur|];
        var tail := c[|ext|..];
        assert c[|cur|..] == [i] + tail;
        assert Within(tail, i + 1, n);
      }
    }
  }

  // ---- Lexicographic order of index lists ----

  predicate LexLess(a: seq<nat>, b: seq<nat>)
    decreases |a|
  {
    |a| > 0 && |b| > 0 && (a[0] < b[0] || (a[0] == b[0] && LexLess(a[1..], b[1..])))
  }

  lemma {:induction false} LexLessIrreflexive(a: seq<nat>)
    ensures !LexLess(a, a)
    decreases |a|
  {
    if |a| > 0 {
      LexLessIrreflexive(a[1..]);
    }
  }

  lemma {:induction false} LexLessPrefix(cur: seq<nat>, x: seq<nat>, y: seq<nat>)
    requires LexLess(x, y)
    ensures LexLess(cur + x, cur + y)
    decreases |cur|
  {
    if cur == [] {
      assert cur + x == x && cur + y == y;
    } else {
      assert (cur + x)[1..] == cur[1..] + x;
      assert (cur + y)[1..] == cur[1..] + y;
      LexLessPrefix(cur[1..], x, y);
    }
  }

  predicate Sorted(L: seq<seq<nat>>)
  {
    forall p, q :: 0 <= p < q < |L| ==> LexLess(L[p], L[q])
  }

  lemma SortedConcat(A: seq<seq<nat>>, B: seq<seq<nat>>)
    requires Sorted(A) && Sorted(B)
    requires forall a, b :: a in A && b in B ==> LexLess(a, b)
    ensures Sorted(A + B)
  {
    forall p, q | 0 <= p < q < |A + B| ensures LexLess((A + B)[p], (A + B)[q]) {
      if q < |A| {
        assert (A + B)[p] == A[p] && (A + B)[q] == A[q];
      } else if p >= |A| {
        assert (A + B)[p] == B[p - |A|] && (A + B)[q] == B[q - |A|];
      } else {
        assert (A + B)[p] in A && (A + B)[q] in B;
      }
    }
  }

  lemma {:induction false} IndexCombosSorted(n: nat, k: nat, start: nat, cur: seq<nat>)
    requires start <= n && |cur| <= k
    ensures Sorted(Combos(Range(n), k, start, cur))
    decreases n - start, 1
  {
    if |cur| != k {
      IndexCombosFromSorted(n, k, start, cur);
    }
  }

  lemma {:induction false} IndexCombosFromSorted(n: nat, k: nat, i: nat, cur: seq<nat>)
    requires i <= n && |cur| < k
    ensures Sorted(CombosFrom(Range(n), k, i, cur))
    decreases n - i, 0
  {
    if i < n {
      var rng := Range(n);
      assert rng[i] == i;
      var ext := cur + [i];
      var A := Combos(rng, k, i + 1, ext);
      var B := CombosFrom(rng, k, i + 1, cur);
      IndexCombosSorted(n, k, i + 1, ext);
      IndexCombosFromSorted(n, k, i + 1, cur);
      IndexCombosShape(n, k, i + 1, ext);
      IndexCombosFromShape(n, k, i + 1, cur);
      forall a, b | a in A && b in B ensures LexLess(a, b) {
        assert a[..|ext|] == ext;
        assert a[|cur|] == ext[|cur|] == i;
        var ta, tb := a[|cur|..], b[|cur|..];
        assert a[..|cur|] == a[..|ext|][..|cur|];
        assert a == cur + ta && b == cur + tb;
        assert tb[0] >= i + 1;
        assert LexLess(ta, tb);
        LexLessPrefix(cur, ta, tb);
      }
      SortedConcat(A, B);
    }
  }

  lemma {:induction false} IndexCombosComplete(n: nat, k: nat, start: nat, cur: seq<nat>, d: seq<nat>)
    requires start <= n && |cur| + |d| == k && Increasing(d) && Within(d, start, n)
    ensures cur + d in Combos(Range(n), k, start, cur)
    decreases n - start, 1
  {
    if |d| == 0 {
      assert cur + d == cur;
    } else {
      IndexCombosFromComplete(n, k, start, cur, d);
    }
  }

  lemma {:induction false} IndexCombosFromComplete(n: nat, k: nat, i: nat, cur: seq<nat>, d: seq<nat>)
    requires i <= n && |d| > 0 && |cur| + |d| == k && Increasing(d) && Within(d, i, n)
    ensures cur + d in CombosFrom(Range(n), k, i, cur)
    decreases n - i, 0
  {
    var rng := Range(n);
    assert i < n;
    assert rng[i] == i;
    if d[0] == i {
      var rest := d[1..];
      assert Within(rest, i + 1, n) by {
        forall j | 0 <= j < |rest| ensures i + 1 <= rest[j] < n {
          assert rest[j] == d[j + 1];
        }
      }
      IndexCombosComplete(n, k, i + 1, cur + [i], rest);
      assert (cur + [i]) + rest == cur + d;
    } else {
      IndexCombosFromComplete(n, k, i + 1, cur, d);
    }
  }

  // ---- What generateSubsets(arr, k, 0, [], result) appends ----

  /** It appends C(|arr|, k) combinations, hence none when |arr| < k. */
  lemma SubsetsCount<T>(arr: seq<T>, k: nat)
    ensures |Combos(arr, k, 0, [])| == Binom(|arr|, k)
    ensures |arr| < k ==> Combos(arr, k, 0, []) == []
  {
    CombosCount(arr, k, 0, []);
    if |arr| < k {
      BinomBelow(|arr|, k);
    }
  }

  lemma PickEmpty<T>(arr: seq<T>)
    ensures Within([], 0, |arr|) && Pick(arr, []) == []
  {
  }

  /** The i-th combination is arr picked at the i-th index list of the run on
      positions 0 .. |arr|-1, and that index list is strictly increasing, of length k. */
  lemma SubsetsAreIndexSelections<T>(arr: seq<T>, k: nat)
    ensures Corresponds(arr, Combos(arr, k, 0, []), Combos(Range(|arr|), k, 0, []))
    ensures forall c :: c in Combos(Range(|arr|), k, 0, []) ==> |c| == k && Increasing(c) && Within(c, 0, |arr|)
  {
    PickEmpty(arr);
    CombosPick(arr, k, 0, []);
    IndexCombosShape(|arr|, k, 0, []);
    forall c | c in Combos(Range(|arr|), k, 0, [])
      ensures |c| == k && Increasing(c) && Within(c, 0, |arr|)
    {
      assert c[0..] == c;
    }
  }

  /** The index lists come in strictly increasing lexicographic order, so no
      combination of positions is produced twice. */
  lemma SubsetsInLexOrder(n: nat, k: nat)
    ensures Sorted(Combos(Range(n), k, 0, []))
    ensures forall p, q :: 0 <= p < q < |Combos(Range(n), k, 0, [])| ==>
      Combos(Range(n), k, 0, [])[p] != Combos(Range(n), k, 0, [])[q]
  {
    var L := Combos(Range(n), k, 0, []);
    IndexCombosSorted(n, k, 0, []);
    forall p, q | 0 <= p < q < |L| ensures L[p] != L[q] {
      LexLessIrreflexive(L[p]);
    }
  }

  /** Every strictly increasing list of k positions below n is produced. */
  lemma SubsetsComplete(n: nat, k: nat, idx: seq<nat>)
    requires |idx| == k && Increasing(idx) && Within(idx, 0, n)
    ensures idx in Combos(Range(n), k, 0, [])
  {
    IndexCombosComplete(n, k, 0, [], idx);
    assert [] + idx == idx;
  }

  /** Hence every element of every combination comes from arr. */
  lemma SubsetsDrawFrom<T>(arr: seq<T>, k: nat, c: seq<T>)
    requires c in Combos(arr, k, 0, [])
    ensures |c| == k
    ensures forall j :: 0 <= j < |c| ==> c[j] in arr
  {
    SubsetsAreIndexSelections(arr, k);
    var R, L := Combos(arr, k, 0, []), Combos(Range(|arr|), k, 0, []);
    var p :| 0 <= p < |R| && R[p] == c;
    assert L[p] in L;
    assert c == Pick(arr, L[p]);
  }
}
