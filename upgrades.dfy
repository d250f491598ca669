/** assignUpgrades: every way of spreading the five upgrade points over the
    stats of one combination, produced by incrementing and decrementing the
    stats' counts in place. */
module Upgrades {
  import opened Stats
  import Combinations

  /** One stat of a combination with the upgrade points it holds so far. In the
      source this is the object `{stat, value}`, whose value starts unset; every
      read of it treats an unset value as 0, so the model starts at 0. */
  datatype SubstatCount = SubstatCount(stat: StatId, count: nat)

  /** The fresh `{stat}` objects the generator builds for a combination. */
  function Wrap(c: seq<StatId>): (s: seq<SubstatCount>)
    ensures |s| == |c|
  {
    seq(|c|, j requires 0 <= j < |c| => SubstatCount(c[j], 0))
  }

  /** The counts after one more point goes to position i. */
  function Bump(s: seq<SubstatCount>, i: nat): seq<SubstatCount>
    requires i < |s|
  {
    s[i := s[i].(count := s[i].count + 1)]
  }

  /** What assignUpgrades(s, result, r, p) appends to result, when s holds the
      counts at the time of the call. */
  function Dists(s: seq<SubstatCount>, r: nat, p: nat): seq<seq<SubstatCount>>
    requires p <= |s|
    decreases r, |s| - p, 1
  {
    if r == 0 then [s] else DistsFrom(s, r, p)
  }

  /** What the loop of that call appends from position i on. */
  function DistsFrom(s: seq<SubstatCount>, r: nat, i: nat): seq<seq<SubstatCount>>
    requires i <= |s| && r > 0
    decreases r, |s| - i, 0
  {
    if i == |s| then []
    else Dists(Bump(s, i), r - 1, i) + DistsFrom(s, r, i + 1)
  }

  class UpgradeAssigner {
    var result: seq<seq<SubstatCount>>

    constructor ()
      ensures result == []
    {
      result := [];
    }

    /** assignUpgrades(subStats, result, remaining, point). */
    method Assign(subStats: array<SubstatCount>, remaining: nat, point: nat)
      requires point <= subStats.Length
      modifies this, subStats
      ensures subStats[..] == old(subStats[..])
      ensures result == old(result) + Dists(old(subStats[..]), remaining, point)
      decreases remaining, subStats.Length - point
    {
      if remaining != 0 {
        var i := point;
        while i < subStats.Length
          invariant point <= i <= subStats.Length
          invariant subStats[..] == old(subStats[..])
          invariant result + DistsFrom(subStats[..], remaining, i)
                    == old(result) + DistsFrom(old(subStats[..]), remaining, point)
          decreases subStats.Length - i
        {
          ghost var s := subStats[..];
          ghost var before := result;
          // an unset value would be set to 0 here; in the model it already is
          subStats[i] := subStats[i].(count := subStats[i].count + 1);
          assert subStats[..] == Bump(s, i);
          Assign(subStats, remaining - 1, i);
          assert subStats[i] == Bump(s, i)[i];
          subStats[i] := subStats[i].(count := subStats[i].count - 1);
          assert subStats[..] == s;
          assert result + DistsFrom(s, remaining, i + 1) == before + DistsFrom(s, remaining, i);
          i := i + 1;
        }
      } else {
        var ret: seq<SubstatCount> := [];
        for j := 0 to subStats.Length
          invariant ret == subStats[..j]
        {
          ret := ret + [SubstatCount(subStats[j].stat, subStats[j].count)];
        }
        assert ret == subStats[..];
        result := result + [ret];
      }
    }
  }

  // ---- Sums of counts ----

  function Sum(s: seq<SubstatCount>): nat
  {
    if s == [] then 0 else s[0].count + Sum(s[1..])
  }

  lemma {:induction false} SumBump(s: seq<SubstatCount>, i: nat)
    requires i < |s|
    ensures Sum(Bump(s, i)) == Sum(s) + 1
  {
    if i > 0 {
      assert Bump(s, i)[1..] == Bump(s[1..], i - 1);
      SumBump(s[1..], i - 1);
    } else {
      assert Bump(s, i)[1..] == s[1..];
    }
  }

  lemma {:induction false} SumZero(s: seq<SubstatCount>)
    requires forall j :: 0 <= j < |s| ==> s[j].count == 0
    ensures Sum(s) == 0
  {
    if s != [] {
      SumZero(s[1..]);
    }
  }

  lemma {:induction false} ElementBelowSum(s: seq<SubstatCount>, j: nat)
    requires j < |s|
    ensures s[j].count <= Sum(s)
  {
    if j > 0 {
      ElementBelowSum(s[1..], j - 1);
    }
  }

  /** Pointwise larger counts have a larger sum, and equal sums force equal counts. */
  lemma {:induction false} SumDominates(e: seq<SubstatCount>, s: seq<SubstatCount>)
    requires |e| == |s|
    requires forall j :: 0 <= j < |s| ==> e[j].count >= s[j].count
    ensures Sum(e) >= Sum(s)
    ensures Sum(e) == Sum(s) ==> forall j :: 0 <= j < |s| ==> e[j].count == s[j].count
  {
    if s != [] {
      SumDominates(e[1..], s[1..]);
      if Sum(e) == Sum(s) {
        forall j | 0 <= j < |s| ensures e[j].count == s[j].count {
          if j > 0 {
            assert e[j] == e[1..][j - 1] && s[j] == s[1..][j - 1];
          }
        }
      }
    }
  }

  // ---- Shape of each distribution ----

  /** e keeps the stats of s in order, never has fewer points anywhere, and
      equals s before position p. */
  ghost predicate Agrees(e: seq<SubstatCount>, s: seq<SubstatCount>, p: nat)
  {
    |e| == |s| &&
    forall j :: 0 <= j < |s| ==>
      e[j].stat == s[j].stat && e[j].count >= s[j].count && (j < p ==> e[j].count == s[j].count)
  }

  lemma {:induction false} DistsShape(s: seq<SubstatCount>, r: nat, p: nat)
    requires p <= |s|
    ensures forall e :: e in Dists(s, r, p) ==> Agrees(e, s, p) && Sum(e) == Sum(s) + r
    decreases r, |s| - p, 1
  {
    if r > 0 {
      DistsFromShape(s, r, p);
    }
  }

  lemma {:induction false} DistsFromShape(s: seq<SubstatCount>, r: nat, i: nat)
    requires i <= |s| && r > 0
    ensures forall e :: e in DistsFrom(s, r, i) ==> Agrees(e, s, i) && Sum(e) == Sum(s) + r
    decreases r, |s| - i, 0
  {
    if i < |s| {
      var b := Bump(s, i);
      DistsShape(b, r - 1, i);
      DistsFromShape(s, r, i + 1);
      SumBump(s, i);
      forall e: seq<SubstatCount> | e in Dists(b, r - 1, i) ensures Agrees(e, s, i) {
        assert Agrees(e, b, i);
        forall j | 0 <= j < |s|
          ensures e[j].stat == s[j].stat && e[j].count >= s[j].count && (j < i ==> e[j].count == s[j].count)
        {
          assert b[j].stat == s[j].stat && b[j].count >= s[j].count;
          assert j < i ==> b[j] == s[j];
        }
      }
    }
  }

  // ---- Each distribution exactly once ----

  ghost predicate Distinct<T>(L: seq<T>)
  {
    forall p, q :: 0 <= p < q < |L| ==> L[p] != L[q]
  }

  lemma DistinctConcat<T>(A: seq<T>, B: seq<T>)
    requires Distinct(A) && Distinct(B)
    requires forall a, b :: a in A && b in B ==> a != b
    ensures Distinct(A + B)
  {
    forall p, q | 0 <= p < q < |A + B| ensures (A + B)[p] != (A + B)[q] {
      if q < |A| {
        assert (A + B)[p] == A[p] && (A + B)[q] == A[q];
      } else if p >= |A| {
        assert (A + B)[p] == B[p - |A|] && (A + B)[q] == B[q - |A|];
      } else {
        assert (A + B)[p] in A && (A + B)[q] in B;
      }
    }
  }

  lemma {:induction false} DistsDistinct(s: seq<SubstatCount>, r: nat, p: nat)
    requires p <= |s|
    ensures Distinct(Dists(s, r, p))
    decreases r, |s| - p, 1
  {
    if r > 0 {
      DistsFromDistinct(s, r, p);
    }
  }

  lemma {:induction false} DistsFromDistinct(s: seq<SubstatCount>, r: nat, i: nat)
    requires i <= |s| && r > 0
    ensures Distinct(DistsFrom(s, r, i))
    decreases r, |s| - i, 0
  {
    if i < |s| {
      var b := Bump(s, i);
      var A, B := Dists(b, r - 1, i), DistsFrom(s, r, i + 1);
      DistsDistinct(b, r - 1, i);
      DistsFromDistinct(s, r, i + 1);
      DistsShape(b, r - 1, i);
      DistsFromShape(s, r, i + 1);
      forall x: seq<SubstatCount>, y: seq<SubstatCount> | x in A && y in B ensures x != y {
        assert x[i].count >= b[i].count == s[i].count + 1;
        assert y[i].count == s[i].count;
      }
      DistinctConcat(A, B);
    }
  }

  lemma {:induction false} DistsComplete(s: seq<SubstatCount>, r: nat, p: nat, e: seq<SubstatCount>)
    requires p <= |s| && Agrees(e, s, p) && Sum(e) == Sum(s) + r
    ensures e in Dists(s, r, p)
    decreases r, |s| - p, 1
  {
    if r == 0 {
      SumDominates(e, s);
      assert forall j :: 0 <= j < |s| ==> e[j] == s[j];
      assert e == s;
    } else {
      DistsFromComplete(s, r, p, e);
    }
  }

  lemma {:induction false} DistsFromComplete(s: seq<SubstatCount>, r: nat, i: nat, e: seq<SubstatCount>)
    requires i <= |s| && r > 0 && Agrees(e, s, i) && Sum(e) == Sum(s) + r
    ensures e in DistsFrom(s, r, i)
    decreases r, |s| - i, 0
  {
    if i == |s| {
      SumDominates(s, e);
      assert false;
    } else if e[i].count > s[i].count {
      var b := Bump(s, i);
      SumBump(s, i);
      assert Agrees(e, b, i);
      DistsComplete(b, r - 1, i, e);
    } else {
      assert Agrees(e, s, i + 1);
      DistsFromComplete(s, r, i + 1, e);
    }
  }

  // ---- How many ----

  /** Multisets of size r drawn from m kinds. */
  function MultiChoose(m: nat, r: nat): nat
  {
    if r == 0 then 1
    else if m == 0 then 0
    else MultiChoose(m, r - 1) + MultiChoose(m - 1, r)
  }

  lemma {:induction false} DistsCount(s: seq<SubstatCount>, r: nat, p: nat)
    requires p <= |s|
    ensures |Dists(s, r, p)| == MultiChoose(|s| - p, r)
    decreases r, |s| - p, 1
  {
    if r > 0 {
      DistsFromCount(s, r, p);
    }
  }

  lemma {:induction false} DistsFromCount(s: seq<SubstatCount>, r: nat, i: nat)
    requires i <= |s| && r > 0
    ensures |DistsFrom(s, r, i)| == MultiChoose(|s| - i, r)
    decreases r, |s| - i, 0
  {
    if i < |s| {
      DistsCount(Bump(s, i), r - 1, i);
      DistsFromCount(s, r, i + 1);
    }
  }

  // ---- What assignUpgrades(combination, result) appends for a fresh combination ----

  /** A distribution of the five points over the stats of c, in c's order. */
  ghost predicate IsDistribution(e: seq<SubstatCount>, c: seq<StatId>)
  {
    |e| == |c| &&
    (forall j :: 0 <= j < |c| ==> e[j].stat == c[j] && e[j].count <= UPGRADE_POINTS) &&
    Sum(e) == UPGRADE_POINTS
  }

  /** Every appended entry is such a distribution, and every such distribution
      is appended, exactly once. */
  lemma DistributionsExactlyOnce(c: seq<StatId>)
    ensures forall e :: e in Dists(Wrap(c), UPGRADE_POINTS, 0) ==> IsDistribution(e, c)
    ensures forall e :: IsDistribution(e, c) ==> e in Dists(Wrap(c), UPGRADE_POINTS, 0)
    ensures Distinct(Dists(Wrap(c), UPGRADE_POINTS, 0))
  {
    var w := Wrap(c);
    SumZero(w);
    DistsShape(w, UPGRADE_POINTS, 0);
    DistsDistinct(w, UPGRADE_POINTS, 0);
    forall e: seq<SubstatCount> | e in Dists(w, UPGRADE_POINTS, 0) ensures IsDistribution(e, c) {
      forall j | 0 <= j < |c| ensures e[j].stat == c[j] && e[j].count <= UPGRADE_POINTS {
        ElementBelowSum(e, j);
      }
    }
    forall e: seq<SubstatCount> | IsDistribution(e, c) ensures e in Dists(w, UPGRADE_POINTS, 0) {
      DistsComplete(w, UPGRADE_POINTS, 0, e);
    }
  }

  lemma {:induction false} MultiChooseBinom(m: nat, r: nat)
    requires m >= 1
    ensures MultiChoose(m, r) == Combinations.Binom(m + r - 1, r)
    decreases m + r
  {
    if r > 0 {
      MultiChooseBinom(m, r - 1);
      if m > 1 {
        MultiChooseBinom(m - 1, r);
      } else {
        Combinations.BinomBelow(r - 1, r);
      }
    }
  }

  /** For a combination of four stats there are C(8,3) = 56 distributions. */
  lemma FiftySixDistributions(c: seq<StatId>)
    requires |c| == SUBSTATS_PER_RELIC
    ensures |Dists(Wrap(c), UPGRADE_POINTS, 0)| == 56 == Combinations.Binom(8, 3)
  {
    DistsCount(Wrap(c), UPGRADE_POINTS, 0);
    FourKindsFivePoints();
    Combinations.EightChooseThree();
  }

  lemma FourKindsFivePoints()
    ensures MultiChoose(4, 5) == 56
  {
  }
}
