/**
 * Greedy single-pass colour clustering (`clusterColors` in
 * src/utils/imageProcessor.ts). The first colour seeds the cluster list;
 * every colour of the input, the first included, is compared with the
 * representatives found so far and becomes a new representative only when
 * none of them is closer than the threshold. Representatives are never
 * averaged.
 */
module Clustering {
  import opened Colors

  /** `a` is obtained from `b` by deleting elements, keeping their order. */
  ghost predicate IsSubsequence<T>(a: seq<T>, b: seq<T>)
    decreases |b|
  {
    a == [] ||
    (b != [] &&
     ((a[|a| - 1] == b[|b| - 1] && IsSubsequence(a[..|a| - 1], b[..|b| - 1])) ||
      IsSubsequence(a, b[..|b| - 1])))
  }

  /** Any two representatives are at least `t` apart. */
  ghost predicate Separated(reps: seq<Color>, t: int)
  {
    forall i, j :: 0 <= i < j < |reps| ==> Dist(reps[i], reps[j]) >= t
  }

  /** The outer loop of the clustering, from representatives `reps` over the colours still to visit. */
  ghost function Greedy(reps: seq<Color>, rest: seq<Color>, t: int): seq<Color>
    decreases |rest|
  {
    if rest == [] then reps
    else Greedy(if Near(rest[0], reps, t) then reps else reps + [rest[0]], rest[1..], t)
  }

  /** What `clusterColors(colors, t)` returns. */
  ghost function Cluster(colors: seq<Color>, t: int): seq<Color>
  {
    if colors == [] then [] else Greedy([colors[0]], colors, t)
  }

  /** The clustering loop as the source writes it. */
  method ClusterColors(colors: seq<Color>, threshold: int) returns (clusters: seq<Color>)
    ensures clusters == Cluster(colors, threshold)
  {
    if |colors| == 0 {
      return [];
    }
    clusters := [colors[0]];
    for i := 0 to |colors|
      invariant Greedy(clusters, colors[i..], threshold) == Cluster(colors, threshold)
    {
      var color := colors[i];
      assert colors[i..][1..] == colors[i + 1..];
      var foundCluster := MatchesAny(color, clusters, threshold);
      if !foundCluster {
        clusters := clusters + [color];
      }
    }
    assert colors[|colors|..] == [];
  }

  // ---------------------------------------------------------------------
  // Facts about one run of the greedy loop

  lemma {:induction false} GreedyExtends(reps: seq<Color>, rest: seq<Color>, t: int)
    ensures reps <= Greedy(reps, rest, t)
    decreases |rest|
  {
    if rest != [] {
      var next := if Near(rest[0], reps, t) then reps else reps + [rest[0]];
      GreedyExtends(next, rest[1..], t);
    }
  }

  lemma {:induction false} GreedyMembers(reps: seq<Color>, rest: seq<Color>, t: int)
    ensures forall k :: 0 <= k < |Greedy(reps, rest, t)| ==> Greedy(reps, rest, t)[k] in reps || Greedy(reps, rest, t)[k] in rest
    decreases |rest|
  {
    if rest != [] {
      var next := if Near(rest[0], reps, t) then reps else reps + [rest[0]];
      GreedyMembers(next, rest[1..], t);
      forall c | c in next ensures c in reps || c in rest {
        if c !in reps {
          assert c == rest[0];
        }
      }
      forall c | c in rest[1..] ensures c in rest {
        var i :| 0 <= i < |rest[1..]| && rest[1..][i] == c;
        assert rest[i + 1] == c;
      }
    }
  }

  lemma {:induction false} GreedySubsequence(reps: seq<Color>, pre: seq<Color>, rest: seq<Color>, t: int)
    requires IsSubsequence(reps, pre)
    ensures IsSubsequence(Greedy(reps, rest, t), pre + rest)
    decreases |rest|
  {
    if rest == [] {
      assert pre + rest == pre;
    } else {
      var x := rest[0];
      var pre' := pre + [x];
      assert pre'[..|pre'| - 1] == pre;
      if Near(x, reps, t) {
        assert IsSubsequence(reps, pre');
        GreedySubsequence(reps, pre', rest[1..], t);
      } else {
        var reps' := reps + [x];
        assert reps'[..|reps'| - 1] == reps;
        assert IsSubsequence(reps', pre');
        GreedySubsequence(reps', pre', rest[1..], t);
      }
      assert pre' + rest[1..] == pre + rest;
    }
  }

  lemma {:induction false} SubsequenceLength<T>(a: seq<T>, b: seq<T>)
    requires IsSubsequence(a, b)
    ensures |a| <= |b|
    decreases |b|
  {
    if a != [] {
      if a[|a| - 1] == b[|b| - 1] && IsSubsequence(a[..|a| - 1], b[..|b| - 1]) {
        SubsequenceLength(a[..|a| - 1], b[..|b| - 1]);
      } else {
        SubsequenceLength(a, b[..|b| - 1]);
      }
    }
  }

  lemma {:induction false} GreedyCovers(reps: seq<Color>, seen: seq<Color>, rest: seq<Color>, t: int)
    requires t > 0
    requires forall c :: c in seen ==> Near(c, reps, t)
    ensures forall c :: c in seen + rest ==> Near(c, Greedy(reps, rest, t), t)
    decreases |rest|
  {
    if rest == [] {
      assert seen + rest == seen;
    } else {
      var x := rest[0];
      var next := if Near(x, reps, t) then reps else reps + [x];
      forall c | c in seen + [x] ensures Near(c, next, t) {
        if c in seen {
          NearExtend(c, reps, next[|reps|..], t);
          assert reps + next[|reps|..] == next;
        } else {
          if !Near(x, reps, t) {
            assert next[|reps|] == x;
          }
        }
      }
      GreedyCovers(next, seen + [x], rest[1..], t);
      assert seen + [x] + rest[1..] == seen + rest;
    }
  }

  lemma {:induction false} GreedySeparated(reps: seq<Color>, rest: seq<Color>, t: int)
    requires Separated(reps, t)
    ensures Separated(Greedy(reps, rest, t), t)
    decreases |rest|
  {
    if rest != [] {
      var x := rest[0];
      if Near(x, reps, t) {
        GreedySeparated(reps, rest[1..], t);
      } else {
        var next := reps + [x];
        forall i, j | 0 <= i < j < |next| ensures Dist(next[i], next[j]) >= t {
          if j == |reps| {
            DistSymmetric(reps[i], x);
          }
        }
        GreedySeparated(next, rest[1..], t);
      }
    }
  }

  lemma {:induction false} GreedyNonPositive(reps: seq<Color>, rest: seq<Color>, t: int)
    requires t <= 0
    ensures Greedy(reps, rest, t) == reps + rest
    decreases |rest|
  {
    if rest != [] {
      GreedyNonPositive(reps + [rest[0]], rest[1..], t);
      assert reps + [rest[0]] + rest[1..] == reps + rest;
    }
  }

  lemma {:induction false} GreedyAppend(reps: seq<Color>, rest: seq<Color>, x: Color, t: int)
    ensures Greedy(reps, rest + [x], t) == Greedy(Greedy(reps, rest, t), [x], t)
    decreases |rest|
  {
    if rest == [] {
      assert rest + [x] == [x];
    } else {
      var next := if Near(rest[0], reps, t) then reps else reps + [rest[0]];
      assert (rest + [x])[0] == rest[0];
      assert (rest + [x])[1..] == rest[1..] + [x];
      GreedyAppend(next, rest[1..], x, t);
    }
  }

  // ---------------------------------------------------------------------
  // What clusterColors promises

  /** Empty input gives no clusters; otherwise the first colour is the first representative. */
  lemma ClusterStartsWithFirst(colors: seq<Color>, t: int)
    ensures colors == [] ==> Cluster(colors, t) == []
    ensures colors != [] ==> |Cluster(colors, t)| >= 1 && Cluster(colors, t)[0] == colors[0]
  {
    if colors != [] {
      GreedyExtends([colors[0]], colors, t);
    }
  }

  /** Representatives are input colours, never averages of them. */
  lemma ClusterPicksInputColors(colors: seq<Color>, t: int)
    ensures forall k :: 0 <= k < |Cluster(colors, t)| ==> Cluster(colors, t)[k] in colors
  {
    if colors != [] {
      GreedyMembers([colors[0]], colors, t);
    }
  }

  /** With a positive threshold the representatives are a subsequence of the input, in input order. */
  lemma ClusterIsSubsequence(colors: seq<Color>, t: int)
    requires t > 0
    ensures IsSubsequence(Cluster(colors, t), colors)
    ensures |Cluster(colors, t)| <= |colors|
  {
    if colors != [] {
      var c0 := colors[0];
      assert Dist(c0, [c0][0]) < t;
      assert Greedy([c0], colors, t) == Greedy([c0], colors[1..], t);
      assert IsSubsequence([c0][..0], [c0][..0]);
      assert IsSubsequence([c0], [c0]);
      GreedySubsequence([c0], [c0], colors[1..], t);
      assert [c0] + colors[1..] == colors;
    }
    SubsequenceLength(Cluster(colors, t), colors);
  }

  /** With a positive threshold every input colour lies closer than `t` to some representative. */
  lemma ClusterCoversInput(colors: seq<Color>, t: int)
    requires t > 0
    ensures forall c :: c in colors ==> Near(c, Cluster(colors, t), t)
  {
    if colors != [] {
      GreedyCovers([colors[0]], [], colors, t);
      assert [] + colors == colors;
    }
  }

  /** Any two representatives are at distance at least `t`. */
  lemma ClusterSeparated(colors: seq<Color>, t: int)
    ensures forall i, j :: 0 <= i < j < |Cluster(colors, t)| ==> Dist(Cluster(colors, t)[i], Cluster(colors, t)[j]) >= t
  {
    if colors != [] {
      GreedySeparated([colors[0]], colors, t);
    }
  }

  /** With a threshold of zero or less nothing is ever absorbed, and the first colour appears twice. */
  lemma ClusterNonPositiveThreshold(colors: seq<Color>, t: int)
    requires t <= 0 && colors != []
    ensures Cluster(colors, t) == [colors[0]] + colors
  {
    GreedyNonPositive([colors[0]], colors, t);
  }

  /** Appending a colour that an existing representative absorbs leaves the clusters unchanged. */
  lemma ClusterAbsorbsAppended(colors: seq<Color>, x: Color, t: int)
    requires colors != []
    requires Near(x, Cluster(colors, t), t)
    ensures Cluster(colors + [x], t) == Cluster(colors, t)
  {
    assert (colors + [x])[0] == colors[0];
    GreedyAppend([colors[0]], colors, x, t);
  }
}
