/** The train / validation split of data/datamodule.py: `split_training_paths`
    and the default-split branch of `DocumentSeparationModule.__init__`. The
    natural sort and the seeded generator of Python's `random` module are
    explicit inputs. */
module DataModule {
  import opened Wrappers
  import opened Randomness

  /** A path, reduced to what the split looks at: its parent folder (the
      `groupby` key) and the rest of it. */
  datatype Path = Path(parent: string, name: string)

  /** `itertools.chain.from_iterable`: the groups one after the other. */
  function Concat<T>(groups: seq<seq<T>>): (r: seq<T>)
    ensures |groups| == 1 ==> r == groups[0]
  {
    if groups == [] then [] else groups[0] + Concat(groups[1..])
  }

  /** Non-empty groups, each of one parent folder, no two neighbours of the
      same folder: the runs `itertools.groupby` produces. */
  ghost predicate ConsecutiveRuns(groups: seq<seq<Path>>) {
    && (forall k :: 0 <= k < |groups| ==> |groups[k]| > 0)
    && (forall k, m :: 0 <= k < |groups| && 0 <= m < |groups[k]| ==> groups[k][m].parent == groups[k][0].parent)
    && (forall k :: 0 < k < |groups| ==> groups[k][0].parent != groups[k - 1][0].parent)
  }

  /** `[list(group) for _, group in itertools.groupby(paths, key=lambda x: x.parent)]`:
      the maximal runs of consecutive paths with the same parent folder.
      Concatenated they give back the paths, in their order. */
  function GroupByParent(ps: seq<Path>): (groups: seq<seq<Path>>)
    ensures ConsecutiveRuns(groups)
    ensures Concat(groups) == ps
    ensures |groups| <= |ps| && (ps == [] <==> groups == [])
    ensures ps != [] ==> groups[0][0] == ps[0]
  {
    if ps == [] then []
    else
      var rest := GroupByParent(ps[1..]);
      if rest != [] && rest[0][0].parent == ps[0].parent then
        RunsExtend(ps[0], rest);
        [[ps[0]] + rest[0]] + rest[1..]
      else
        RunsPrepend(ps[0], rest);
        [[ps[0]]] + rest
  }

  /** A path of the first run's folder joins the first run. */
  lemma RunsExtend(p: Path, rest: seq<seq<Path>>)
    requires ConsecutiveRuns(rest) && rest != [] && rest[0][0].parent == p.parent
    ensures var groups := [[p] + rest[0]] + rest[1..];
      ConsecutiveRuns(groups) && Concat(groups) == [p] + Concat(rest)
  {
    ExtendedRuns(p, rest);
    ConcatExtend(p, rest);
  }

  lemma ExtendedRuns(p: Path, rest: seq<seq<Path>>)
    requires ConsecutiveRuns(rest) && rest != [] && rest[0][0].parent == p.parent
    ensures ConsecutiveRuns([[p] + rest[0]] + rest[1..])
  {
    var first := [p] + rest[0];
    var groups := [first] + rest[1..];
    forall m | 0 <= m < |first| ensures first[m].parent == p.parent {
      if m > 0 {
        assert first[m] == rest[0][m - 1];
      }
    }
    assert forall k | 0 < k < |groups| :: groups[k] == rest[k];
  }

  lemma ConcatExtend<T>(p: T, rest: seq<seq<T>>)
    requires rest != []
    ensures Concat([[p] + rest[0]] + rest[1..]) == [p] + Concat(rest)
  {
    var groups := [[p] + rest[0]] + rest[1..];
    assert groups[1..] == rest[1..];
  }

  /** A path of another folder than the first run's opens a run of its own. */
  lemma RunsPrepend(p: Path, rest: seq<seq<Path>>)
    requires ConsecutiveRuns(rest) && (rest != [] ==> rest[0][0].parent != p.parent)
    ensures var groups := [[p]] + rest;
      ConsecutiveRuns(groups) && Concat(groups) == [p] + Concat(rest)
  {
    var groups := [[p]] + rest;
    assert groups[1..] == rest;
    forall k, m | 0 <= k < |groups| && 0 <= m < |groups[k]| ensures groups[k][m].parent == groups[k][0].parent {
      if k > 0 {
        assert groups[k] == rest[k - 1];
      }
    }
    forall k | 0 < k < |groups| ensures groups[k][0].parent != groups[k - 1][0].parent {
      assert groups[k] == rest[k - 1];
      if k > 1 {
        assert groups[k - 1] == rest[k - 2];
      }
    }
  }

  /** Python's `int()` on a float: truncation toward zero. */
  function Truncate(x: real): (r: int)
    ensures x >= 0.0 ==> r == x.Floor
    ensures x < 0.0 ==> r == -((-x).Floor)
    ensures r as real <= x < r as real + 1.0 || r as real - 1.0 < x <= r as real
  {
    if x >= 0.0 then x.Floor else -((-x).Floor)
  }

  /** The stop bound a Python slice `s[:i]` uses on a sequence of n elements:
      a negative i counts from the end, and either end is clamped. */
  function SliceBound(n: nat, i: int): (b: nat)
    ensures b <= n
    ensures 0 <= i <= n ==> b == i
    ensures i > n ==> b == n
    ensures i < 0 && n + i >= 0 ==> b == n + i
    ensures n + i < 0 ==> b == 0
  {
    if i >= 0 then (if i <= n then i else n) else if n + i >= 0 then n + i else 0
  }

  /** `split_idx = int(len(groups) * split_ratio)` as the slices of the
      split then use it. */
  function SplitIndex(n: nat, splitRatio: real): (b: nat)
    ensures b <= n
    ensures splitRatio >= 1.0 ==> b == n
  {
    assert splitRatio >= 1.0 ==> n as real * splitRatio >= n as real * 1.0;
    SliceBound(n, Truncate(n as real * splitRatio))
  }

  /** `split_training_paths`: sort, group by parent folder, shuffle the groups
      with the generator seeded by `seed`, and cut the group list at the split
      index; the first part is the training set and the rest the validation
      set. */
  function SplitTrainingPaths(trainingPaths: seq<Path>, splitRatio: real, seed: int,
                              natsorted: seq<Path> -> seq<Path>, seeded: int -> (nat -> nat)): (r: (seq<Path>, seq<Path>))
    ensures multiset(r.0 + r.1) == multiset(natsorted(trainingPaths))
  {
    var groups := GroupByParent(natsorted(trainingPaths));
    var shuffled := Shuffle(groups, seeded(seed), 0).0;
    var b := SplitIndex(|shuffled|, splitRatio);
    ConcatSplit(shuffled, b);
    ShuffledConcat(groups, seeded(seed));
    (Concat(shuffled[..b]), Concat(shuffled[b..]))
  }

  lemma {:induction false} ConcatAppend<T>(a: seq<seq<T>>, b: seq<seq<T>>)
    ensures Concat(a + b) == Concat(a) + Concat(b)
  {
    if a != [] {
      assert (a + b)[1..] == a[1..] + b;
      ConcatAppend(a[1..], b);
    } else {
      assert a + b == b;
    }
  }

  lemma ConcatSplit<T>(groups: seq<seq<T>>, b: nat)
    requires b <= |groups|
    ensures Concat(groups[..b]) + Concat(groups[b..]) == Concat(groups)
  {
    ConcatAppend(groups[..b], groups[b..]);
    assert groups[..b] + groups[b..] == groups;
  }

  /** Replacing one group changes the concatenation's elements by exactly that
      group. */
  lemma {:induction false} ConcatUpdate<T>(groups: seq<seq<T>>, i: nat, g: seq<T>)
    requires i < |groups|
    ensures multiset(Concat(groups[i := g])) + multiset(groups[i]) == multiset(Concat(groups)) + multiset(g)
  {
    if i == 0 {
      assert groups[i := g][1..] == groups[1..];
      var rest := Concat(groups[1..]);
      assert Concat(groups[i := g]) == g + rest;
      assert Concat(groups) == groups[0] + rest;
      var lhs := multiset(g + rest) + multiset(groups[0]);
      var rhs := multiset(groups[0] + rest) + multiset(g);
      forall e ensures lhs[e] == rhs[e] {
      }
      assert lhs == rhs;
    } else {
      assert groups[i := g][1..] == groups[1..][i - 1 := g];
      ConcatUpdate(groups[1..], i - 1, g);
      var updated, rest := Concat(groups[1..][i - 1 := g]), Concat(groups[1..]);
      assert Concat(groups[i := g]) == groups[0] + updated;
      assert Concat(groups) == groups[0] + rest;
      assert groups[1..][i - 1] == groups[i];
      calc {
        multiset(groups[0] + updated) + multiset(groups[i]);
        multiset(groups[0]) + (multiset(updated) + multiset(groups[i]));
        multiset(groups[0]) + (multiset(rest) + multiset(g));
        multiset(groups[0] + rest) + multiset(g);
      }
    }
  }

  lemma ConcatSwap<T>(groups: seq<seq<T>>, i: nat, j: nat)
    requires i < |groups| && j < |groups|
    ensures multiset(Concat(Swap(groups, i, j))) == multiset(Concat(groups))
  {
    if i == j {
      assert Swap(groups, i, j) == groups;
    } else {
      var u := groups[i := groups[j]];
      assert Swap(groups, i, j) == u[j := groups[i]] && u[j] == groups[j];
      ConcatUpdate(groups, i, groups[j]);
      ConcatUpdate(u, j, groups[i]);
      var a, b, c := multiset(Concat(Swap(groups, i, j))), multiset(Concat(u)), multiset(Concat(groups));
      assert a + multiset(groups[j]) == b + multiset(groups[i]) == c + multiset(groups[j]);
      MultisetCancel(a, c, multiset(groups[j]));
    }
  }

  lemma MultisetCancel<T>(a: multiset<T>, c: multiset<T>, x: multiset<T>)
    requires a + x == c + x
    ensures a == c
  {
    forall e ensures a[e] == c[e] {
      assert (a + x)[e] == (c + x)[e];
    }
  }

  /** Shuffling the groups does not change which paths there are. */
  lemma ShuffledConcat<T>(groups: seq<seq<T>>, draw: nat -> nat)
    ensures multiset(Concat(Shuffle(groups, draw, 0).0)) == multiset(Concat(groups))
  {
    if |groups| > 0 {
      ShuffleDownConcat(groups, |groups| - 1, draw, 0);
    }
  }

  lemma {:induction false} ShuffleDownConcat<T>(groups: seq<seq<T>>, i: nat, draw: nat -> nat, t: nat)
    requires i < |groups|
    ensures multiset(Concat(ShuffleDown(groups, i, draw, t).0)) == multiset(Concat(groups))
    decreases i
  {
    if i > 0 {
      var j := draw(t) % (i + 1);
      ConcatSwap(groups, i, j);
      ShuffleDownConcat(Swap(groups, i, j), i - 1, draw, t + 1);
    }
  }

  /** The split partitions the input: when the natural sort only reorders,
      training and validation paths together are the input paths, each as
      often as it occurs there. */
  lemma SplitPartitions(trainingPaths: seq<Path>, splitRatio: real, seed: int,
                        natsorted: seq<Path> -> seq<Path>, seeded: int -> (nat -> nat))
    requires multiset(natsorted(trainingPaths)) == multiset(trainingPaths)
    ensures var r := SplitTrainingPaths(trainingPaths, splitRatio, seed, natsorted, seeded);
      multiset(r.0 + r.1) == multiset(trainingPaths)
  {
  }

  /** No group is cut: the training set is the first `SplitIndex` shuffled
      groups and the validation set the others, where the shuffled groups are
      the folder runs of the sorted paths in some order. */
  lemma SplitKeepsGroups(trainingPaths: seq<Path>, splitRatio: real, seed: int,
                         natsorted: seq<Path> -> seq<Path>, seeded: int -> (nat -> nat))
    ensures var groups := GroupByParent(natsorted(trainingPaths));
      var shuffled := Shuffle(groups, seeded(seed), 0).0;
      var b := SplitIndex(|groups|, splitRatio);
      var r := SplitTrainingPaths(trainingPaths, splitRatio, seed, natsorted, seeded);
      && multiset(shuffled) == multiset(groups)
      && r.0 == Concat(shuffled[..b]) && r.1 == Concat(shuffled[b..])
  {
    var groups := GroupByParent(natsorted(trainingPaths));
    ShufflePermutes(groups, seeded(seed), 0);
  }

  /** The split point truncates: with a ratio in [0, 1] the training set gets
      the floor of `n * ratio` of the n groups, and the validation set the
      rest. */
  lemma SplitPoint(n: nat, splitRatio: real)
    requires 0.0 <= splitRatio <= 1.0
    ensures SplitIndex(n, splitRatio) == (n as real * splitRatio).Floor
    ensures SplitIndex(n, splitRatio) as real <= n as real * splitRatio < SplitIndex(n, splitRatio) as real + 1.0
  {
    var x := n as real * splitRatio;
    ScaleDown(n as real, splitRatio);
    var f := Truncate(x);
    assert f == x.Floor;
    assert 0 <= f <= n;
    assert SplitIndex(n, splitRatio) == SliceBound(n, f);
  }

  lemma ScaleDown(a: real, r: real)
    requires 0.0 <= a && 0.0 <= r <= 1.0
    ensures 0.0 <= a * r <= a
  {
    assert a - a * r == a * (1.0 - r);
    assert 0.0 <= a * (1.0 - r);
  }

  /** Ten folders at the default ratio 0.8: eight train, two validate. */
  lemma SplitPointTenGroups()
    ensures SplitIndex(10, 0.8) == 8
  {
    assert 10 as real * 0.8 == 8.0;
  }

  /** The sorted paths keep each folder together: a path between two paths of
      one folder belongs to that folder. */
  ghost predicate FoldersContiguous(ps: seq<Path>) {
    forall i, j, k :: 0 <= i < j < k < |ps| && ps[i].parent == ps[k].parent ==> ps[j].parent == ps[i].parent
  }

  /** No two groups start with paths of the same folder. */
  ghost predicate DistinctFolders(groups: seq<seq<Path>>)
    requires forall k :: 0 <= k < |groups| ==> |groups[k]| > 0
  {
    forall a, b :: 0 <= a < b < |groups| ==> groups[a][0].parent != groups[b][0].parent
  }

  /** When the sort keeps each folder together, the folder runs have pairwise
      different folders. */
  lemma ContiguousGroupsDistinct(ps: seq<Path>)
    requires FoldersContiguous(ps)
    ensures DistinctFolders(GroupByParent(ps))
  {
    var groups: seq<seq<Path>> := GroupByParent(ps);
    forall a, b | 0 <= a < b < |groups| ensures groups[a][0].parent != groups[b][0].parent {
      var i, j, k := GroupBoundary(ps, a, b);
    }
  }

  /** Group b opens at a position k of ps right after the last path j of group
      b - 1, whose folder differs; group a < b opens at a position i <= j. */
  lemma GroupBoundary(ps: seq<Path>, a: nat, b: nat) returns (i: nat, j: nat, k: nat)
    requires a < b < |GroupByParent(ps)|
    ensures i <= j < k < |ps| && k == j + 1
    ensures ps[i] == GroupByParent(ps)[a][0] && ps[k] == GroupByParent(ps)[b][0]
    ensures ps[j].parent != ps[k].parent
  {
    var groups: seq<seq<Path>> := GroupByParent(ps);
    var last := |groups[b - 1]| - 1;
    ConcatAt(groups, a, 0);
    ConcatAt(groups, b, 0);
    ConcatAt(groups, b - 1, last);
    FlatStartStep(groups, b - 1);
    FlatStartMono(groups, a, b - 1);
    i, j, k := FlatStart(groups, a), FlatStart(groups, b) - 1, FlatStart(groups, b);
    assert ps[j] == groups[b - 1][last];
    assert ps[j].parent == groups[b - 1][0].parent;
  }

  lemma {:induction false} FlatStartMono<T>(groups: seq<seq<T>>, a: nat, b: nat)
    requires a <= b <= |groups|
    ensures FlatStart(groups, a) <= FlatStart(groups, b)
    decreases b
  {
    if a < b {
      FlatStartMono(groups, a, b - 1);
      FlatStartStep(groups, b - 1);
    }
  }

  /** Position in the concatenation where group b starts. */
  function FlatStart<T>(groups: seq<seq<T>>, b: nat): (p: nat)
    requires b <= |groups|
    ensures p == |Concat(groups[..b])|
  {
    if b == 0 then 0
    else
      assert groups[..b] == groups[..b - 1] + [groups[b - 1]];
      ConcatAppend(groups[..b - 1], [groups[b - 1]]);
      FlatStart(groups, b - 1) + |groups[b - 1]|
  }

  lemma FlatStartStep<T>(groups: seq<seq<T>>, b: nat)
    requires b < |groups|
    ensures FlatStart(groups, b + 1) == FlatStart(groups, b) + |groups[b]|
  {
  }

  /** Element m of group b sits in the concatenation at the group's start
      position plus m. */
  lemma ConcatAt<T>(groups: seq<seq<T>>, b: nat, m: nat)
    requires b < |groups| && m < |groups[b]|
    ensures FlatStart(groups, b) + m < |Concat(groups)|
    ensures Concat(groups)[FlatStart(groups, b) + m] == groups[b][m]
  {
    assert groups == groups[..b] + [groups[b]] + groups[b + 1..];
    ConcatAppend(groups[..b] + [groups[b]], groups[b + 1..]);
    ConcatAppend(groups[..b], [groups[b]]);
  }

  /** The documented promise of the split: when the sort keeps each folder
      together, no folder has paths in both the training and the validation
      set. */
  lemma NoFolderInBothSets(trainingPaths: seq<Path>, splitRatio: real, seed: int,
                           natsorted: seq<Path> -> seq<Path>, seeded: int -> (nat -> nat), x: Path, y: Path)
    requires FoldersContiguous(natsorted(trainingPaths))
    ensures var r := SplitTrainingPaths(trainingPaths, splitRatio, seed, natsorted, seeded);
      x in r.0 && y in r.1 ==> x.parent != y.parent
  {
    var r := SplitTrainingPaths(trainingPaths, splitRatio, seed, natsorted, seeded);
    if x in r.0 && y in r.1 {
      var sorted := natsorted(trainingPaths);
      var groups: seq<seq<Path>> := GroupByParent(sorted);
      SplitKeepsGroups(trainingPaths, splitRatio, seed, natsorted, seeded);
      ContiguousGroupsDistinct(sorted);
      SplitFoldersDisjoint(groups, Shuffle(groups, seeded(seed), 0).0, SplitIndex(|groups|, splitRatio), x, y);
    }
  }

  /** Cutting a reordering of folder runs with pairwise different folders
      leaves no folder on both sides of the cut. */
  lemma SplitFoldersDisjoint(groups: seq<seq<Path>>, shuffled: seq<seq<Path>>, b: nat, x: Path, y: Path)
    requires ConsecutiveRuns(groups) && DistinctFolders(groups)
    requires multiset(shuffled) == multiset(groups) && b <= |shuffled|
    requires x in Concat(shuffled[..b]) && y in Concat(shuffled[b..])
    ensures x.parent != y.parent
  {
    assert Distinct(groups) by {
      forall a, c | 0 <= a < c < |groups| ensures groups[a] != groups[c] {
        assert groups[a][0].parent != groups[c][0].parent;
      }
    }
    var a := InConcat(shuffled[..b], x);
    var c := InConcat(shuffled[b..], y);
    var gx, gy := shuffled[a], shuffled[b + c];
    assert gx == shuffled[..b][a] && gy == shuffled[b..][c];
    assert gx in multiset(groups) && gy in multiset(groups);
    var ia :| 0 <= ia < |groups| && groups[ia] == gx;
    var ic :| 0 <= ic < |groups| && groups[ic] == gy;
    var mx :| 0 <= mx < |gx| && gx[mx] == x;
    var my :| 0 <= my < |gy| && gy[my] == y;
    assert x.parent == groups[ia][0].parent && y.parent == groups[ic][0].parent;
    ReorderKeepsDistinct(shuffled, groups, a, b + c);
    assert ia != ic;
  }

  /** Two positions of a reordering of a repetition-free sequence hold
      different elements. */
  lemma ReorderKeepsDistinct(shuffled: seq<seq<Path>>, groups: seq<seq<Path>>, a: nat, c: nat)
    requires Distinct(groups) && multiset(shuffled) == multiset(groups)
    requires a < c < |shuffled|
    ensures shuffled[a] != shuffled[c]
  {
    assert shuffled[a] in multiset(groups);
    var i :| 0 <= i < |groups| && groups[i] == shuffled[a];
    DistinctCount(groups, i);
    RepeatCount(shuffled, a, c);
  }

  /** An element at two positions is counted at least twice. */
  lemma RepeatCount(s: seq<seq<Path>>, a: nat, c: nat)
    requires a < c < |s|
    ensures s[a] == s[c] ==> multiset(s)[s[a]] >= 2
  {
    assert s == s[..a] + [s[a]] + s[a + 1..c] + [s[c]] + s[c + 1..];
  }

  lemma {:induction false} DistinctCount(groups: seq<seq<Path>>, i: nat)
    requires Distinct(groups) && i < |groups|
    ensures multiset(groups)[groups[i]] == 1
  {
    var g := groups[i];
    assert groups == groups[..i] + [g] + groups[i + 1..];
    assert g !in groups[..i] && g !in groups[i + 1..];
  }

  /** A path of a concatenation comes from one of the groups. */
  lemma {:induction false} InConcat<T>(groups: seq<seq<T>>, x: T) returns (k: nat)
    requires x in Concat(groups)
    ensures k < |groups| && x in groups[k]
  {
    if x in groups[0] {
      k := 0;
    } else {
      k := InConcat(groups[1..], x);
      k := k + 1;
    }
  }

  /** The parts of `DocumentSeparationModule` the split decides: the training
      and validation paths and the window size. */
  class DocumentSeparationModule {
    const trainingPaths: seq<Path>
    const valPaths: seq<Path>
    const numberOfImages: int

    /** `__init__`: without validation paths the training paths are split
        80/20 with seed 101; otherwise both lists are kept as given. */
    constructor (trainingPaths: seq<Path>, valPaths: Option<seq<Path>>, numberOfImages: int,
                 natsorted: seq<Path> -> seq<Path>, seeded: int -> (nat -> nat))
      ensures valPaths.None? ==>
        (this.trainingPaths, this.valPaths) == SplitTrainingPaths(trainingPaths, 0.8, 101, natsorted, seeded)
      ensures valPaths.Some? ==> this.trainingPaths == trainingPaths && this.valPaths == valPaths.value
      ensures this.numberOfImages == numberOfImages
    {
      if valPaths.None? {
        var split := SplitTrainingPaths(trainingPaths, 0.8, 101, natsorted, seeded);
        this.trainingPaths := split.0;
        this.valPaths := split.1;
      } else {
        this.trainingPaths := trainingPaths;
        this.valPaths := valPaths.value;
      }
      this.numberOfImages := numberOfImages;
    }
  }
}
