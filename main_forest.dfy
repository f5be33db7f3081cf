/** The isolation-forest engine of main.c: tree construction, the path-length
    walk, training over random subsamples and the anomaly score. */
module MainForest {
  import opened Base
  import opened Samples

  const NUM_TREES: int := 10
  const SUBSAMPLE_SIZE: int := 8
  const MAX_TREE_DEPTH: int := 10

  /** Euler's constant as main.c writes it. */
  const EULER: real := 0.5772156649

  /** An IsolationNode: the leaf flag, the split, the two child pointers and
      the number of samples that reached the node. */
  datatype IsolationNode = IsolationNode(
    isLeaf: bool,
    splitAttribute: int,
    splitValue: int,
    left: Option<IsolationNode>,
    right: Option<IsolationNode>,
    size: int)

  datatype IsolationTree = IsolationTree(root: IsolationNode, maxDepth: int)

  datatype Forest = Forest(trees: seq<IsolationTree>, numTrees: int, subsampleSize: int)

  // ---------------------------------------------------------------- numbers

  /** random_int: min + rand() % (max - min + 1). The operands are
      non-negative, so C's truncating % agrees with Dafny's. */
  function RandomInt(lo: int, hi: int, r: nat): (v: int)
    requires lo <= hi
    ensures lo <= v <= hi
  {
    lo + r % (hi - lo + 1)
  }

  /** Every value of [lo, hi] is drawn by some rand() result. */
  lemma RandomIntCovers(lo: int, hi: int, v: int)
    requires lo <= v <= hi
    ensures RandomInt(lo, hi, v - lo) == v
  {
  }

  /** harmonic_number, with the libm logarithm left as the parameter `ln`. */
  function HarmonicNumber(n: int, ln: int -> real): real
  {
    if n <= 1 then 0.0 else ln(n) + EULER
  }

  /** c_factor, with the libm logarithm left as the parameter `ln`. */
  function CFactor(n: int, ln: int -> real): real
  {
    if n <= 1 then 0.0 else 2.0 * HarmonicNumber(n - 1, ln) - 2.0 * (n as real - 1.0) / n as real
  }

  /** c_factor vanishes for at most one sample and, because harmonic_number(1)
      is 0, equals -1 for two samples whatever the logarithm. */
  lemma CFactorSmall(n: int, ln: int -> real)
    ensures n <= 1 ==> CFactor(n, ln) == 0.0
    ensures n == 2 ==> CFactor(n, ln) == -1.0
  {
  }

  // ---------------------------------------------------------- construction

  /** build_isolation_tree (main.c:140-201): whatever rand() returns, the
      tree it builds is well built over the node's samples. */
  method Build(data: seq<Profile>, idx: seq<int>, depth: int, maxDepth: int, rand: Stream, pos: nat)
    returns (node: IsolationNode, next: nat)
    requires IndicesIn(idx, |data|)
    ensures WellBuilt(node, data, idx, depth, maxDepth)
    ensures pos <= next
    decreases maxDepth - depth
  {
    var n := |idx|;
    if depth >= maxDepth || n <= 1 {
      return IsolationNode(true, -1, 0, None, None, n), pos;
    }
    var attr := RandomInt(0, MAX_SYSCALLS - 1, rand(pos));
    var lo, hi := AttributeRange(data, idx, attr);
    if lo == hi {
      return IsolationNode(true, attr, 0, None, None, n), pos + 1;
    }
    var split := RandomInt(lo, hi, rand(pos + 1));
    var leftIdx, rightIdx := Partition(data, idx, attr, split);
    SplitSides(data, idx, attr, split);
    next := pos + 2;
    var left: Option<IsolationNode> := None;
    var right: Option<IsolationNode> := None;
    if |leftIdx| > 0 {
      var child;
      child, next := Build(data, leftIdx, depth + 1, maxDepth, rand, next);
      left := Some(child);
    }
    if |rightIdx| > 0 {
      var child;
      child, next := Build(data, rightIdx, depth + 1, maxDepth, rand, next);
      right := Some(child);
    }
    node := IsolationNode(false, attr, split, left, right, n);
  }

  /** Every internal node splits on an attribute inside the profile, so
      reading the query at that attribute is in bounds. */
  predicate AttrsOk(node: IsolationNode)
    decreases node
  {
    node.isLeaf ||
    (0 <= node.splitAttribute < MAX_SYSCALLS &&
     (node.left.Some? ==> AttrsOk(node.left.value)) &&
     (node.right.Some? ==> AttrsOk(node.right.value)))
  }

  /** What any tree the builder can produce looks like, whatever rand()
      returns: each node records its sample count; it is a leaf exactly when
      the depth cap is reached, at most one sample is left, or the chosen
      attribute is constant over the samples; otherwise it splits on an
      attribute in range at a value in [min, max], its right child always
      exists, its left child is absent exactly when the split is the minimum,
      and the children are built over the two sides of the partition. */
  predicate WellBuilt(node: IsolationNode, data: seq<Profile>, idx: seq<int>, depth: int, maxDepth: int)
    requires IndicesIn(idx, |data|)
    ensures WellBuilt(node, data, idx, depth, maxDepth) ==> AttrsOk(node)
    decreases node
  {
    node.size == |idx| &&
    if depth >= maxDepth || |idx| <= 1 then
      node == IsolationNode(true, -1, 0, None, None, |idx|)
    else
      var attr := node.splitAttribute;
      0 <= attr < MAX_SYSCALLS &&
      var vals := Values(data, idx, attr);
      var lo, hi := MinOf(vals), MaxOf(vals);
      if lo == hi then
        node == IsolationNode(true, attr, 0, None, None, |idx|)
      else
        var split := node.splitValue;
        !node.isLeaf && lo <= split <= hi &&
        node.right.Some? &&
        (node.left.None? <==> split == lo) &&
        (node.left.Some? ==>
           WellBuilt(node.left.value, data, Below(data, idx, attr, split), depth + 1, maxDepth)) &&
        WellBuilt(node.right.value, data, AtOrAbove(data, idx, attr, split), depth + 1, maxDepth)
  }

  /** What a well-built internal node tells about its split and children. */
  lemma InternalFacts(node: IsolationNode, data: seq<Profile>, idx: seq<int>, depth: int, maxDepth: int)
    requires IndicesIn(idx, |data|) && WellBuilt(node, data, idx, depth, maxDepth) && !node.isLeaf
    ensures depth < maxDepth && |idx| >= 2 && 0 <= node.splitAttribute < MAX_SYSCALLS && node.right.Some?
    ensures node.left.Some? <==> Below(data, idx, node.splitAttribute, node.splitValue) != []
    ensures AtOrAbove(data, idx, node.splitAttribute, node.splitValue) != []
    ensures node.left.Some? ==>
      WellBuilt(node.left.value, data, Below(data, idx, node.splitAttribute, node.splitValue), depth + 1, maxDepth)
    ensures WellBuilt(node.right.value, data, AtOrAbove(data, idx, node.splitAttribute, node.splitValue), depth + 1, maxDepth)
  {
    SplitSides(data, idx, node.splitAttribute, node.splitValue);
  }

  /** The sum of the sizes recorded at the leaves. */
  function LeafSizes(node: IsolationNode): int
    decreases node
  {
    if node.isLeaf then node.size
    else
      (if node.left.Some? then LeafSizes(node.left.value) else 0) +
      (if node.right.Some? then LeafSizes(node.right.value) else 0)
  }

  /** Every sample index handed to the builder lands in exactly one leaf:
      the leaf sizes of a well-built tree add up to the root's count. */
  lemma {:induction false} LeafSizesSumToRoot(node: IsolationNode, data: seq<Profile>, idx: seq<int>, depth: int, maxDepth: int)
    requires IndicesIn(idx, |data|) && WellBuilt(node, data, idx, depth, maxDepth)
    ensures LeafSizes(node) == |idx|
    decreases node
  {
    if !node.isLeaf {
      InternalFacts(node, data, idx, depth, maxDepth);
      var attr, split := node.splitAttribute, node.splitValue;
      var left, right := Below(data, idx, attr, split), AtOrAbove(data, idx, attr, split);
      PartitionConserves(data, idx, attr, split);
      if node.left.Some? {
        LeafSizesSumToRoot(node.left.value, data, left, depth + 1, maxDepth);
      }
      LeafSizesSumToRoot(node.right.value, data, right, depth + 1, maxDepth);
    }
  }

  /** The number of edges on the longest path from the node down. */
  function Height(node: IsolationNode): nat
    decreases node
  {
    var l := if node.left.Some? then 1 + Height(node.left.value) else 0;
    var r := if node.right.Some? then 1 + Height(node.right.value) else 0;
    if l >= r then l else r
  }

  /** No node of a well-built tree lies deeper than the depth cap. */
  lemma HeightBounded(node: IsolationNode, data: seq<Profile>, idx: seq<int>, depth: int, maxDepth: int)
    requires IndicesIn(idx, |data|) && WellBuilt(node, data, idx, depth, maxDepth)
    ensures depth >= maxDepth ==> Height(node) == 0
    ensures depth < maxDepth ==> depth + Height(node) <= maxDepth
  {
    if |idx| > 0 {
      WellBuiltIsRoutable(node, data, idx, depth, maxDepth);
      RoutableHeight(node, depth, maxDepth);
    } else {
      assert node.left.None? && node.right.None?;
    }
  }

  /** Below an internal node of a routable tree the depth grows by one per
      level, so the tree ends by the depth cap. */
  lemma {:induction false} RoutableHeight(node: IsolationNode, depth: int, maxDepth: int)
    requires Routable(node, depth, maxDepth)
    ensures depth >= maxDepth ==> Height(node) == 0
    ensures depth < maxDepth ==> depth + Height(node) <= maxDepth
    decreases node
  {
    if !node.isLeaf {
      if node.left.Some? {
        RoutableHeight(node.left.value, depth + 1, maxDepth);
      }
      RoutableHeight(node.right.value, depth + 1, maxDepth);
    }
  }

  // ------------------------------------------------------------ path length

  /** The descent of path_length (main.c:209-222): stop at a leaf; go left
      when the value is below the split and a left child exists, otherwise
      go right if there is a right child; with neither, stop bare. */
  function Walk(node: IsolationNode, v: Profile, depth: int): Stop
    requires AttrsOk(node)
    decreases node
  {
    if node.isLeaf then AtLeaf(depth, node.size)
    else
      var val := v[node.splitAttribute];
      if val < node.splitValue && node.left.Some? then Walk(node.left.value, v, depth + 1)
      else if node.right.Some? then Walk(node.right.value, v, depth + 1)
      else NoChild(depth)
  }

  /** path_length (main.c:204-223): a NULL node or the bare fallback gives
      the current depth, a leaf its depth plus c_factor of its size. */
  function PathLength(node: Option<IsolationNode>, v: Profile, depth: int, ln: int -> real): real
    requires node.Some? ==> AttrsOk(node.value)
  {
    match node
    case None => depth as real
    case Some(n) =>
      match Walk(n, v, depth)
      case AtLeaf(d, s) => d as real + CFactor(s, ln)
      case NoChild(d) => d as real
  }

  /** A query with a value below the split at a node without a left child
      detours right instead of stopping. */
  lemma DetourRight(node: IsolationNode, v: Profile, depth: int)
    requires AttrsOk(node) && !node.isLeaf && node.left.None? && node.right.Some?
    requires v[node.splitAttribute] < node.splitValue
    ensures Walk(node, v, depth) == Walk(node.right.value, v, depth + 1)
  {
  }

  /** The facts about a tree the walk relies on: every node holds at least
      one sample and no more than its parent; a leaf has no children; an
      internal node lies above the depth cap, splits on an attribute in range
      and has a right child. */
  predicate Routable(node: IsolationNode, depth: int, maxDepth: int)
    ensures Routable(node, depth, maxDepth) ==> AttrsOk(node)
    decreases node
  {
    node.size >= 1 &&
    (if node.isLeaf then node.left.None? && node.right.None? else
     (depth < maxDepth && 0 <= node.splitAttribute < MAX_SYSCALLS && node.right.Some? &&
      (node.left.Some? ==> node.left.value.size <= node.size && Routable(node.left.value, depth + 1, maxDepth)) &&
      node.right.value.size <= node.size && Routable(node.right.value, depth + 1, maxDepth)))
  }

  /** A well-built tree over at least one sample is routable. */
  lemma {:induction false} WellBuiltIsRoutable(node: IsolationNode, data: seq<Profile>, idx: seq<int>, depth: int, maxDepth: int)
    requires IndicesIn(idx, |data|) && WellBuilt(node, data, idx, depth, maxDepth) && |idx| > 0
    ensures Routable(node, depth, maxDepth)
    decreases node
  {
    if !node.isLeaf {
      InternalFacts(node, data, idx, depth, maxDepth);
      var attr, split := node.splitAttribute, node.splitValue;
      PartitionConserves(data, idx, attr, split);
      if node.left.Some? {
        WellBuiltIsRoutable(node.left.value, data, Below(data, idx, attr, split), depth + 1, maxDepth);
      }
      WellBuiltIsRoutable(node.right.value, data, AtOrAbove(data, idx, attr, split), depth + 1, maxDepth);
    }
  }

  /** On a routable tree every query ends at a leaf, never at the bare
      fallback, at a depth within the cap, and the leaf holds between one
      sample and the root's count. */
  lemma {:induction false} WalkEndsAtLeaf(node: IsolationNode, depth: int, maxDepth: int, v: Profile)
    requires Routable(node, depth, maxDepth)
    ensures Walk(node, v, depth).AtLeaf?
    ensures depth <= Walk(node, v, depth).depth <= (if depth < maxDepth then maxDepth else depth)
    ensures 1 <= Walk(node, v, depth).size <= node.size
    decreases node
  {
    if !node.isLeaf {
      var child := if v[node.splitAttribute] < node.splitValue && node.left.Some? then node.left.value else node.right.value;
      assert Walk(node, v, depth) == Walk(child, v, depth + 1);
      WalkEndsAtLeaf(child, depth + 1, maxDepth, v);
    }
  }

  /** On a well-built tree path_length never takes the bare-depth return:
      it is the depth of the leaf the query reaches, within the cap, plus
      c_factor of that leaf's size, which lies between 1 and the root's count. */
  lemma PathLengthAtLeaf(node: IsolationNode, data: seq<Profile>, idx: seq<int>, depth: int, maxDepth: int, v: Profile, ln: int -> real)
    requires IndicesIn(idx, |data|) && WellBuilt(node, data, idx, depth, maxDepth) && |idx| > 0
    ensures Walk(node, v, depth).AtLeaf?
    ensures depth <= Walk(node, v, depth).depth <= (if depth < maxDepth then maxDepth else depth)
    ensures 1 <= Walk(node, v, depth).size <= |idx|
    ensures PathLength(Some(node), v, depth, ln) == Walk(node, v, depth).depth as real + CFactor(Walk(node, v, depth).size, ln)
  {
    WellBuiltIsRoutable(node, data, idx, depth, maxDepth);
    WalkEndsAtLeaf(node, depth, maxDepth, v);
  }

  // --------------------------------------------------------------- training

  /** The clamped subsample size (main.c:239). */
  function SubsampleSize(n: int): (ss: int)
    ensures ss <= SUBSAMPLE_SIZE && ss <= n
    ensures ss == SUBSAMPLE_SIZE || ss == n
  {
    if SUBSAMPLE_SIZE < n then SUBSAMPLE_SIZE else n
  }

  /** The subsample loop of train_isolation_forest (main.c:245-248): `ss`
      indices drawn one after another, with replacement, by
      random_int(0, n - 1), so each lies in [0, n - 1]. */
  method DrawSubsample(n: int, ss: nat, rand: Stream, pos: nat) returns (idx: seq<int>)
    requires ss > 0 ==> n >= 1
    ensures |idx| == ss && IndicesIn(idx, n)
    ensures forall i :: 0 <= i < ss ==> idx[i] == RandomInt(0, n - 1, rand(pos + i))
  {
    var subsample := new int[ss];
    var i := 0;
    while i < ss
      invariant 0 <= i <= ss
      invariant forall k :: 0 <= k < i ==> subsample[k] == RandomInt(0, n - 1, rand(pos + k))
    {
      subsample[i] := RandomInt(0, n - 1, rand(pos + i));
      i := i + 1;
    }
    idx := subsample[..];
  }

  /** A tree built by the training loop over some subsample of `ss` indices
      into the data. */
  ghost predicate TreeFrom(tree: IsolationTree, data: seq<Profile>, ss: int)
  {
    tree.maxDepth == MAX_TREE_DEPTH &&
    exists idx :: |idx| == ss && IndicesIn(idx, |data|) && WellBuilt(tree.root, data, idx, 0, tree.maxDepth)
  }

  /** A forest as training leaves it: NUM_TREES trees, the clamped subsample
      size, and every tree well built over a subsample of that size. */
  ghost predicate TrainedOn(f: Forest, data: seq<Profile>)
  {
    |f.trees| == f.numTrees == NUM_TREES &&
    f.subsampleSize == SubsampleSize(|data|) &&
    forall t :: 0 <= t < |f.trees| ==> TreeFrom(f.trees[t], data, f.subsampleSize)
  }

  /** One pass of the training loop (main.c:244-256): draw a subsample of
      `ss` indices, then build a tree with depth cap MAX_TREE_DEPTH over it. */
  method GrowTree(data: seq<Profile>, ss: nat, rand: Stream, pos: nat) returns (tree: IsolationTree, next: nat)
    requires ss > 0 ==> |data| >= 1
    ensures TreeFrom(tree, data, ss)
    ensures pos <= next
  {
    var subsample := DrawSubsample(|data|, ss, rand, pos);
    var root;
    root, next := Build(data, subsample, 0, MAX_TREE_DEPTH, rand, pos + ss);
    assert TreeFrom(IsolationTree(root, MAX_TREE_DEPTH), data, ss);
    tree := IsolationTree(root, MAX_TREE_DEPTH);
  }

  /** train_isolation_forest (main.c:236-262): exactly NUM_TREES trees, each
      with depth cap MAX_TREE_DEPTH, built over min(SUBSAMPLE_SIZE, n)
      indices drawn from [0, n - 1]. */
  method Train(data: seq<Profile>, rand: Stream, pos: nat) returns (forest: Forest, next: nat)
    ensures TrainedOn(forest, data)
    ensures pos <= next
  {
    var n := |data|;
    var ss := if SUBSAMPLE_SIZE < n then SUBSAMPLE_SIZE else n;
    var trees: seq<IsolationTree> := [];
    next := pos;
    var t := 0;
    while t < NUM_TREES
      invariant 0 <= t <= NUM_TREES && |trees| == t && pos <= next
      invariant forall k :: 0 <= k < t ==> TreeFrom(trees[k], data, ss)
    {
      var tree;
      tree, next := GrowTree(data, ss, rand, next);
      trees := trees + [tree];
      t := t + 1;
    }
    forest := Forest(trees, NUM_TREES, ss);
  }

  // ---------------------------------------------------------------- scoring

  /** What anomaly_score needs of a forest: at least one tree to average
      over, and every split attribute inside the profile. */
  predicate ForestOk(f: Forest)
  {
    0 < f.numTrees <= |f.trees| && forall t :: 0 <= t < |f.trees| ==> AttrsOk(f.trees[t].root)
  }

  /** The sum of the path lengths of the first `count` trees. */
  function SumPaths(trees: seq<IsolationTree>, count: nat, v: Profile, ln: int -> real): real
    requires count <= |trees| && forall t :: 0 <= t < |trees| ==> AttrsOk(trees[t].root)
  {
    if count == 0 then 0.0
    else SumPaths(trees, count - 1, v, ln) + PathLength(Some(trees[count - 1].root), v, 0, ln)
  }

  /** anomaly_score as a function: the mean path length over the trees,
      normalised by c_factor of the subsample size, with 0.5 when that is 0.
      `pow2(x)` stands for pow(2.0, x). */
  function Score(f: Forest, v: Profile, ln: int -> real, pow2: real -> real): real
    requires ForestOk(f)
  {
    var avg := SumPaths(f.trees, f.numTrees, v, ln) / f.numTrees as real;
    var c := CFactor(f.subsampleSize, ln);
    if c == 0.0 then 0.5 else pow2(-avg / c)
  }

  /** anomaly_score (main.c:265-282). */
  method AnomalyScore(f: Forest, v: Profile, ln: int -> real, pow2: real -> real) returns (score: real)
    requires ForestOk(f)
    ensures score == Score(f, v, ln, pow2)
  {
    var avg := 0.0;
    var t := 0;
    while t < f.numTrees
      invariant 0 <= t <= f.numTrees
      invariant avg == SumPaths(f.trees, t, v, ln)
    {
      avg := avg + PathLength(Some(f.trees[t].root), v, 0, ln);
      t := t + 1;
    }
    avg := avg / f.numTrees as real;
    var c := CFactor(f.subsampleSize, ln);
    if c == 0.0 {
      return 0.5;
    }
    score := pow2(-avg / c);
  }

  /** With at most one sample per tree c_factor is 0 and every score is 0.5. */
  lemma ScoreFallback(f: Forest, v: Profile, ln: int -> real, pow2: real -> real)
    requires ForestOk(f) && f.subsampleSize <= 1
    ensures Score(f, v, ln, pow2) == 0.5
  {
  }

  /** With two samples per tree c_factor is -1, so the exponent's sign
      flips: the score is 2 raised to the mean path length itself, not to
      its negation. */
  lemma ScoreOfTwo(f: Forest, v: Profile, ln: int -> real, pow2: real -> real)
    requires ForestOk(f) && f.subsampleSize == 2
    ensures Score(f, v, ln, pow2) == pow2(SumPaths(f.trees, f.numTrees, v, ln) / f.numTrees as real)
  {
    CFactorSmall(2, ln);
  }

  /** A trained forest is one the score can be computed on. */
  lemma TrainedForestOk(f: Forest, data: seq<Profile>)
    requires TrainedOn(f, data)
    ensures ForestOk(f)
  {
    forall t | 0 <= t < |f.trees| ensures AttrsOk(f.trees[t].root) {
      assert TreeFrom(f.trees[t], data, f.subsampleSize);
      var idx :| |idx| == f.subsampleSize && IndicesIn(idx, |data|) && WellBuilt(f.trees[t].root, data, idx, 0, f.trees[t].maxDepth);
    }
  }

  /** All training profiles are equal. */
  predicate Identical(data: seq<Profile>)
  {
    forall i, j :: 0 <= i < |data| && 0 <= j < |data| ==> data[i] == data[j]
  }

  /** When every training profile is identical, no attribute can separate
      the samples: a well-built tree is a single leaf holding all of them. */
  lemma IdenticalDataGivesLeaf(node: IsolationNode, data: seq<Profile>, idx: seq<int>, depth: int, maxDepth: int)
    requires IndicesIn(idx, |data|) && WellBuilt(node, data, idx, depth, maxDepth) && Identical(data)
    ensures node.isLeaf && node.size == |idx|
  {
    if !(depth >= maxDepth || |idx| <= 1) {
      var attr := node.splitAttribute;
      var vals := Values(data, idx, attr);
      var lo, hi := MinOf(vals), MaxOf(vals);
      var kLo :| 0 <= kLo < |vals| && vals[kLo] == lo;
      var kHi :| 0 <= kHi < |vals| && vals[kHi] == hi;
      assert data[idx[kLo]] == data[idx[kHi]];
    }
  }

  /** Over trees that are all root leaves the summed path length does not
      depend on the query. */
  lemma {:induction false} SumPathsIgnoreQuery(trees: seq<IsolationTree>, count: nat, v: Profile, w: Profile, ln: int -> real)
    requires count <= |trees| && forall t :: 0 <= t < |trees| ==> AttrsOk(trees[t].root) && trees[t].root.isLeaf
    ensures SumPaths(trees, count, v, ln) == SumPaths(trees, count, w, ln)
  {
    if count > 0 {
      SumPathsIgnoreQuery(trees, count - 1, v, w, ln);
    }
  }

  /** Degenerate training set: when every training profile is identical,
      every tree of a trained forest is a root leaf holding the whole
      subsample. */
  lemma IdenticalDataGivesLeaves(f: Forest, data: seq<Profile>)
    requires TrainedOn(f, data) && Identical(data)
    ensures ForestOk(f)
    ensures forall t :: 0 <= t < |f.trees| ==> f.trees[t].root.isLeaf && f.trees[t].root.size == f.subsampleSize
  {
    TrainedForestOk(f, data);
    forall t | 0 <= t < |f.trees| ensures f.trees[t].root.isLeaf && f.trees[t].root.size == f.subsampleSize {
      TreeOfIdenticalData(f.trees[t], data, f.subsampleSize);
    }
  }

  /** ... and so every query receives the same score. */
  lemma IdenticalDataScoresAlike(f: Forest, data: seq<Profile>, v: Profile, w: Profile, ln: int -> real, pow2: real -> real)
    requires TrainedOn(f, data) && Identical(data)
    ensures ForestOk(f)
    ensures Score(f, v, ln, pow2) == Score(f, w, ln, pow2)
  {
    IdenticalDataGivesLeaves(f, data);
    LeafForestScoresAlike(f, v, w, ln, pow2);
  }

  /** A forest whose every tree is a single leaf gives every query the same score. */
  lemma LeafForestScoresAlike(f: Forest, v: Profile, w: Profile, ln: int -> real, pow2: real -> real)
    requires ForestOk(f) && forall t :: 0 <= t < |f.trees| ==> f.trees[t].root.isLeaf
    ensures Score(f, v, ln, pow2) == Score(f, w, ln, pow2)
  {
    SumPathsIgnoreQuery(f.trees, f.numTrees, v, w, ln);
  }

  /** One tree grown from identical profiles is a root leaf over its subsample. */
  lemma TreeOfIdenticalData(tree: IsolationTree, data: seq<Profile>, ss: int)
    requires TreeFrom(tree, data, ss) && Identical(data)
    ensures tree.root.isLeaf && tree.root.size == ss
  {
    var idx :| |idx| == ss && IndicesIn(idx, |data|) && WellBuilt(tree.root, data, idx, 0, tree.maxDepth);
    IdenticalDataGivesLeaf(tree.root, data, idx, 0, tree.maxDepth);
  }
}
