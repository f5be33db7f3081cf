/** The compact variant of the engine in new.c: the same builder with its
    own node record, a path walk that never detours, a training loop without
    clamping and the synthetic profile generator. */
module NewForest {
  import opened Base
  import opened Samples
  import MainForest

  const NUM_TREES: int := 10
  const SUBSAMPLE_SIZE: int := 8
  const MAX_DEPTH: int := 10

  /** Euler's constant as new.c writes it. */
  const EULER: real := 0.5772156649

  /** new.c's Node, allocated zeroed by calloc: leaves keep split_attr and
      split_val at 0 and both child pointers NULL. */
  datatype Node = Node(
    isLeaf: bool,
    splitAttr: int,
    splitVal: int,
    size: int,
    left: Option<Node>,
    right: Option<Node>)

  /** c_factor of new.c, with the libm logarithm left as the parameter `ln`:
      it takes log(n - 1) + γ directly, with no special case for n - 1 == 1. */
  function CFactor(n: int, ln: int -> real): real
  {
    if n <= 1 then 0.0 else 2.0 * (ln(n - 1) + EULER) - 2.0 * (n as real - 1.0) / n as real
  }

  /** The two c_factor definitions agree except for two samples, where
      main.c's harmonic_number(1) == 0 gives -1 and new.c gives
      2 (log 1 + γ) - 1. */
  lemma CFactorAgainstMain(n: int, ln: int -> real)
    ensures n != 2 ==> CFactor(n, ln) == MainForest.CFactor(n, ln)
    ensures n == 2 ==> MainForest.CFactor(n, ln) == -1.0 && CFactor(n, ln) == 2.0 * (ln(1) + EULER) - 1.0
  {
  }

  // ---------------------------------------------------------- construction

  /** What any tree new.c's builder can produce looks like: each node
      records its sample count; a leaf is the zeroed record, made when the
      depth cap is reached, at most one sample is left, or the drawn
      attribute is constant over the samples; an internal node splits on an
      attribute in [0, MAX_SYSCALLS) at a value in [min, max] of it, always
      has a right child, lacks a left child exactly when the split is the
      minimum, and its children are built over the two sides. */
  ghost predicate WellBuilt(node: Node, data: seq<Profile>, idx: seq<int>, depth: int, maxDepth: int)
    requires IndicesIn(idx, |data|)
    ensures WellBuilt(node, data, idx, depth, maxDepth) ==> AttrsOk(node)
    decreases node
  {
    node.size == |idx| &&
    if node.isLeaf then
      node == Node(true, 0, 0, |idx|, None, None) &&
      (depth >= maxDepth || |idx| <= 1 || ConstantFrom(data, idx, 0))
    else
      var attr, split := node.splitAttr, node.splitVal;
      depth < maxDepth && |idx| >= 2 && 0 <= attr < MAX_SYSCALLS &&
      var vals := Values(data, idx, attr);
      var lo, hi := MinOf(vals), MaxOf(vals);
      lo < hi && lo <= split <= hi &&
      node.right.Some? &&
      (node.left.None? <==> split == lo) &&
      (node.left.Some? ==> WellBuilt(node.left.value, data, Below(data, idx, attr, split), depth + 1, maxDepth)) &&
      WellBuilt(node.right.value, data, AtOrAbove(data, idx, attr, split), depth + 1, maxDepth)
  }

  /** Some attribute numbered `from` or above takes one value on all of the
      (at least one) samples. */
  predicate ConstantFrom(data: seq<Profile>, idx: seq<int>, from: int)
    requires IndicesIn(idx, |data|) && |idx| > 0 && 0 <= from
    decreases MAX_SYSCALLS - from
  {
    from < MAX_SYSCALLS && (Constant(data, idx, from) || ConstantFrom(data, idx, from + 1))
  }

  /** Attribute `attr` takes one value on all of the (at least one) samples. */
  predicate Constant(data: seq<Profile>, idx: seq<int>, attr: int)
    requires IndicesIn(idx, |data|) && |idx| > 0 && 0 <= attr < MAX_SYSCALLS
  {
    MinOf(Values(data, idx, attr)) == MaxOf(Values(data, idx, attr))
  }

  /** An attribute constant on the samples makes ConstantFrom hold from any
      lower attribute number. */
  lemma {:induction false} ConstantAttr(data: seq<Profile>, idx: seq<int>, from: int, attr: int)
    requires IndicesIn(idx, |data|) && |idx| > 0 && 0 <= from <= attr < MAX_SYSCALLS
    requires Constant(data, idx, attr)
    ensures ConstantFrom(data, idx, from)
    decreases attr - from
  {
    if from < attr {
      ConstantAttr(data, idx, from + 1, attr);
    }
  }

  /** Conversely, ConstantFrom names an attribute constant on the samples. */
  lemma {:induction false} ConstantFromWitness(data: seq<Profile>, idx: seq<int>, from: int)
    requires IndicesIn(idx, |data|) && |idx| > 0 && 0 <= from
    requires ConstantFrom(data, idx, from)
    ensures exists attr :: from <= attr < MAX_SYSCALLS && Constant(data, idx, attr)
    decreases MAX_SYSCALLS - from
  {
    if !Constant(data, idx, from) {
      ConstantFromWitness(data, idx, from + 1);
    }
  }

  /** Every internal node splits on an attribute inside the profile. */
  predicate AttrsOk(node: Node)
    decreases node
  {
    node.isLeaf ||
    (0 <= node.splitAttr < MAX_SYSCALLS &&
     (node.left.Some? ==> AttrsOk(node.left.value)) &&
     (node.right.Some? ==> AttrsOk(node.right.value)))
  }

  /** build_tree (new.c:32-56): the attribute is rand() % MAX_SYSCALLS, the
      split min + rand() % (max - min + 1), written out inline in new.c and
      the same expression as main.c's random_int(min, max). The depth cap
      MAX_DEPTH is the parameter `maxDepth`, which train_forest sets to
      MAX_DEPTH. Whatever rand() returns, the tree is well built over the
      node's samples. */
  method Build(data: seq<Profile>, idx: seq<int>, depth: int, maxDepth: int, rand: Stream, pos: nat)
    returns (node: Node, next: nat)
    requires IndicesIn(idx, |data|)
    ensures WellBuilt(node, data, idx, depth, maxDepth)
    ensures pos <= next
    decreases maxDepth - depth
  {
    var n := |idx|;
    if depth >= maxDepth || n <= 1 {
      return Node(true, 0, 0, n, None, None), pos;
    }
    var attr := rand(pos) % MAX_SYSCALLS;
    var lo, hi := AttributeRange(data, idx, attr);
    if lo == hi {
      ConstantAttr(data, idx, 0, attr);
      return Node(true, 0, 0, n, None, None), pos + 1;
    }
    var split := MainForest.RandomInt(lo, hi, rand(pos + 1));
    var leftIdx, rightIdx := Partition(data, idx, attr, split);
    SplitSides(data, idx, attr, split);
    next := pos + 2;
    var left: Option<Node> := None;
    var right: Option<Node> := None;
    if |leftIdx| > 0 {
      var child;
      child, next := Build(data, leftIdx, depth + 1, maxDepth, rand, next);
      left := Some(child);
    }
    if |rightIdx| > 0 {
      var child;
      child, next := Build(data, rightIdx, depth + 1, maxDepth, rand, next);
      right := Some(child);
    }
    node := Node(false, attr, split, n, left, right);
  }

  /** What a well-built internal node tells about its children. */
  lemma InternalFacts(node: Node, data: seq<Profile>, idx: seq<int>, depth: int, maxDepth: int)
    requires IndicesIn(idx, |data|) && WellBuilt(node, data, idx, depth, maxDepth) && !node.isLeaf
    ensures depth < maxDepth && |idx| >= 2 && 0 <= node.splitAttr < MAX_SYSCALLS && node.right.Some?
    ensures node.left.Some? <==> Below(data, idx, node.splitAttr, node.splitVal) != []
    ensures AtOrAbove(data, idx, node.splitAttr, node.splitVal) != []
    ensures node.left.Some? ==> WellBuilt(node.left.value, data, Below(data, idx, node.splitAttr, node.splitVal), depth + 1, maxDepth)
    ensures WellBuilt(node.right.value, data, AtOrAbove(data, idx, node.splitAttr, node.splitVal), depth + 1, maxDepth)
  {
    SplitSides(data, idx, node.splitAttr, node.splitVal);
  }

  // -------------------------------------------------------------- path walk

  /** The descent of get_path (new.c:59-63): stop at a NULL node or a leaf;
      otherwise go left when the value is below the split and right
      otherwise, whether or not that child exists. */
  function Reach(node: Option<Node>, p: Profile, depth: int): Stop
    requires node.Some? ==> AttrsOk(node.value)
    decreases node
  {
    match node
    case None => NoChild(depth)
    case Some(n) =>
      if n.isLeaf then AtLeaf(depth, n.size)
      else if p[n.splitAttr] < n.splitVal then Reach(n.left, p, depth + 1)
      else Reach(n.right, p, depth + 1)
  }

  /** get_path (new.c:59-63): the depth where the walk stops plus c_factor of
      the size there, a missing node counting as size 0. */
  function GetPath(node: Option<Node>, p: Profile, depth: int, ln: int -> real): real
    requires node.Some? ==> AttrsOk(node.value)
  {
    match Reach(node, p, depth)
    case AtLeaf(d, s) => d as real + CFactor(s, ln)
    case NoChild(d) => d as real + CFactor(0, ln)
  }

  /** Unlike main.c there is no detour: a value below the split at a node
      without a left child ends the walk one level down with nothing added. */
  lemma NoDetour(node: Node, p: Profile, depth: int, ln: int -> real)
    requires AttrsOk(node) && !node.isLeaf && node.left.None?
    requires p[node.splitAttr] < node.splitVal
    ensures GetPath(Some(node), p, depth, ln) == (depth + 1) as real
  {
    assert Reach(Some(node), p, depth) == Reach(None, p, depth + 1) == NoChild(depth + 1);
  }

  /** The facts about a tree the walk relies on: every node holds at least
      one sample and no more than its parent; a leaf has no children; an
      internal node lies above the depth cap, splits on an attribute in range
      and has a right child. */
  predicate Routable(node: Node, depth: int, maxDepth: int)
    ensures Routable(node, depth, maxDepth) ==> AttrsOk(node)
    decreases node
  {
    node.size >= 1 &&
    (if node.isLeaf then node.left.None? && node.right.None? else
     (depth < maxDepth && 0 <= node.splitAttr < MAX_SYSCALLS && node.right.Some? &&
      (node.left.Some? ==> node.left.value.size <= node.size && Routable(node.left.value, depth + 1, maxDepth)) &&
      node.right.value.size <= node.size && Routable(node.right.value, depth + 1, maxDepth)))
  }

  /** A well-built tree over at least one sample is routable. */
  lemma {:induction false} WellBuiltIsRoutable(node: Node, data: seq<Profile>, idx: seq<int>, depth: int, maxDepth: int)
    requires IndicesIn(idx, |data|) && WellBuilt(node, data, idx, depth, maxDepth) && |idx| > 0
    ensures Routable(node, depth, maxDepth)
    decreases node
  {
    if !node.isLeaf {
      InternalFacts(node, data, idx, depth, maxDepth);
      var attr, split := node.splitAttr, node.splitVal;
      PartitionConserves(data, idx, attr, split);
      if node.left.Some? {
        WellBuiltIsRoutable(node.left.value, data, Below(data, idx, attr, split), depth + 1, maxDepth);
      }
      WellBuiltIsRoutable(node.right.value, data, AtOrAbove(data, idx, attr, split), depth + 1, maxDepth);
    }
  }

  /** On a routable tree the walk stops within the depth cap, either at a
      leaf holding between one sample and the root's count, or on a missing
      child strictly below the starting depth. */
  lemma {:induction false} ReachOnRoutable(node: Node, depth: int, maxDepth: int, p: Profile)
    requires Routable(node, depth, maxDepth) && depth <= maxDepth
    ensures depth <= Reach(Some(node), p, depth).depth <= maxDepth
    ensures Reach(Some(node), p, depth).AtLeaf? ==> 1 <= Reach(Some(node), p, depth).size <= node.size
    ensures Reach(Some(node), p, depth).NoChild? ==> depth < Reach(Some(node), p, depth).depth
    decreases node
  {
    if !node.isLeaf {
      var child := if p[node.splitAttr] < node.splitVal then node.left else node.right;
      assert Reach(Some(node), p, depth) == Reach(child, p, depth + 1);
      if child.Some? {
        ReachOnRoutable(child.value, depth + 1, maxDepth, p);
      }
    }
  }

  /** get_path on a well-built tree is the depth where the walk stops, within
      the cap, plus c_factor of the leaf's size when it stops at a leaf, and
      exactly that depth when it steps onto a missing child. */
  lemma GetPathOnBuiltTree(node: Node, data: seq<Profile>, idx: seq<int>, depth: int, maxDepth: int, p: Profile, ln: int -> real)
    requires IndicesIn(idx, |data|) && WellBuilt(node, data, idx, depth, maxDepth) && |idx| > 0 && depth <= maxDepth
    ensures depth <= Reach(Some(node), p, depth).depth <= maxDepth
    ensures Reach(Some(node), p, depth).AtLeaf? ==> 1 <= Reach(Some(node), p, depth).size <= |idx|
    ensures Reach(Some(node), p, depth).NoChild? ==> depth < Reach(Some(node), p, depth).depth
    ensures GetPath(Some(node), p, depth, ln) ==
      Reach(Some(node), p, depth).depth as real +
      (if Reach(Some(node), p, depth).AtLeaf? then CFactor(Reach(Some(node), p, depth).size, ln) else 0.0)
  {
    WellBuiltIsRoutable(node, data, idx, depth, maxDepth);
    ReachOnRoutable(node, depth, maxDepth, p);
  }

  // --------------------------------------------------------------- training

  /** A tree of the training loop: well built from depth 0 over
      SUBSAMPLE_SIZE indices into the training set. */
  ghost predicate TreeFrom(tree: Node, train: seq<Profile>)
  {
    exists idx :: |idx| == SUBSAMPLE_SIZE && IndicesIn(idx, |train|) && WellBuilt(tree, train, idx, 0, MAX_DEPTH)
  }

  /** The index loop of new.c's training (new.c:80-81): SUBSAMPLE_SIZE
      indices drawn one after another, with replacement, as rand() % n_train,
      so each lies in [0, n_train). */
  method DrawIndices(n: int, rand: Stream, pos: nat) returns (idx: seq<int>)
    requires n > 0
    ensures |idx| == SUBSAMPLE_SIZE && IndicesIn(idx, n)
    ensures forall i :: 0 <= i < SUBSAMPLE_SIZE ==> idx[i] == rand(pos + i) % n
  {
    var buf := new int[SUBSAMPLE_SIZE];
    var i := 0;
    while i < SUBSAMPLE_SIZE
      invariant 0 <= i <= SUBSAMPLE_SIZE
      invariant forall k :: 0 <= k < i ==> buf[k] == rand(pos + k) % n
    {
      buf[i] := rand(pos + i) % n;
      i := i + 1;
    }
    idx := buf[..];
  }

  /** The training loop of new.c's main (new.c:79-83): NUM_TREES trees, each
      over exactly SUBSAMPLE_SIZE indices drawn as rand() % n_train, with no
      clamping to the size of the training set. */
  method TrainForest(train: seq<Profile>, rand: Stream, pos: nat) returns (forest: seq<Node>, next: nat)
    requires |train| > 0
    ensures |forest| == NUM_TREES
    ensures forall t :: 0 <= t < |forest| ==> TreeFrom(forest[t], train)
    ensures pos <= next
  {
    forest := [];
    next := pos;
    var t := 0;
    while t < NUM_TREES
      invariant 0 <= t <= NUM_TREES && |forest| == t && pos <= next
      invariant forall k :: 0 <= k < t ==> TreeFrom(forest[k], train)
    {
      var idx := DrawIndices(|train|, rand, next);
      var tree;
      tree, next := Build(train, idx, 0, MAX_DEPTH, rand, next + SUBSAMPLE_SIZE);
      assert TreeFrom(tree, train);
      forest := forest + [tree];
      t := t + 1;
    }
  }

  // ---------------------------------------------------------- data generator

  /** One frequency of gen_data (new.c:69) from one rand() result: an
      anomalous profile draws from [0, 50) above index 10 and [0, 5)
      elsewhere; a normal one from [40, 60) below index 5 and [0, 5)
      elsewhere. */
  function GenValue(anomaly: bool, i: int, r: nat): (f: int)
    ensures 0 <= f
    ensures anomaly && i > 10 ==> f < 50
    ensures anomaly && i <= 10 ==> f < 5
    ensures !anomaly && i < 5 ==> 40 <= f < 60
    ensures !anomaly && i >= 5 ==> f < 5
  {
    if anomaly then (if i > 10 then r % 50 else r % 5)
    else (if i < 5 then 40 + r % 20 else r % 5)
  }

  /** gen_data (new.c:66-70): one rand() call per syscall, in order, so every
      frequency is non-negative and within its band. */
  method GenData(anomaly: bool, rand: Stream, pos: nat) returns (freq: Profile, next: nat)
    ensures next == pos + MAX_SYSCALLS
    ensures forall i :: 0 <= i < MAX_SYSCALLS ==> freq[i] == GenValue(anomaly, i, rand(pos + i))
    ensures forall i :: 0 <= i < MAX_SYSCALLS ==> 0 <= freq[i]
  {
    var buf := new int[MAX_SYSCALLS];
    var i := 0;
    while i < MAX_SYSCALLS
      invariant 0 <= i <= MAX_SYSCALLS
      invariant forall k :: 0 <= k < i ==> buf[k] == GenValue(anomaly, k, rand(pos + k))
    {
      buf[i] := if anomaly then (if i > 10 then rand(pos + i) % 50 else rand(pos + i) % 5)
                else (if i < 5 then 40 + rand(pos + i) % 20 else rand(pos + i) % 5);
      i := i + 1;
    }
    freq := buf[..];
    next := pos + MAX_SYSCALLS;
  }
}
