/** The toy variant in new_short.c: a single tree whose construction ignores
    the samples and only halves their count, and the path-length walk that
    scores a process by the depth at which it is isolated. */
module ShortForest {
  import opened Base

  /** Width of a process profile in new_short.c. */
  const MAX_SYSCALLS: int := 5
  const MAX_DEPTH: int := 10

  /** new_short.c's Process: counts of five syscalls. */
  type Process = s: seq<int> | |s| == MAX_SYSCALLS witness seq(MAX_SYSCALLS, _ => 0)

  /** new_short.c's Node, allocated zeroed by calloc: a leaf keeps
      split_attr and split_val at 0 and both child pointers NULL. */
  datatype Node = Node(
    splitAttr: int,
    splitVal: int,
    isLeaf: bool,
    left: Option<Node>,
    right: Option<Node>)

  /** The zeroed record build_tree returns as a leaf. */
  const Leaf: Node := Node(0, 0, true, None, None)

  // ---------------------------------------------------------- construction

  /** build_tree (new_short.c:29-43) with rand() as the stream `rand` read
      from cursor `pos`: a leaf at the depth cap or for at most one sample;
      otherwise the attribute is rand() % MAX_SYSCALLS, the split value
      rand() % 100, the left subtree is built over n / 2 samples and then the
      right one over the other n - n / 2. build_tree passes its sample array
      down without ever reading it, so the model takes only the count: the
      tree is a function of n, the depth and rand() alone. Returns the node
      and the cursor after the last draw. */
  function BuildTree(n: int, depth: int, rand: Stream, pos: nat): (r: (Node, nat))
    ensures pos <= r.1
    decreases MAX_DEPTH - depth
  {
    if depth >= MAX_DEPTH || n <= 1 then (Leaf, pos)
    else
      var attr := rand(pos) % MAX_SYSCALLS;
      var val := rand(pos + 1) % 100;
      var (left, afterLeft) := BuildTree(n / 2, depth + 1, rand, pos + 2);
      var (right, afterRight) := BuildTree(n - n / 2, depth + 1, rand, afterLeft);
      (Node(attr, val, false, Some(left), Some(right)), afterRight)
  }

  /** The shape of every tree build_tree can return for `n` samples from
      `depth`: a node is the zeroed leaf exactly when the depth cap is
      reached or at most one sample is left; otherwise it splits on an
      attribute in [0, MAX_SYSCALLS) at a value in [0, 100) and has both
      children, built over n / 2 and n - n / 2 samples one level deeper. */
  predicate Sound(node: Node, n: int, depth: int)
    decreases node
  {
    if depth >= MAX_DEPTH || n <= 1 then node == Leaf
    else
      Split(node) &&
      Sound(node.left.value, n / 2, depth + 1) &&
      Sound(node.right.value, n - n / 2, depth + 1)
  }

  /** An internal node as build_tree makes it: an attribute in
      [0, MAX_SYSCALLS), a value in [0, 100) and both children. */
  predicate Split(node: Node)
  {
    !node.isLeaf &&
    0 <= node.splitAttr < MAX_SYSCALLS && 0 <= node.splitVal < 100 &&
    node.left.Some? && node.right.Some?
  }

  /** Whatever rand() returns, build_tree yields a tree of that shape. */
  lemma {:induction false} BuildTreeSound(n: int, depth: int, rand: Stream, pos: nat)
    ensures Sound(BuildTree(n, depth, rand, pos).0, n, depth)
    decreases MAX_DEPTH - depth
  {
    if !(depth >= MAX_DEPTH || n <= 1) {
      BuildTreeSound(n / 2, depth + 1, rand, pos + 2);
      var afterLeft := BuildTree(n / 2, depth + 1, rand, pos + 2).1;
      BuildTreeSound(n - n / 2, depth + 1, rand, afterLeft);
    }
  }

  /** The two halves handed to the children are both non-empty and together
      hold every sample of an internal node. */
  lemma HalvesNonEmpty(n: int)
    requires n >= 2
    ensures n / 2 + (n - n / 2) == n
    ensures 1 <= n / 2 && 1 <= n - n / 2 && n / 2 <= n - n / 2 && n - n / 2 < n
  {
  }

  // ------------------------------------------------------------ path length

  /** The walk of get_path_length reads the query at split_attr and follows
      both child pointers of every node it does not stop at: each such node
      needs an attribute inside the profile and two children. */
  predicate Walkable(node: Node, depth: int)
    decreases node
  {
    node.isLeaf || depth >= MAX_DEPTH ||
    (0 <= node.splitAttr < MAX_SYSCALLS && node.left.Some? && node.right.Some? &&
     Walkable(node.left.value, depth + 1) && Walkable(node.right.value, depth + 1))
  }

  /** A tree of build_tree's shape never makes get_path_length dereference
      NULL or read outside the profile. */
  lemma {:induction false} SoundIsWalkable(node: Node, n: int, depth: int)
    requires Sound(node, n, depth)
    ensures Walkable(node, depth)
    decreases node
  {
    if !(depth >= MAX_DEPTH || n <= 1) {
      SoundIsWalkable(node.left.value, n / 2, depth + 1);
      SoundIsWalkable(node.right.value, n - n / 2, depth + 1);
    }
  }

  /** get_path_length (new_short.c:19-26): the depth at which the walk
      stops, at a leaf or at the depth cap, going left when the query's value
      is below the split and right otherwise. */
  function GetPathLength(node: Node, p: Process, depth: int): int
    requires Walkable(node, depth)
    decreases node
  {
    if node.isLeaf || depth >= MAX_DEPTH then depth
    else if p[node.splitAttr] < node.splitVal then GetPathLength(node.left.value, p, depth + 1)
    else GetPathLength(node.right.value, p, depth + 1)
  }

  /** The node at which get_path_length's walk stops. */
  function Reached(node: Node, p: Process, depth: int): Node
    requires Walkable(node, depth)
    decreases node
  {
    if node.isLeaf || depth >= MAX_DEPTH then node
    else if p[node.splitAttr] < node.splitVal then Reached(node.left.value, p, depth + 1)
    else Reached(node.right.value, p, depth + 1)
  }

  /** On a tree of build_tree's shape the depth cap in get_path_length never
      cuts a walk short: the walk always ends at a leaf. */
  lemma {:induction false} StopsAtLeaf(node: Node, n: int, depth: int, p: Process)
    requires Sound(node, n, depth)
    ensures Walkable(node, depth) && Reached(node, p, depth).isLeaf
    decreases node
  {
    SoundIsWalkable(node, n, depth);
    if !(depth >= MAX_DEPTH || n <= 1) {
      StopsAtLeaf(node.left.value, n / 2, depth + 1, p);
      StopsAtLeaf(node.right.value, n - n / 2, depth + 1, p);
    }
  }

  // ------------------------------------------------- depth of the halving tree

  /** 2 to the power k. */
  function Pow2(k: nat): nat
  {
    if k == 0 then 1 else 2 * Pow2(k - 1)
  }

  /** How often n can be halved rounding down before at most one is left. */
  function FloorLog(n: int): nat
    decreases n
  {
    if n <= 1 then 0 else 1 + FloorLog(n / 2)
  }

  /** How often n can be halved rounding up before at most one is left. */
  function CeilLog(n: int): nat
    decreases n
  {
    if n <= 1 then 0 else 1 + CeilLog(n - n / 2)
  }

  /** FloorLog is the floor of the base-2 logarithm. */
  lemma {:induction false} FloorLogIsLog(n: int)
    requires n >= 1
    ensures Pow2(FloorLog(n)) <= n < 2 * Pow2(FloorLog(n))
    decreases n
  {
    if n > 1 {
      FloorLogIsLog(n / 2);
    }
  }

  /** CeilLog is the ceiling of the base-2 logarithm. */
  lemma {:induction false} CeilLogIsLog(n: int)
    requires n >= 1
    ensures n <= Pow2(CeilLog(n)) && (n >= 2 ==> Pow2(CeilLog(n)) < 2 * n)
    decreases n
  {
    if n > 1 {
      CeilLogIsLog(n - n / 2);
    }
  }

  /** More samples never need fewer halvings rounding down. */
  lemma {:induction false} FloorLogMonotone(a: int, b: int)
    requires a <= b
    ensures FloorLog(a) <= FloorLog(b)
    decreases a
  {
    if a > 1 {
      FloorLogMonotone(a / 2, b / 2);
    }
  }

  /** More samples never need fewer halvings rounding up. */
  lemma {:induction false} CeilLogMonotone(a: int, b: int)
    requires a <= b
    ensures CeilLog(a) <= CeilLog(b)
    decreases a
  {
    if a > 1 {
      CeilLogMonotone(a - a / 2, b - b / 2);
    }
  }

  /** Halving n takes one step off both logarithms, and the smaller half
      needs no more steps than the larger one. */
  lemma HalvingLogs(n: int)
    requires n >= 2
    ensures FloorLog(n) == 1 + FloorLog(n / 2) && CeilLog(n) == 1 + CeilLog(n - n / 2)
    ensures FloorLog(n / 2) <= FloorLog(n - n / 2) && CeilLog(n / 2) <= CeilLog(n - n / 2)
  {
    FloorLogMonotone(n / 2, n - n / 2);
    CeilLogMonotone(n / 2, n - n / 2);
  }

  /** A depth cut off at the depth cap. */
  function Capped(d: int): int { if d <= MAX_DEPTH then d else MAX_DEPTH }

  /** Cutting off at the cap keeps the order of two depths. */
  lemma CappedMonotone(a: int, b: int)
    requires a <= b
    ensures Capped(a) <= Capped(b)
  {
  }

  /** The shallowest depth at which get_path_length can stop, over all
      queries. */
  function Shallowest(node: Node, depth: int): int
    requires Walkable(node, depth)
    decreases node
  {
    if node.isLeaf || depth >= MAX_DEPTH then depth
    else
      var l, r := Shallowest(node.left.value, depth + 1), Shallowest(node.right.value, depth + 1);
      if l <= r then l else r
  }

  /** The deepest depth at which get_path_length can stop, over all queries. */
  function Deepest(node: Node, depth: int): int
    requires Walkable(node, depth)
    decreases node
  {
    if node.isLeaf || depth >= MAX_DEPTH then depth
    else
      var l, r := Deepest(node.left.value, depth + 1), Deepest(node.right.value, depth + 1);
      if l >= r then l else r
  }

  /** Every query stops between the shallowest and the deepest stopping
      depth of the tree. */
  lemma {:induction false} WalkWithin(node: Node, p: Process, depth: int)
    requires Walkable(node, depth)
    ensures Shallowest(node, depth) <= GetPathLength(node, p, depth) <= Deepest(node, depth)
    decreases node
  {
    if !(node.isLeaf || depth >= MAX_DEPTH) {
      WalkWithin(node.left.value, p, depth + 1);
      WalkWithin(node.right.value, p, depth + 1);
    }
  }

  /** On a tree of build_tree's shape for n samples, no walk stops before
      floor(log2 n) levels below `depth` or the depth cap. */
  lemma {:induction false} ShallowestOfSound(node: Node, n: int, depth: int)
    requires Sound(node, n, depth) && 0 <= depth <= MAX_DEPTH
    ensures Walkable(node, depth)
    ensures Capped(depth + FloorLog(n)) <= Shallowest(node, depth)
    decreases node
  {
    SoundIsWalkable(node, n, depth);
    if depth < MAX_DEPTH && n > 1 {
      HalvingLogs(n);
      ShallowestOfSound(node.left.value, n / 2, depth + 1);
      ShallowestOfSound(node.right.value, n - n / 2, depth + 1);
      CappedMonotone(depth + FloorLog(n), depth + 1 + FloorLog(n - n / 2));
    }
  }

  /** On a tree of build_tree's shape for n samples, no walk goes more than
      ceil(log2 n) levels below `depth`, nor past the depth cap. */
  lemma {:induction false} DeepestOfSound(node: Node, n: int, depth: int)
    requires Sound(node, n, depth) && 0 <= depth <= MAX_DEPTH
    ensures Walkable(node, depth)
    ensures Deepest(node, depth) <= Capped(depth + CeilLog(n))
    decreases node
  {
    SoundIsWalkable(node, n, depth);
    if depth < MAX_DEPTH && n > 1 {
      HalvingLogs(n);
      DeepestOfSound(node.left.value, n / 2, depth + 1);
      DeepestOfSound(node.right.value, n - n / 2, depth + 1);
      CappedMonotone(depth + 1 + CeilLog(n / 2), depth + CeilLog(n));
    }
  }

  /** On a tree of build_tree's shape for n samples, every query travels
      at least floor(log2 n) levels below `depth`, or to the depth cap. */
  lemma PathLengthAtLeast(node: Node, n: int, depth: int, p: Process)
    requires Sound(node, n, depth) && 0 <= depth <= MAX_DEPTH
    ensures Walkable(node, depth)
    ensures Capped(depth + FloorLog(n)) <= GetPathLength(node, p, depth)
  {
    ShallowestOfSound(node, n, depth);
    WalkWithin(node, p, depth);
  }

  /** On a tree of build_tree's shape for n samples, no query travels more
      than ceil(log2 n) levels below `depth`, nor past the depth cap. */
  lemma PathLengthAtMost(node: Node, n: int, depth: int, p: Process)
    requires Sound(node, n, depth) && 0 <= depth <= MAX_DEPTH
    ensures Walkable(node, depth)
    ensures GetPathLength(node, p, depth) <= Capped(depth + CeilLog(n))
  {
    DeepestOfSound(node, n, depth);
    WalkWithin(node, p, depth);
  }

  /** Whatever the query, get_path_length on a tree of build_tree's shape
      for n samples returns between depth + floor(log2 n) and
      depth + ceil(log2 n), both capped at MAX_DEPTH. */
  lemma PathLengthBounds(node: Node, n: int, depth: int, p: Process)
    requires Sound(node, n, depth) && 0 <= depth <= MAX_DEPTH
    ensures Walkable(node, depth)
    ensures Capped(depth + FloorLog(n)) <= GetPathLength(node, p, depth) <= Capped(depth + CeilLog(n))
  {
    PathLengthAtLeast(node, n, depth, p);
    PathLengthAtMost(node, n, depth, p);
  }

  /** The tree main() builds over its ten training processes: every query,
      normal or attack, is isolated at depth 3 or 4. */
  lemma TenSamplesPathLength(rand: Stream, pos: nat, p: Process)
    ensures Walkable(BuildTree(10, 0, rand, pos).0, 0)
    ensures 3 <= GetPathLength(BuildTree(10, 0, rand, pos).0, p, 0) <= 4
  {
    BuildTreeSound(10, 0, rand, pos);
    PathLengthBounds(BuildTree(10, 0, rand, pos).0, 10, 0, p);
    LogsOfTen();
  }

  /** Ten samples halve to one in three steps rounding down and four rounding up. */
  lemma LogsOfTen()
    ensures FloorLog(10) == 3 && CeilLog(10) == 4
  {
    assert FloorLog(5) == 2 by { assert FloorLog(2) == 1; }
    assert CeilLog(5) == 3 by { assert CeilLog(3) == 2 by { assert CeilLog(2) == 1; } }
  }
}
