/** Feature vectors and the two loops every builder runs over the samples
    that reach a node: the min/max scan of one attribute and the partition
    of the index list around a split value. main.c and new.c share both
    (main.c:155-162 and main.c:174-185; new.c:38-42 and new.c:48-50). */
module Samples {

  /** Width of a syscall-frequency vector (MAX_SYSCALLS in main.c and new.c). */
  const MAX_SYSCALLS: int := 20

  /** One process's syscall-frequency profile. */
  type Profile = s: seq<int> | |s| == MAX_SYSCALLS witness seq(MAX_SYSCALLS, _ => 0)

  /** Every index in `idx` points into an array of `n` samples. */
  predicate IndicesIn(idx: seq<int>, n: int)
  {
    forall k :: 0 <= k < |idx| ==> 0 <= idx[k] < n
  }

  /** The value of attribute `attr` on each sample of the index list, in order. */
  function Values(data: seq<Profile>, idx: seq<int>, attr: int): (vals: seq<int>)
    requires IndicesIn(idx, |data|) && 0 <= attr < MAX_SYSCALLS
    ensures |vals| == |idx|
    ensures forall k :: 0 <= k < |idx| ==> vals[k] == data[idx[k]][attr]
    decreases |idx|
  {
    if idx == [] then [] else Values(data, idx[..|idx| - 1], attr) + [data[idx[|idx| - 1]][attr]]
  }

  function Min(a: int, b: int): int { if a <= b then a else b }

  function Max(a: int, b: int): int { if a >= b then a else b }

  /** The smallest element, folded from the front as the scan loop does. */
  function MinOf(s: seq<int>): (m: int)
    requires |s| > 0
    ensures m in s
    ensures forall k :: 0 <= k < |s| ==> m <= s[k]
  {
    if |s| == 1 then s[0] else Min(MinOf(s[..|s| - 1]), s[|s| - 1])
  }

  /** The largest element, folded from the front as the scan loop does. */
  function MaxOf(s: seq<int>): (m: int)
    requires |s| > 0
    ensures m in s
    ensures forall k :: 0 <= k < |s| ==> s[k] <= m
  {
    if |s| == 1 then s[0] else Max(MaxOf(s[..|s| - 1]), s[|s| - 1])
  }

  /** The indices whose attribute value is strictly below `split`, in order. */
  function Below(data: seq<Profile>, idx: seq<int>, attr: int, split: int): (left: seq<int>)
    requires IndicesIn(idx, |data|) && 0 <= attr < MAX_SYSCALLS
    ensures forall k :: 0 <= k < |left| ==> 0 <= left[k] < |data| && data[left[k]][attr] < split
    decreases |idx|
  {
    if idx == [] then []
    else
      var rest := Below(data, idx[..|idx| - 1], attr, split);
      var i := idx[|idx| - 1];
      if data[i][attr] < split then rest + [i] else rest
  }

  /** The indices whose attribute value is at or above `split`, in order. */
  function AtOrAbove(data: seq<Profile>, idx: seq<int>, attr: int, split: int): (right: seq<int>)
    requires IndicesIn(idx, |data|) && 0 <= attr < MAX_SYSCALLS
    ensures forall k :: 0 <= k < |right| ==> 0 <= right[k] < |data| && split <= data[right[k]][attr]
    decreases |idx|
  {
    if idx == [] then []
    else
      var rest := AtOrAbove(data, idx[..|idx| - 1], attr, split);
      var i := idx[|idx| - 1];
      if data[i][attr] < split then rest else rest + [i]
  }

  /** The partition puts every index on exactly one side: the two sides
      together are the original index list as a multiset, so their counts
      add up to the node's count. */
  lemma {:induction false} PartitionConserves(data: seq<Profile>, idx: seq<int>, attr: int, split: int)
    requires IndicesIn(idx, |data|) && 0 <= attr < MAX_SYSCALLS
    ensures multiset(Below(data, idx, attr, split)) + multiset(AtOrAbove(data, idx, attr, split)) == multiset(idx)
    ensures |Below(data, idx, attr, split)| + |AtOrAbove(data, idx, attr, split)| == |idx|
    decreases |idx|
  {
    if idx != [] {
      var init, i := idx[..|idx| - 1], idx[|idx| - 1];
      PartitionConserves(data, init, attr, split);
      assert idx == init + [i];
      assert multiset(idx) == multiset(init) + multiset{i};
      var l, r := Below(data, init, attr, split), AtOrAbove(data, init, attr, split);
      if data[i][attr] < split {
        assert Below(data, idx, attr, split) == l + [i];
        assert multiset(l + [i]) == multiset(l) + multiset{i};
        assert AtOrAbove(data, idx, attr, split) == r;
      } else {
        assert Below(data, idx, attr, split) == l;
        assert AtOrAbove(data, idx, attr, split) == r + [i];
        assert multiset(r + [i]) == multiset(r) + multiset{i};
      }
    }
  }

  /** The left side is empty exactly when no sample lies below the split. */
  lemma {:induction false} BelowEmptyIff(data: seq<Profile>, idx: seq<int>, attr: int, split: int)
    requires IndicesIn(idx, |data|) && 0 <= attr < MAX_SYSCALLS
    ensures Below(data, idx, attr, split) == [] <==> forall k :: 0 <= k < |idx| ==> split <= data[idx[k]][attr]
    decreases |idx|
  {
    if idx != [] {
      var init := idx[..|idx| - 1];
      BelowEmptyIff(data, init, attr, split);
      assert forall k :: 0 <= k < |init| ==> init[k] == idx[k];
    }
  }

  /** The right side is empty exactly when every sample lies below the split. */
  lemma {:induction false} AtOrAboveEmptyIff(data: seq<Profile>, idx: seq<int>, attr: int, split: int)
    requires IndicesIn(idx, |data|) && 0 <= attr < MAX_SYSCALLS
    ensures AtOrAbove(data, idx, attr, split) == [] <==> forall k :: 0 <= k < |idx| ==> data[idx[k]][attr] < split
    decreases |idx|
  {
    if idx != [] {
      var init := idx[..|idx| - 1];
      AtOrAboveEmptyIff(data, init, attr, split);
      assert forall k :: 0 <= k < |init| ==> init[k] == idx[k];
    }
  }

  /** For a split drawn from [min, max] of the attribute: the sample holding
      the maximum always goes right, so the right side is never empty, and
      the left side is empty exactly when the split equals the minimum. */
  lemma SplitSides(data: seq<Profile>, idx: seq<int>, attr: int, split: int)
    requires IndicesIn(idx, |data|) && 0 <= attr < MAX_SYSCALLS && |idx| > 0
    requires MinOf(Values(data, idx, attr)) <= split <= MaxOf(Values(data, idx, attr))
    ensures AtOrAbove(data, idx, attr, split) != []
    ensures Below(data, idx, attr, split) == [] <==> split == MinOf(Values(data, idx, attr))
  {
    var vals := Values(data, idx, attr);
    var lo, hi := MinOf(vals), MaxOf(vals);
    BelowEmptyIff(data, idx, attr, split);
    AtOrAboveEmptyIff(data, idx, attr, split);
    var kHi :| 0 <= kHi < |vals| && vals[kHi] == hi;
    assert split <= data[idx[kHi]][attr];
    if split != lo {
      var kLo :| 0 <= kLo < |vals| && vals[kLo] == lo;
      assert data[idx[kLo]][attr] < split;
    } else {
      forall k | 0 <= k < |idx| ensures split <= data[idx[k]][attr] {
        assert vals[k] == data[idx[k]][attr];
      }
    }
  }

  /** After scanning the first `i` indices, `below` and `atOrAbove` are the
      two sides of that prefix. */
  ghost predicate Scanned(data: seq<Profile>, idx: seq<int>, attr: int, split: int, i: int, below: seq<int>, atOrAbove: seq<int>)
  {
    IndicesIn(idx, |data|) && 0 <= attr < MAX_SYSCALLS && 0 <= i <= |idx| &&
    below == Below(data, idx[..i], attr, split) && atOrAbove == AtOrAbove(data, idx[..i], attr, split)
  }

  /** Scanning one more index appends it to exactly one side. */
  lemma ScanStep(data: seq<Profile>, idx: seq<int>, attr: int, split: int, i: int, below: seq<int>, atOrAbove: seq<int>)
    requires Scanned(data, idx, attr, split, i, below, atOrAbove) && i < |idx|
    ensures data[idx[i]][attr] < split ==> Scanned(data, idx, attr, split, i + 1, below + [idx[i]], atOrAbove)
    ensures split <= data[idx[i]][attr] ==> Scanned(data, idx, attr, split, i + 1, below, atOrAbove + [idx[i]])
  {
    assert idx[..i + 1][..i] == idx[..i];
  }

  /** Extending the scanned prefix by one element folds it into the
      running minimum and maximum. */
  lemma RangeStep(s: seq<int>, i: int)
    requires 0 < i < |s|
    ensures MinOf(s[..i + 1]) == Min(MinOf(s[..i]), s[i])
    ensures MaxOf(s[..i + 1]) == Max(MaxOf(s[..i]), s[i])
  {
    assert s[..i + 1][..i] == s[..i];
  }

  /** The min/max scan over the node's samples (main.c:155-162, new.c:38-42):
      the result is the true minimum and maximum of the attribute. */
  method AttributeRange(data: seq<Profile>, idx: seq<int>, attr: int) returns (lo: int, hi: int)
    requires IndicesIn(idx, |data|) && 0 <= attr < MAX_SYSCALLS && |idx| > 0
    ensures lo == MinOf(Values(data, idx, attr)) && hi == MaxOf(Values(data, idx, attr))
  {
    ghost var vals := Values(data, idx, attr);
    lo := data[idx[0]][attr];
    hi := lo;
    var i := 1;
    while i < |idx|
      invariant 1 <= i <= |idx|
      invariant lo == MinOf(vals[..i]) && hi == MaxOf(vals[..i])
    {
      var val := data[idx[i]][attr];
      RangeStep(vals, i);
      if val < lo { lo := val; }
      if val > hi { hi := val; }
      i := i + 1;
    }
    assert vals[..|idx|] == vals;
  }

  /** The partition loop (main.c:174-185, new.c:48-50): two buffers of the
      node's size filled with running counters, left for values strictly
      below the split and right for the rest, each in the original order. */
  method Partition(data: seq<Profile>, idx: seq<int>, attr: int, split: int) returns (left: seq<int>, right: seq<int>)
    requires IndicesIn(idx, |data|) && 0 <= attr < MAX_SYSCALLS
    ensures left == Below(data, idx, attr, split)
    ensures right == AtOrAbove(data, idx, attr, split)
  {
    var n := |idx|;
    var leftBuf := new int[n];
    var rightBuf := new int[n];
    var leftCount, rightCount := 0, 0;
    ghost var below, atOrAbove := [], [];
    var i := 0;
    while i < n
      invariant 0 <= i <= n && leftCount == |below| && rightCount == |atOrAbove| && leftCount + rightCount == i
      invariant leftBuf[..leftCount] == below && rightBuf[..rightCount] == atOrAbove
      invariant Scanned(data, idx, attr, split, i, below, atOrAbove)
    {
      ScanStep(data, idx, attr, split, i, below, atOrAbove);
      var val := data[idx[i]][attr];
      if val < split {
        leftBuf[leftCount] := idx[i];
        below := below + [idx[i]];
        leftCount := leftCount + 1;
      } else {
        rightBuf[rightCount] := idx[i];
        atOrAbove := atOrAbove + [idx[i]];
        rightCount := rightCount + 1;
      }
      i := i + 1;
    }
    assert idx[..n] == idx;
    left, right := leftBuf[..leftCount], rightBuf[..rightCount];
  }
}
