/**
 * The in-place exclusive prefix sum the Mask constructors run over
 * `_NamesIndexes` (name sizes to name offsets) and over `_PixelsIndexes`
 * (sample counts to sample offsets), with its `uint32_t` running index, and
 * its inverse, the per-pixel counts `write` recovers from adjacent offsets.
 */
module PrefixSum {
  import opened Uint32

  /** The exact (unbounded) sum of a sequence of counts. */
  function Sum(s: seq<u32>): nat
  {
    if s == [] then 0 else Sum(s[..|s| - 1]) + s[|s| - 1] as nat
  }

  /** Slot k of the accumulated array: the uint32 sum of the counts before k. */
  function PrefixSums(s: seq<u32>): seq<u32>
  {
    seq(|s|, k requires 0 <= k < |s| => ToU32(Sum(s[..k])))
  }

  /** The counts read back from offsets: `offs[i+1] - offs[i]` in uint32 arithmetic. */
  function Deltas(offs: seq<u32>): seq<u32>
    requires |offs| >= 1
  {
    seq(|offs| - 1, i requires 0 <= i < |offs| - 1 => ToU32(offs[i + 1] as int - offs[i] as int))
  }

  lemma SumStep(s: seq<u32>, k: nat)
    requires k < |s|
    ensures Sum(s[..k + 1]) == Sum(s[..k]) + s[k] as nat
  {
    assert s[..k + 1][..k] == s[..k];
  }

  /**
   * Replaces every count by the running uint32 total of the counts before
   * it, and returns the final running total.
   */
  method Accumulate(a: array<u32>) returns (index: u32)
    modifies a
    ensures a[..] == PrefixSums(old(a[..]))
    ensures index == ToU32(Sum(old(a[..])))
  {
    ghost var counts := a[..];
    index := 0;
    var i := 0;
    while i < a.Length
      invariant 0 <= i <= a.Length
      invariant forall k :: 0 <= k < i ==> a[k] == ToU32(Sum(counts[..k]))
      invariant forall k :: i <= k < a.Length ==> a[k] == counts[k]
      invariant index == ToU32(Sum(counts[..i]))
    {
      var n := a[i];
      assert n == counts[i];
      a[i] := index;
      SumStep(counts, i);
      WrapAdd(Sum(counts[..i]), n as int);
      index := ToU32(index as int + n as int);
      assert index == ToU32(Sum(counts[..i + 1]));
      i := i + 1;
    }
    assert counts[..a.Length] == counts;
    assert forall k :: 0 <= k < a.Length ==> a[..][k] == PrefixSums(counts)[k];
  }

  lemma {:induction false} SumPrefixBounded(s: seq<u32>, k: nat)
    requires k <= |s|
    ensures Sum(s[..k]) <= Sum(s)
    decreases |s| - k
  {
    if k < |s| {
      SumStep(s, k);
      SumPrefixBounded(s, k + 1);
    } else {
      assert s[..k] == s;
    }
  }

  /**
   * When the total fits in 32 bits nothing wraps: the accumulated entries are
   * the exact sums of the counts before them, they start at 0 and never
   * decrease.
   */
  lemma PrefixSumsExact(s: seq<u32>)
    requires Sum(s) < MOD
    ensures |PrefixSums(s)| == |s|
    ensures forall k :: 0 <= k < |s| ==> PrefixSums(s)[k] as int == Sum(s[..k])
    ensures |s| > 0 ==> PrefixSums(s)[0] == 0
    ensures forall i, j :: 0 <= i <= j < |s| ==> PrefixSums(s)[i] <= PrefixSums(s)[j]
  {
    forall k | 0 <= k < |s|
      ensures PrefixSums(s)[k] as int == Sum(s[..k])
    {
      SumPrefixBounded(s, k);
    }
    forall i, j | 0 <= i <= j < |s|
      ensures PrefixSums(s)[i] <= PrefixSums(s)[j]
    {
      SumPrefixBounded(s[..j], i);
      assert s[..j][..i] == s[..i];
    }
  }

  /**
   * The pixel-index layout: the counts followed by one extra slot holding 0,
   * accumulated, give W*H+1 offsets starting at 0, non-decreasing, and ending
   * at the total number of samples.
   */
  lemma OffsetsOfCounts(counts: seq<u32>)
    requires Sum(counts) < MOD
    ensures |PrefixSums(counts + [0])| == |counts| + 1
    ensures PrefixSums(counts + [0])[0] == 0
    ensures forall i, j :: 0 <= i <= j <= |counts| ==> PrefixSums(counts + [0])[i] <= PrefixSums(counts + [0])[j]
    ensures PrefixSums(counts + [0])[|counts|] as int == Sum(counts)
    ensures Sum(counts + [0]) == Sum(counts)
  {
    var s := counts + [0];
    assert s[..|s| - 1] == counts;
    assert s[..|counts|] == counts;
    PrefixSumsExact(s);
  }

  /**
   * Counts to offsets to counts: the differences of adjacent accumulated
   * entries give back the original counts, even when the running total wraps.
   */
  lemma DeltasOfPrefixSums(counts: seq<u32>)
    ensures Deltas(PrefixSums(counts + [0])) == counts
  {
    var offs := PrefixSums(counts + [0]);
    forall i | 0 <= i < |counts|
      ensures Deltas(offs)[i] == counts[i]
    {
      DeltaOfPrefixSums(counts + [0], i);
    }
  }

  /** One difference of adjacent accumulated entries is the count between them. */
  lemma DeltaOfPrefixSums(s: seq<u32>, i: nat)
    requires i + 1 < |s|
    ensures ToU32(PrefixSums(s)[i + 1] as int - PrefixSums(s)[i] as int) == s[i]
  {
    var a, b := Sum(s[..i + 1]), Sum(s[..i]);
    SumStep(s, i);
    WrapSub(a, b);
    Fits(s[i] as int);
  }

  /**
   * Offsets to counts to offsets: feeding the recovered counts back through
   * the accumulation loop reproduces any offset array that starts at 0.
   */
  lemma PrefixSumsOfDeltas(offs: seq<u32>)
    requires |offs| >= 1 && offs[0] == 0
    ensures PrefixSums(Deltas(offs) + [0]) == offs
  {
    var s := Deltas(offs) + [0];
    forall k | 0 <= k < |offs|
      ensures ToU32(Sum(s[..k])) == offs[k]
    {
      PrefixOfDeltas(offs, k);
    }
  }

  lemma {:induction false} PrefixOfDeltas(offs: seq<u32>, k: nat)
    requires |offs| >= 1 && offs[0] == 0 && k < |offs|
    ensures ToU32(Sum((Deltas(offs) + [0])[..k])) == offs[k]
  {
    var s := Deltas(offs) + [0];
    if k > 0 {
      var before, step := Sum(s[..k - 1]), s[k - 1];
      var diff := offs[k] as int - offs[k - 1] as int;
      PrefixOfDeltas(offs, k - 1);
      assert ToU32(before) == offs[k - 1];
      SumStep(s, k - 1);
      assert step == ToU32(diff);
      WrapAdd(before, step as int);
      WrapAdd(diff, offs[k - 1] as int);
      assert ToU32(diff + offs[k - 1] as int) == offs[k];
    }
  }
}
