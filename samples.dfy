/**
 * The per-pixel samples of a mask and their compressed-row layout: all
 * pixels' sample lists concatenated in one flat array, pixel p owning the
 * half-open range that starts after the samples of the pixels before it.
 */
module SampleStore {
  import opened Uint32
  import PrefixSum

  /** A coverage value: the 32-bit float is carried through untouched, so only its bits are kept. */
  type Coverage = bv32

  /** One sample of a pixel: an object id and that object's coverage of the pixel. */
  datatype Sample = Sample(id: u32, coverage: Coverage)

  /** The per-pixel lists concatenated in pixel order. */
  function Flatten<T>(lists: seq<seq<T>>): seq<T>
  {
    if lists == [] then [] else Flatten(lists[..|lists| - 1]) + lists[|lists| - 1]
  }

  /** Where pixel p's samples start in the concatenation: the number of samples of the pixels before it. */
  function Start<T>(lists: seq<seq<T>>, p: nat): nat
    requires p <= |lists|
  {
    |Flatten(lists[..p])|
  }

  /** Concatenation distributes over splitting the pixel sequence. */
  lemma {:induction false} FlattenAppend<T>(a: seq<seq<T>>, b: seq<seq<T>>)
    ensures Flatten(a + b) == Flatten(a) + Flatten(b)
    decreases |b|
  {
    if b == [] {
      assert a + b == a;
    } else {
      var last := |b| - 1;
      FlattenAppend(a, b[..last]);
      assert (a + b)[..|a + b| - 1] == a + b[..last];
    }
  }

  /** The samples of the pixels before `j` are those before `i` followed by those from `i` to `j`. */
  lemma FlattenSplit<T>(lists: seq<seq<T>>, i: nat, j: nat)
    requires i <= j <= |lists|
    ensures Flatten(lists[..j]) == Flatten(lists[..i]) + Flatten(lists[i .. j])
  {
    assert lists[..j] == lists[..i] + lists[i .. j];
    FlattenAppend(lists[..i], lists[i .. j]);
  }

  /** Pixel p's samples follow those of the pixels before it. */
  lemma FlattenStep<T>(lists: seq<seq<T>>, p: nat)
    requires p < |lists|
    ensures Flatten(lists[..p + 1]) == Flatten(lists[..p]) + lists[p]
  {
    assert lists[..p + 1][..p] == lists[..p];
  }

  /** The start of a pixel's range never lies before the start of an earlier pixel's. */
  lemma {:induction false} FlattenPrefixMono<T>(lists: seq<seq<T>>, p: nat, q: nat)
    requires p <= q <= |lists|
    ensures |Flatten(lists[..p])| <= |Flatten(lists[..q])|
    decreases q - p
  {
    if p < q {
      FlattenStep(lists, p);
      FlattenPrefixMono(lists, p + 1, q);
    }
  }

  /**
   * The compressed-row slice: in the concatenation, the range from the
   * number of samples before pixel p to the number up to and including it
   * holds exactly pixel p's samples, in order and with duplicates.
   */
  lemma PixelSlice<T>(lists: seq<seq<T>>, p: nat)
    requires p < |lists|
    ensures |Flatten(lists[..p])| + |lists[p]| == |Flatten(lists[..p + 1])| <= |Flatten(lists)|
    ensures Flatten(lists)[|Flatten(lists[..p])| .. |Flatten(lists[..p + 1])|] == lists[p]
  {
    assert lists == lists[..p + 1] + lists[p + 1..];
    FlattenAppend(lists[..p + 1], lists[p + 1..]);
    FlattenStep(lists, p);
  }

  /**
   * Sample counts that give each pixel's number of samples add up to the
   * number of samples of all the pixels.
   */
  lemma {:induction false} CountsMeasure(counts: seq<u32>, lists: seq<seq<Sample>>)
    requires |counts| == |lists|
    requires forall p :: 0 <= p < |lists| ==> |lists[p]| == counts[p] as int
    ensures PrefixSum.Sum(counts) == |Flatten(lists)|
    decreases |lists|
  {
    if lists != [] {
      CountsMeasure(counts[..|counts| - 1], lists[..|lists| - 1]);
    }
  }

  /**
   * The offsets the reading constructor accumulates from the file's counts
   * (plus the extra final slot) are the compressed-row starts of its pixels.
   */
  lemma OffsetsOfFileCounts(counts: seq<u32>, lists: seq<seq<Sample>>)
    requires |counts| == |lists|
    requires forall p :: 0 <= p < |lists| ==> |lists[p]| == counts[p] as int
    requires PrefixSum.Sum(counts) < MOD
    ensures PrefixSum.Sum(counts + [0]) == |Flatten(lists)|
    ensures |PrefixSum.PrefixSums(counts + [0])| == |lists| + 1
    ensures forall p {:trigger PrefixSum.PrefixSums(counts + [0])[p]} :: 0 <= p <= |lists| ==> PrefixSum.PrefixSums(counts + [0])[p] as int == |Flatten(lists[..p])|
  {
    var s := counts + [0];
    PrefixSum.OffsetsOfCounts(counts);
    CountsMeasure(counts, lists);
    PrefixSum.PrefixSumsExact(s);
    forall p | 0 <= p <= |lists|
      ensures PrefixSum.PrefixSums(s)[p] as int == |Flatten(lists[..p])|
    {
      if p < |lists| {
        assert s[..p] == counts[..p];
      } else {
        assert s[..p] == counts;
        assert lists[..p] == lists;
      }
      CountsMeasure(counts[..p], lists[..p]);
    }
  }
}
