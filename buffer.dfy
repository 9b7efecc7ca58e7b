/** Copying a run of elements into a pre-sized buffer: `std::copy` into `_Names`, and a pixel's samples stored through its cursor. */
module Buffer {

  /** Overwrites `dst[at .. at + |src|]` with `src`; every other element is left as it was. */
  method CopyInto<T>(dst: array<T>, at: nat, src: seq<T>)
    requires at + |src| <= dst.Length
    modifies dst
    ensures dst[..] == old(dst[..at]) + src + old(dst[at + |src|..])
    ensures dst[at .. at + |src|] == src
    ensures dst[..at + |src|] == old(dst[..at]) + src
    ensures forall k :: 0 <= k < dst.Length && !(at <= k < at + |src|) ==> dst[k] == old(dst[k])
  {
    var j := 0;
    while j < |src|
      invariant 0 <= j <= |src|
      invariant forall k :: 0 <= k < j ==> dst[at + k] == src[k]
      invariant forall k :: 0 <= k < dst.Length && !(at <= k < at + j) ==> dst[k] == old(dst[k])
    {
      dst[at + j] := src[j];
      j := j + 1;
    }
    assert dst[at .. at + |src|] == src;
    assert dst[..at + |src|] == old(dst[..at]) + src;
    assert dst[..] == old(dst[..at]) + src + old(dst[at + |src|..]);
  }
}
