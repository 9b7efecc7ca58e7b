/**
 * The name table of a mask: every object name packed back to back into one
 * character buffer, each followed by a NUL, and one offset per object id
 * giving where that id's name starts.
 */
module NameTable {
  import opened Uint32
  import PrefixSum
  import Buffer

  const NUL: char := '\0'

  /**
   * `strnlen(&s[from], |s| - from)`: the length of the run starting at
   * `from` that stops at the first NUL or at the end of the buffer.
   */
  function StrNLen(s: seq<char>, from: nat): (r: nat)
    requires from <= |s|
    ensures from + r <= |s|
    ensures forall k :: from <= k < from + r ==> s[k] != NUL
    ensures from + r == |s| || s[from + r] == NUL
    decreases |s| - from
  {
    if from == |s| || s[from] == NUL then 0 else 1 + StrNLen(s, from + 1)
  }

  /**
   * The offsets the scanning loops visit from `index` on: none when the scan
   * starts at or past the end, otherwise `index` itself and then the offsets
   * found one past the NUL (or the end) that closes the name at `index`.
   */
  function NameStarts(s: seq<char>, index: nat): (r: seq<nat>)
    ensures r == [] <==> index >= |s|
    ensures |r| > 0 ==> r[0] == index
    decreases |s| - index
  {
    if index >= |s| then [] else [index] + NameStarts(s, index + StrNLen(s, index) + 1)
  }

  /**
   * The scan never reads past the buffer: every recorded offset lies inside
   * it, and the offsets strictly increase, so no two ids share a name.
   */
  lemma {:induction false} NameStartsInBuffer(s: seq<char>, index: nat)
    ensures forall k :: 0 <= k < |NameStarts(s, index)| ==> index <= NameStarts(s, index)[k] < |s|
    ensures forall i, j :: 0 <= i < j < |NameStarts(s, index)| ==> NameStarts(s, index)[i] < NameStarts(s, index)[j]
    decreases |s| - index
  {
    if index < |s| {
      var next := index + StrNLen(s, index) + 1;
      NameStartsInBuffer(s, next);
      assert NameStarts(s, index) == [index] + NameStarts(s, next);
    }
  }

  lemma NameStartsUnfold(s: seq<char>, index: nat)
    requires index < |s|
    ensures NameStarts(s, index) == [index] + NameStarts(s, index + StrNLen(s, index) + 1)
  {
  }

  /**
   * Consecutive offsets: each next name starts one past the NUL that ends the
   * previous one.
   */
  lemma {:induction false} NameStartsStep(s: seq<char>, index: nat, k: nat)
    requires k + 1 < |NameStarts(s, index)|
    ensures NameStarts(s, index)[k] < |s|
    ensures NameStarts(s, index)[k + 1] == NameStarts(s, index)[k] + StrNLen(s, NameStarts(s, index)[k]) + 1
    decreases |s| - index
  {
    var next := index + StrNLen(s, index) + 1;
    assert NameStarts(s, index) == [index] + NameStarts(s, next);
    NameStartsInBuffer(s, index);
    if k > 0 {
      NameStartsStep(s, next, k - 1);
    }
  }

  /**
   * No name is skipped and none is invented: scanning from the start of a
   * name records exactly the offsets from there on that begin a run, that
   * is, the start itself and every position right after a NUL.
   */
  lemma {:induction false} NameStartsExact(s: seq<char>, index: nat, k: nat)
    requires index <= |s| && (index == 0 || s[index - 1] == NUL)
    ensures k in NameStarts(s, index) <==> (index <= k < |s| && (k == index || s[k - 1] == NUL))
    decreases |s| - index
  {
    if index < |s| {
      var next := index + StrNLen(s, index) + 1;
      NameStartsUnfold(s, index);
      if next <= |s| {
        NameStartsExact(s, next, k);
      } else {
        assert NameStarts(s, next) == [];
      }
    }
  }

  /** The name a C string read at offset `off` of the buffer yields. */
  function NameAt(s: seq<char>, off: nat): string
    requires off <= |s|
  {
    s[off .. off + StrNLen(s, off)]
  }

  /** The first scan of the reading constructor: counts the names in the buffer. */
  method CountNames(names: seq<char>) returns (namesN: int)
    ensures namesN == |NameStarts(names, 0)|
    ensures namesN == 0 <==> names == []
  {
    namesN := 0;
    var index: nat := 0;
    while index < |names|
      invariant namesN + |NameStarts(names, index)| == |NameStarts(names, 0)|
      decreases |names| - index
    {
      index := index + StrNLen(names, index) + 1;
      namesN := namesN + 1;
    }
  }

  /**
   * The second scan: records the offset of every name, into a table sized by
   * the first scan; the two scans agree, so the table is filled exactly.
   */
  method IndexNames(names: seq<char>, namesN: int) returns (indexes: array<u32>)
    requires namesN == |NameStarts(names, 0)|
    ensures fresh(indexes)
    ensures indexes.Length == namesN
    ensures forall k :: 0 <= k < namesN ==> indexes[k] == ToU32(NameStarts(names, 0)[k])
  {
    ghost var starts := NameStarts(names, 0);
    indexes := new u32[namesN];
    var size := 0;
    var index: nat := 0;
    while index < |names|
      invariant 0 <= size <= namesN
      invariant starts[size..] == NameStarts(names, index)
      invariant forall k :: 0 <= k < size ==> indexes[k] == ToU32(starts[k])
      decreases |names| - index
    {
      indexes[size] := ToU32(index);
      size := size + 1;
      index := index + StrNLen(names, index) + 1;
    }
    assert size == namesN;
  }

  /** Offset of name `id` when names are packed in id order: the sizes, NUL included, of all names before it. */
  function NameOffset(byId: seq<string>, id: nat): nat
    requires id <= |byId|
  {
    if id == 0 then 0 else NameOffset(byId, id - 1) + |byId[id - 1]| + 1
  }

  /** The buffer size the packed names need. */
  function NamesSize(byId: seq<string>): nat
  {
    NameOffset(byId, |byId|)
  }

  /** What the first loop of the building constructor stores at each id: the name's length plus one, as a uint32. */
  function Sizes(byId: seq<string>): seq<u32>
  {
    seq(|byId|, id requires 0 <= id < |byId| => ToU32(|byId[id]| + 1))
  }

  /**
   * The ids of `nameToId` are exactly 0..N-1, each used once; `byId` lists
   * the names in id order.
   */
  predicate DenseIds(nameToId: map<string, u32>, byId: seq<string>)
  {
    |nameToId| == |byId| &&
    (forall id :: 0 <= id < |byId| ==> byId[id] in nameToId && nameToId[byId[id]] as int == id) &&
    (forall name :: name in nameToId ==> nameToId[name] as int < |byId| && byId[nameToId[name]] == name)
  }

  /** `name` sits at `off` in the buffer, followed by a NUL. */
  predicate Stored(s: seq<char>, off: nat, name: string)
  {
    off + |name| < |s| && s[off .. off + |name|] == name && s[off + |name|] == NUL
  }

  lemma {:induction false} NameOffsetMono(byId: seq<string>, i: nat, j: nat)
    requires i <= j <= |byId|
    ensures NameOffset(byId, i) <= NameOffset(byId, j)
    ensures i < j ==> NameOffset(byId, i) + |byId[i]| + 1 <= NameOffset(byId, j)
    decreases j
  {
    if i < j {
      NameOffsetMono(byId, i, j - 1);
    }
  }

  /**
   * The accumulation loop turns the name sizes into the packed offsets: the
   * offset of each id is the sum of the sizes of the ids before it, and the
   * final running index is the buffer size, provided the total fits in 32 bits.
   */
  lemma SizesAccumulateToOffsets(byId: seq<string>)
    requires NamesSize(byId) < MOD
    ensures PrefixSum.Sum(Sizes(byId)) == NamesSize(byId)
    ensures forall id {:trigger PrefixSum.PrefixSums(Sizes(byId))[id]} :: 0 <= id < |byId| ==>
      PrefixSum.PrefixSums(Sizes(byId))[id] as int == NameOffset(byId, id)
  {
    var sizes := Sizes(byId);
    SumOfSizes(byId, |byId|);
    assert sizes[..|byId|] == sizes;
    forall id {:trigger PrefixSum.PrefixSums(sizes)[id]} | 0 <= id < |byId|
      ensures PrefixSum.PrefixSums(sizes)[id] as int == NameOffset(byId, id)
    {
      SumOfSizes(byId, id);
      NameOffsetMono(byId, id, |byId|);
      Fits(NameOffset(byId, id));
    }
  }

  lemma {:induction false} SumOfSizes(byId: seq<string>, id: nat)
    requires id <= |byId| && NamesSize(byId) < MOD
    ensures PrefixSum.Sum(Sizes(byId)[..id]) == NameOffset(byId, id)
  {
    if id > 0 {
      SumOfSizes(byId, id - 1);
      PrefixSum.SumStep(Sizes(byId), id - 1);
      NameOffsetMono(byId, id - 1, |byId|);
    }
  }

  /**
   * The name table the building constructor lays out: `offs[id]` is the
   * packed offset of name `id`, that name is stored there followed by its
   * NUL, and the buffer is exactly as long as the packed names.
   */
  ghost predicate Packed(s: seq<char>, offs: seq<u32>, byId: seq<string>)
  {
    |offs| == |byId| && |s| == NamesSize(byId) &&
    forall id {:trigger offs[id]} :: 0 <= id < |offs| ==>
      offs[id] as int == NameOffset(byId, id) && Stored(s, offs[id] as int, byId[id])
  }

  /**
   * In a packed table every offset points into the buffer and offsets
   * strictly increase with the id, so no two ids share a start.
   */
  lemma PackedIncreasing(s: seq<char>, offs: seq<u32>, byId: seq<string>)
    requires Packed(s, offs, byId)
    ensures forall id :: 0 <= id < |offs| ==> offs[id] as int < |s|
    ensures forall i, j :: 0 <= i < j < |offs| ==> offs[i] < offs[j]
  {
    forall i, j | 0 <= i < j < |offs|
      ensures offs[i] < offs[j]
    {
      NameOffsetMono(byId, i, j);
    }
  }

  /** The offsets the accumulation gives are the packed offsets, and each name with its NUL fits in the buffer. */
  lemma {:induction false} PackedOffsets(byId: seq<string>, offs: seq<u32>)
    requires NamesSize(byId) < MOD
    requires offs == PrefixSum.PrefixSums(Sizes(byId))
    ensures |offs| == |byId|
    ensures forall id {:trigger offs[id]} :: 0 <= id < |byId| ==>
      offs[id] as int == NameOffset(byId, id) && offs[id] as int + |byId[id]| < NamesSize(byId)
  {
    SizesAccumulateToOffsets(byId);
    forall id {:trigger offs[id]} | 0 <= id < |byId|
      ensures offs[id] as int == NameOffset(byId, id) && offs[id] as int + |byId[id]| < NamesSize(byId)
    {
      NameOffsetMono(byId, id + 1, |byId|);
    }
  }

  /** The first loop of the building constructor: stores each name's size at its id. */
  method StoreNameSizes(nameToId: map<string, u32>, ghost byId: seq<string>) returns (indexes: array<u32>)
    requires DenseIds(nameToId, byId)
    ensures fresh(indexes)
    ensures indexes[..] == Sizes(byId)
  {
    indexes := new u32[|nameToId|](_ => 0);
    var remaining := nameToId.Keys;
    while remaining != {}
      invariant remaining <= nameToId.Keys
      invariant forall id :: 0 <= id < |byId| ==>
        indexes[id] == if byId[id] in remaining then 0 else ToU32(|byId[id]| + 1)
      decreases |remaining|
    {
      var name :| name in remaining;
      indexes[nameToId[name]] := ToU32(|name| + 1);
      remaining := remaining - {name};
    }
  }

  /**
   * Progress of the copy loop: every name's terminating NUL is in place,
   * and every name no longer in `remaining` is in place.
   */
  ghost predicate NamesCopied(s: seq<char>, byId: seq<string>, offs: seq<u32>, remaining: set<string>)
  {
    |offs| == |byId| &&
    (forall id {:trigger offs[id]} :: 0 <= id < |byId| ==>
      offs[id] as int + |byId[id]| < |s| && s[offs[id] as int + |byId[id]|] == NUL) &&
    (forall id {:trigger offs[id]} :: 0 <= id < |byId| && byId[id] !in remaining ==>
      s[offs[id] .. offs[id] as int + |byId[id]|] == byId[id])
  }

  /**
   * Copying the name with id `j` at its offset keeps every other name and
   * every NUL where it was, because packed names never overlap.
   */
  lemma CopyOne(before: seq<char>, after: seq<char>, byId: seq<string>, offs: seq<u32>, remaining: set<string>, j: nat)
    requires NamesCopied(before, byId, offs, remaining)
    requires j < |byId|
    requires forall id {:trigger offs[id]} :: 0 <= id < |byId| ==> offs[id] as int == NameOffset(byId, id)
    requires after == before[..offs[j]] + byId[j] + before[offs[j] as int + |byId[j]|..]
    requires forall i, k :: 0 <= i < k < |byId| ==> byId[i] != byId[k]
    ensures NamesCopied(after, byId, offs, remaining - {byId[j]})
  {
    var at := offs[j] as int;
    forall id {:trigger offs[id]} | 0 <= id < |byId|
      ensures offs[id] as int + |byId[id]| < |after| && after[offs[id] as int + |byId[id]|] == NUL
      ensures byId[id] !in remaining - {byId[j]} ==>
        after[offs[id] .. offs[id] as int + |byId[id]|] == byId[id]
    {
      var o := offs[id] as int;
      if id < j {
        NameOffsetMono(byId, id, j);
        assert after[o .. o + |byId[id]|] == before[o .. o + |byId[id]|];
      } else if j < id {
        NameOffsetMono(byId, j, id);
        assert after[o .. o + |byId[id]|] == before[o .. o + |byId[id]|];
      } else {
        assert after[o .. o + |byId[id]|] == byId[j];
      }
    }
  }

  /**
   * The last loop of the building constructor: copies each name at its
   * offset into the NUL-filled buffer.
   */
  method CopyNames(names: array<char>, nameToId: map<string, u32>, ghost byId: seq<string>, offs: seq<u32>)
    requires DenseIds(nameToId, byId)
    requires names.Length == NamesSize(byId)
    requires forall k :: 0 <= k < names.Length ==> names[k] == NUL
    requires |offs| == |byId|
    requires forall id {:trigger offs[id]} :: 0 <= id < |byId| ==>
      offs[id] as int == NameOffset(byId, id) && offs[id] as int + |byId[id]| < NamesSize(byId)
    modifies names
    ensures Packed(names[..], offs, byId)
  {
    var remaining := nameToId.Keys;
    while remaining != {}
      invariant remaining <= nameToId.Keys
      invariant NamesCopied(names[..], byId, offs, remaining)
      decreases |remaining|
    {
      var name :| name in remaining;
      ghost var j := nameToId[name] as int;
      ghost var before := names[..];
      Buffer.CopyInto(names, offs[nameToId[name]] as int, name);
      CopyOne(before, names[..], byId, offs, remaining, j);
      remaining := remaining - {name};
    }
    forall id {:trigger offs[id]} | 0 <= id < |byId|
      ensures Stored(names[..], offs[id] as int, byId[id])
    {
      assert byId[id] in nameToId.Keys;
    }
  }

  /**
   * Builds the name table from a name-to-id map: stores each name's size at
   * its id, accumulates the sizes into offsets in place, allocates a
   * NUL-filled buffer as large as the final running index and copies each
   * name at its offset.
   */
  method BuildNames(nameToId: map<string, u32>, ghost byId: seq<string>)
    returns (names: array<char>, indexes: array<u32>)
    requires DenseIds(nameToId, byId)
    requires NamesSize(byId) < MOD
    ensures fresh(names) && fresh(indexes)
    ensures Packed(names[..], indexes[..], byId)
  {
    indexes := StoreNameSizes(nameToId, byId);
    var index := PrefixSum.Accumulate(indexes);
    SizesAccumulateToOffsets(byId);
    var offs := indexes[..];
    PackedOffsets(byId, offs);
    Fits(NamesSize(byId));
    names := new char[index](_ => NUL);
    CopyNames(names, nameToId, byId, offs);
    assert indexes[..] == offs;
  }

  /**
   * Build then parse: scanning a buffer laid out by the building constructor,
   * with names free of NUL, visits exactly the built offsets, in id order.
   */
  lemma BuildThenParse(s: seq<char>, offs: seq<u32>, byId: seq<string>)
    requires Packed(s, offs, byId)
    requires forall id :: 0 <= id < |byId| ==> NUL !in byId[id]
    ensures |NameStarts(s, 0)| == |offs|
    ensures forall id :: 0 <= id < |offs| ==> NameStarts(s, 0)[id] == offs[id] as int
  {
    AllLaid(s, offs, byId, 0);
    ParseFrom(s, byId, 0);
    OffsetsFromLength(byId, 0);
    forall k | 0 <= k < |byId|
      ensures NameStarts(s, 0)[k] == offs[k] as int
    {
      OffsetsFromAt(byId, 0, k);
    }
    if |byId| == 0 {
      assert OffsetsFrom(byId, 0) == [];
    } else {
      OffsetsFromAt(byId, 0, 0);
    }
  }

  /** The packed offsets of the names from id `i` on. */
  function OffsetsFrom(byId: seq<string>, i: nat): seq<nat>
    requires i <= |byId|
    decreases |byId| - i
  {
    if i == |byId| then [] else [NameOffset(byId, i)] + OffsetsFrom(byId, i + 1)
  }

  lemma {:induction false} OffsetsFromLength(byId: seq<string>, i: nat)
    requires i <= |byId|
    ensures |OffsetsFrom(byId, i)| == |byId| - i
    decreases |byId| - i
  {
    if i < |byId| {
      OffsetsFromLength(byId, i + 1);
    }
  }

  lemma {:induction false} OffsetsFromAt(byId: seq<string>, i: nat, k: nat)
    requires i + k < |byId|
    ensures |OffsetsFrom(byId, i)| == |byId| - i
    ensures OffsetsFrom(byId, i)[k] == NameOffset(byId, i + k)
    decreases k
  {
    OffsetsFromLength(byId, i);
    if k > 0 {
      OffsetsFromAt(byId, i + 1, k - 1);
    }
  }

  /** Names `i..` are stored NUL-free at their packed offsets. */
  predicate LaidFrom(s: seq<char>, byId: seq<string>, i: nat)
    requires i <= |byId|
    decreases |byId| - i
  {
    i == |byId| ||
    (Stored(s, NameOffset(byId, i), byId[i]) && NUL !in byId[i] && LaidFrom(s, byId, i + 1))
  }

  lemma {:induction false} AllLaid(s: seq<char>, offs: seq<u32>, byId: seq<string>, i: nat)
    requires i <= |byId|
    requires Packed(s, offs, byId)
    requires forall id :: 0 <= id < |byId| ==> NUL !in byId[id]
    ensures LaidFrom(s, byId, i)
    decreases |byId| - i
  {
    if i < |byId| {
      assert offs[i] as int == NameOffset(byId, i);
      AllLaid(s, offs, byId, i + 1);
    }
  }

  lemma {:induction false} ParseFrom(s: seq<char>, byId: seq<string>, i: nat)
    requires i <= |byId|
    requires |s| == NamesSize(byId)
    requires LaidFrom(s, byId, i)
    ensures NameStarts(s, NameOffset(byId, i)) == OffsetsFrom(byId, i)
    decreases |byId| - i
  {
    var off := NameOffset(byId, i);
    if i < |byId| {
      assert Stored(s, off, byId[i]) && NUL !in byId[i] && LaidFrom(s, byId, i + 1);
      ParseStep(s, off, byId[i]);
      ParseFrom(s, byId, i + 1);
      assert OffsetsFrom(byId, i) == [off] + OffsetsFrom(byId, i + 1);
    } else {
      assert NameStarts(s, off) == [];
    }
  }

  /** The scan records a stored NUL-free name's offset, then resumes one past its NUL. */
  lemma ParseStep(s: seq<char>, off: nat, name: string)
    requires Stored(s, off, name) && NUL !in name
    ensures NameStarts(s, off) == [off] + NameStarts(s, off + |name| + 1)
  {
    StoredLength(s, off, name);
    NameStartsUnfold(s, off);
  }

  /** A stored NUL-free name is exactly the run `strnlen` measures at its offset. */
  lemma StoredLength(s: seq<char>, off: nat, name: string)
    requires Stored(s, off, name) && NUL !in name
    ensures StrNLen(s, off) == |name|
    ensures NameAt(s, off) == name
  {
  }

  /**
   * Lookup after build then parse: reading a C string at the i-th offset the
   * scan finds yields the name whose id is i.
   */
  lemma LookupAfterParse(s: seq<char>, offs: seq<u32>, byId: seq<string>, id: nat)
    requires Packed(s, offs, byId)
    requires forall i :: 0 <= i < |byId| ==> NUL !in byId[i]
    requires id < |byId|
    ensures |NameStarts(s, 0)| == |byId|
    ensures NameStarts(s, 0)[id] == offs[id] as int < |s|
    ensures NameAt(s, NameStarts(s, 0)[id]) == byId[id]
  {
    BuildThenParse(s, offs, byId);
    assert NameStarts(s, 0)[id] == offs[id] as int;
    StoredLength(s, offs[id] as int, byId[id]);
  }

  /** The buffer "foo\0bar\0" holds two names, at offsets 0 and 4. */
  lemma ParseExample()
    ensures NameStarts("foo\0bar\0", 0) == [0, 4]
  {
    var s := "foo\0bar\0";
    assert StrNLen(s, 0) == 3 by {
      assert StrNLen(s, 3) == 0;
    }
    assert StrNLen(s, 4) == 3 by {
      assert StrNLen(s, 7) == 0;
    }
  }

  /** A final name without its NUL is still counted: "ab\0c" holds two names. */
  lemma UnterminatedExample()
    ensures NameStarts("ab\0c", 0) == [0, 3]
  {
  }
}
