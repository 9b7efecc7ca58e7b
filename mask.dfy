/**
 * An object-id mask: for every pixel of a width x height image, a list of
 * (object id, coverage) samples kept in compressed-row form, together with
 * the table of object names.
 */
module OpenIdMask {
  import opened Uint32
  import PrefixSum
  import NameTable
  import Buffer
  import opened SampleStore

  /**
   * What a deep scanline file holds for a mask: the image size, the "Names"
   * attribute, and for every pixel in row-major order its sample count and
   * its samples (the id and coverage channels taken together).
   */
  datatype DeepFile = DeepFile(
    width: int,
    height: int,
    names: seq<char>,
    sampleCounts: seq<u32>,
    samples: seq<seq<Sample>>)

  /**
   * A file the reading constructor can load: one count and one sample list
   * per pixel, each list as long as its count, and totals that fit the
   * `uint32_t` offsets (a limit the constructor does not check).
   */
  predicate Readable(f: DeepFile)
  {
    0 <= f.width && 0 <= f.height &&
    |f.sampleCounts| == f.width * f.height &&
    |f.samples| == |f.sampleCounts| &&
    (forall p :: 0 <= p < |f.samples| ==> |f.samples[p]| == f.sampleCounts[p] as int) &&
    PrefixSum.Sum(f.sampleCounts) < MOD &&
    |f.names| < MOD
  }

  /** Taking `n` more elements of a sequence appends the next `n`. */
  lemma TakeMore<T>(s: seq<T>, i: nat, n: nat)
    requires i + n <= |s|
    ensures s[..i + n] == s[..i] + s[i .. i + n]
  {
  }

  /** The number of pixels in the first `rows` rows of an image `width` pixels wide: the row-major index of row `rows`. */
  function RowStart(width: nat, rows: nat): nat
  {
    if rows == 0 then 0 else RowStart(width, rows - 1) + width
  }

  /** Row `rows` starts at `width * rows`. */
  lemma {:induction false} RowStartIsProduct(width: nat, rows: nat)
    ensures RowStart(width, rows) == width * rows
  {
    if rows > 0 {
      RowStartIsProduct(width, rows - 1);
    }
  }

  /** A row that is not the last one ends no later than the image does. */
  lemma {:induction false} RowEnds(width: nat, y: nat, height: nat)
    requires y < height
    ensures RowStart(width, y) + width <= RowStart(width, height)
    decreases height - y
  {
    if y + 1 < height {
      RowEnds(width, y + 1, height);
    }
  }

  class Mask {
    var width: int
    var height: int
    /** The names, back to back, each followed by a NUL. */
    var names: array<char>
    /** Per object id, where its name starts in `names`. */
    var namesIndexes: array<u32>
    /** Per pixel, where its samples start in `samples`, plus the total at the end. */
    var pixelsIndexes: array<u32>
    /** All samples, pixel after pixel. */
    var samples: array<Sample>
    /** The samples of every pixel, in row-major order. */
    ghost var pixels: seq<seq<Sample>>

    /**
     * The mask invariant: name offsets point into the name buffer and
     * strictly increase; there is one pixel per (x, y); the pixel offsets are
     * the compressed-row starts of the pixels, and the flat array is the
     * concatenation of their samples.
     */
    ghost predicate Valid()
      reads this, names, namesIndexes, pixelsIndexes, samples
    {
      0 <= width && 0 <= height &&
      names.Length < MOD &&
      (forall i :: 0 <= i < namesIndexes.Length ==> namesIndexes[i] as int < names.Length) &&
      (forall i, j :: 0 <= i < j < namesIndexes.Length ==> namesIndexes[i] < namesIndexes[j]) &&
      |pixels| == width * height &&
      pixelsIndexes.Length == |pixels| + 1 &&
      (forall p {:trigger Start(pixels, p)} :: 0 <= p <= |pixels| ==> pixelsIndexes[p] as int == Start(pixels, p)) &&
      samples[..] == Flatten(pixels)
    }

    /**
     * Loads a mask from a deep scanline file: the names and their offsets,
     * then the per-pixel offsets and the samples.
     */
    constructor FromFile(f: DeepFile)
      requires Readable(f)
      ensures Valid()
      ensures width == f.width && height == f.height
      ensures names[..] == f.names
      ensures namesIndexes.Length == |NameTable.NameStarts(f.names, 0)|
      ensures forall k :: 0 <= k < namesIndexes.Length ==> namesIndexes[k] as int == NameTable.NameStarts(f.names, 0)[k]
      ensures pixelsIndexes[..] == PrefixSum.PrefixSums(f.sampleCounts + [0])
      ensures pixels == f.samples
    {
      var nameBuf, nameIdx := ReadNames(f.names);
      var pixIdx, smp := ReadSamples(f);
      width, height := f.width, f.height;
      names, namesIndexes := nameBuf, nameIdx;
      pixelsIndexes, samples := pixIdx, smp;
      pixels := f.samples;
    }

    /**
     * Builds a mask from a name-to-id map and the per-pixel sample lists:
     * packs the names, pushes the running sample total before each pixel and
     * once more at the end, then concatenates all lists.
     */
    constructor FromLists(width: int, height: int, nameToId: map<string, u32>, ghost byId: seq<string>,
                          pixels: seq<seq<Sample>>)
      requires NameTable.DenseIds(nameToId, byId) && NameTable.NamesSize(byId) < MOD
      requires 0 <= width && 0 <= height && |pixels| == width * height
      requires |Flatten(pixels)| < MOD
      ensures Valid()
      ensures this.width == width && this.height == height
      ensures NameTable.Packed(names[..], namesIndexes[..], byId)
      ensures this.pixels == pixels
    {
      var nameBuf, nameIdx := NameTable.BuildNames(nameToId, byId);
      NameTable.PackedIncreasing(nameBuf[..], nameIdx[..], byId);
      var offsets := IndexPixels(pixels);
      var flat := ConcatenateSamples(pixels);

      this.width, this.height := width, height;
      names, namesIndexes := nameBuf, nameIdx;
      pixelsIndexes := new u32[|offsets|](k requires 0 <= k < |offsets| => offsets[k]);
      samples := new Sample[|flat|](k requires 0 <= k < |flat| => flat[k]);
      this.pixels := pixels;
      new;
      forall p | 0 <= p <= |pixels|
        ensures pixelsIndexes[p] as int == Start(pixels, p)
      {
        if p < |pixels| {
          FlattenPrefixMono(pixels, p, |pixels|);
        } else {
          assert pixels[..p] == pixels;
        }
      }
      assert samples[..] == flat;
    }

    /**
     * Writes the mask out: for every row, fills the line buffers with each
     * pixel's sample count (the difference of adjacent offsets) and cursor,
     * and hands the row to the file, after the names.
     */
    method Write() returns (f: DeepFile)
      requires Valid()
      ensures Readable(f)
      ensures f.width == width && f.height == height
      ensures f.names == names[..]
      ensures f.sampleCounts == PrefixSum.Deltas(pixelsIndexes[..])
      ensures forall p :: 0 <= p < |f.sampleCounts| ==> f.sampleCounts[p] as int == |pixels[p]|
      ensures f.samples == pixels
    {
      ghost var deltas := PrefixSum.Deltas(pixelsIndexes[..]);
      var sampleCount := new u32[width](_ => 0);
      var id := new u32[width](_ => 0);
      var counts: seq<u32> := [];
      var written: seq<seq<Sample>> := [];
      var i := 0;
      var y := 0;
      RowStartIsProduct(width, height);
      while y < height
        invariant 0 <= y <= height
        invariant i == RowStart(width, y) <= |pixels|
        invariant counts == deltas[..i]
        invariant written == pixels[..i]
      {
        RowEnds(width, y, height);
        var rowCounts, row := WriteRow(i, sampleCount, id);
        TakeMore(deltas, i, width);
        TakeMore(pixels, i, width);
        counts := counts + rowCounts;
        written := written + row;
        i := i + width;
        y := y + 1;
      }
      f := DeepFile(width, height, names[..], counts, written);
      WrittenFile(i, counts, written);
    }

    /**
     * One row of `Write`: fills the line buffers for the pixels from `base`
     * on and returns what the file receives for that row.
     */
    method WriteRow(base: nat, sampleCount: array<u32>, id: array<u32>) returns (counts: seq<u32>, row: seq<seq<Sample>>)
      requires Valid()
      requires sampleCount.Length == id.Length == width && base + width <= |pixels|
      requires sampleCount != id && sampleCount != pixelsIndexes && id != pixelsIndexes
      requires sampleCount != namesIndexes && id != namesIndexes
      modifies sampleCount, id
      ensures counts == PrefixSum.Deltas(pixelsIndexes[..])[base .. base + width]
      ensures row == pixels[base .. base + width]
    {
      FillLine(base, sampleCount, id);
      LineSamples(base, sampleCount[..], id[..]);
      counts := sampleCount[..];
      row := RowSamples(samples[..], id[..], sampleCount[..]);
    }

    /** What `Write` hands over once every row is written is a readable file of the mask. */
    lemma WrittenFile(i: int, counts: seq<u32>, written: seq<seq<Sample>>)
      requires Valid()
      requires i == |pixels| && counts == PrefixSum.Deltas(pixelsIndexes[..])[..i] && written == pixels[..i]
      ensures counts == PrefixSum.Deltas(pixelsIndexes[..]) && written == pixels
      ensures forall p :: 0 <= p < |counts| ==> counts[p] as int == |pixels[p]|
      ensures Readable(DeepFile(width, height, names[..], counts, written))
    {
      assert pixels[..i] == pixels;
      DeltasAreSizes();
      CountsMeasure(counts, written);
      assert pixelsIndexes[|pixels|] as int == Start(pixels, |pixels|);
    }

    /** The inner loop of `Write`: the line buffers for the pixels from `base` on. */
    method FillLine(base: nat, sampleCount: array<u32>, id: array<u32>)
      requires sampleCount.Length == id.Length == width && base + width < pixelsIndexes.Length
      requires sampleCount != id && sampleCount != pixelsIndexes && id != pixelsIndexes
      modifies sampleCount, id
      ensures forall k :: 0 <= k < width ==>
        sampleCount[k] == ToU32(pixelsIndexes[base + k + 1] as int - pixelsIndexes[base + k] as int)
      ensures forall k :: 0 <= k < width ==> id[k] == pixelsIndexes[base + k]
    {
      var x := 0;
      while x < width
        invariant 0 <= x <= width
        invariant forall k :: 0 <= k < x ==>
          sampleCount[k] == ToU32(pixelsIndexes[base + k + 1] as int - pixelsIndexes[base + k] as int)
        invariant forall k :: 0 <= k < x ==> id[k] == pixelsIndexes[base + k]
      {
        sampleCount[x] := ToU32(pixelsIndexes[base + x + 1] as int - pixelsIndexes[base + x] as int);
        id[x] := pixelsIndexes[base + x];
        x := x + 1;
      }
    }

    /**
     * The compressed-row slice of a valid mask: pixel p's offsets bound a
     * range of the flat array that holds exactly its samples, and their
     * difference is its sample count.
     */
    lemma PixelRange(p: nat)
      requires Valid()
      requires p < |pixels|
      ensures pixelsIndexes[p] as int + |pixels[p]| == pixelsIndexes[p + 1] as int <= samples.Length
      ensures samples[..][pixelsIndexes[p] .. pixelsIndexes[p + 1]] == pixels[p]
      ensures ToU32(pixelsIndexes[p + 1] as int - pixelsIndexes[p] as int) as int == |pixels[p]|
    {
      assert pixelsIndexes[p] as int == Start(pixels, p);
      assert pixelsIndexes[p + 1] as int == Start(pixels, p + 1);
      PixelSlice(pixels, p);
      Fits(|pixels[p]|);
    }

    /**
     * The offsets of a valid mask start at 0, never decrease, and end at the
     * number of samples.
     */
    lemma OffsetsBound()
      requires Valid()
      ensures pixelsIndexes[0] == 0
      ensures forall p, q :: 0 <= p <= q <= |pixels| ==> pixelsIndexes[p] <= pixelsIndexes[q]
      ensures pixelsIndexes[|pixels|] as int == samples.Length
    {
      assert pixelsIndexes[0] as int == Start(pixels, 0);
      assert pixelsIndexes[|pixels|] as int == Start(pixels, |pixels|);
      assert pixels[..|pixels|] == pixels;
      forall p, q | 0 <= p <= q <= |pixels|
        ensures pixelsIndexes[p] <= pixelsIndexes[q]
      {
        assert pixelsIndexes[p] as int == Start(pixels, p);
        assert pixelsIndexes[q] as int == Start(pixels, q);
        FlattenPrefixMono(pixels, p, q);
      }
    }

    /** The differences of a valid mask's offsets are its pixels' sample counts. */
    lemma DeltasAreSizes()
      requires Valid()
      ensures |PrefixSum.Deltas(pixelsIndexes[..])| == |pixels|
      ensures forall p :: 0 <= p < |pixels| ==> PrefixSum.Deltas(pixelsIndexes[..])[p] as int == |pixels[p]|
    {
      ghost var offs := pixelsIndexes[..];
      forall p | 0 <= p < |pixels|
        ensures PrefixSum.Deltas(offs)[p] as int == |pixels[p]|
      {
        assert PrefixSum.Deltas(offs)[p] == ToU32(offs[p + 1] as int - offs[p] as int);
        PixelRange(p);
      }
    }

    /** A row of filled line buffers reads back the row's pixels and holds their offset differences. */
    lemma LineSamples(base: nat, sampleCount: seq<u32>, id: seq<u32>)
      requires Valid()
      requires |sampleCount| == |id| && base + |id| <= |pixels|
      requires forall k :: 0 <= k < |id| ==>
        sampleCount[k] == ToU32(pixelsIndexes[base + k + 1] as int - pixelsIndexes[base + k] as int)
      requires forall k :: 0 <= k < |id| ==> id[k] == pixelsIndexes[base + k]
      ensures forall k :: 0 <= k < |id| ==> id[k] as int + sampleCount[k] as int <= samples.Length
      ensures forall k :: 0 <= k < |id| ==> sampleCount[k] as int == |pixels[base + k]|
      ensures RowSamples(samples[..], id, sampleCount) == pixels[base .. base + |id|]
      ensures sampleCount == PrefixSum.Deltas(pixelsIndexes[..])[base .. base + |id|]
    {
      ghost var flat, offs := samples[..], pixelsIndexes[..];
      ghost var deltas := PrefixSum.Deltas(offs);
      forall k | 0 <= k < |id|
        ensures id[k] as int + sampleCount[k] as int <= |flat|
        ensures sampleCount[k] as int == |pixels[base + k]|
        ensures flat[id[k] .. id[k] as int + sampleCount[k] as int] == pixels[base + k]
        ensures deltas[base + k] == sampleCount[k]
      {
        var p := base + k;
        assert id[k] == offs[p];
        assert sampleCount[k] == ToU32(offs[p + 1] as int - offs[p] as int) == deltas[p];
        PixelRange(p);
      }
      ghost var row := RowSamples(flat, id, sampleCount);
      assert forall k :: 0 <= k < |id| ==> row[k] == pixels[base + k];
    }
  }

  /** Reads the name table: copies the "Names" buffer, counts the names, then records their offsets. */
  method ReadNames(names: seq<char>) returns (buf: array<char>, idx: array<u32>)
    requires |names| < MOD
    ensures fresh(buf) && fresh(idx)
    ensures buf[..] == names
    ensures idx.Length == |NameTable.NameStarts(names, 0)|
    ensures forall k :: 0 <= k < idx.Length ==> idx[k] as int == NameTable.NameStarts(names, 0)[k] < |names|
    ensures forall i, j :: 0 <= i < j < idx.Length ==> idx[i] < idx[j]
  {
    buf := new char[|names|](k requires 0 <= k < |names| => names[k]);
    var namesN := NameTable.CountNames(names);
    idx := NameTable.IndexNames(names, namesN);
    NamesFromFile(names, idx[..]);
  }

  /**
   * Reads the samples: stores the per-pixel counts in the offset array,
   * accumulates them in place into offsets, sizes the flat array to the
   * total and reads every row's samples through per-pixel cursors.
   */
  method ReadSamples(f: DeepFile) returns (pixIdx: array<u32>, smp: array<Sample>)
    requires Readable(f)
    ensures fresh(pixIdx) && fresh(smp)
    ensures pixIdx[..] == PrefixSum.PrefixSums(f.sampleCounts + [0])
    ensures pixIdx.Length == |f.samples| + 1
    ensures forall p {:trigger pixIdx[p]} :: 0 <= p <= |f.samples| ==> pixIdx[p] as int == |Flatten(f.samples[..p])|
    ensures smp[..] == Flatten(f.samples)
  {
    pixIdx := new u32[f.width * f.height + 1](_ => 0);
    ReadPixelSampleCounts(pixIdx, f.sampleCounts);
    assert pixIdx[..] == f.sampleCounts + [0];
    var index := PrefixSum.Accumulate(pixIdx);
    OffsetsOfFileCounts(f.sampleCounts, f.samples);
    Fits(|Flatten(f.samples)|);
    smp := new Sample[index](_ => Sample(0, 0));
    RowStartIsProduct(f.width, f.height);
    ReadAllPixels(smp, pixIdx, f.width, f.height, f.samples);
  }

  /**
   * The library's `readPixelSampleCounts`: pixel i's count lands in slot i of
   * the offset array; the extra final slot is left as it was.
   */
  method ReadPixelSampleCounts(dst: array<u32>, counts: seq<u32>)
    requires dst.Length == |counts| + 1
    modifies dst
    ensures dst[..] == counts + [old(dst[|counts|])]
  {
    var i := 0;
    while i < |counts|
      invariant 0 <= i <= |counts|
      invariant forall k :: 0 <= k < i ==> dst[k] == counts[k]
      invariant dst[|counts|] == old(dst[|counts|])
    {
      dst[i] := counts[i];
      i := i + 1;
    }
  }

  /**
   * The library's `readPixels(y)` for one row: every pixel's samples are
   * stored through that pixel's cursor, the cursors being consecutive
   * compressed-row starts from `start` on.
   */
  method ReadPixels(dst: array<Sample>, cursor: array<u32>, row: seq<seq<Sample>>, ghost start: nat)
    requires cursor.Length == |row|
    requires forall x {:trigger cursor[x]} :: 0 <= x < |row| ==> cursor[x] as int == start + |Flatten(row[..x])|
    requires start + |Flatten(row)| <= dst.Length
    modifies dst
    ensures dst[..start + |Flatten(row)|] == old(dst[..start]) + Flatten(row)
    ensures forall k :: start + |Flatten(row)| <= k < dst.Length ==> dst[k] == old(dst[k])
  {
    ghost var before := dst[..start];
    ghost var filled := start;
    assert row[..|row|] == row;
    var x := 0;
    while x < |row|
      invariant 0 <= x <= |row|
      invariant filled == start + |Flatten(row[..x])| <= dst.Length
      invariant dst[..filled] == before + Flatten(row[..x])
      invariant forall k :: filled <= k < dst.Length ==> dst[k] == old(dst[k])
    {
      FlattenStep(row, x);
      FlattenPrefixMono(row, x + 1, |row|);
      ghost var done := dst[..filled];
      Buffer.CopyInto(dst, cursor[x] as int, row[x]);
      filled := filled + |row[x]|;
      assert dst[..filled] == done + row[x];
      x := x + 1;
    }
    assert row[..x] == row;
    assert before == old(dst[..start]);
  }

  /**
   * The row loop of the reading constructor: for each row, points each
   * pixel's cursor at its offset, then reads the row's samples through them.
   */
  method ReadAllPixels(smp: array<Sample>, pixIdx: array<u32>, w: int, h: int, data: seq<seq<Sample>>)
    requires 0 <= w && 0 <= h && |data| == RowStart(w, h)
    requires pixIdx.Length == |data| + 1
    requires forall p {:trigger pixIdx[p]} :: 0 <= p <= |data| ==> pixIdx[p] as int == |Flatten(data[..p])|
    requires smp.Length == |Flatten(data)|
    modifies smp
    ensures smp[..] == Flatten(data)
  {
    var id := new u32[w](_ => 0);
    var i := 0;
    var y := 0;
    assert data[..|data|] == data;
    while y < h
      invariant 0 <= y <= h
      invariant i == RowStart(w, y) <= |data|
      invariant pixIdx[i] as int <= smp.Length
      invariant smp[..pixIdx[i]] == Flatten(data[..i])
    {
      RowEnds(w, y, h);
      ReadRow(smp, pixIdx, id, data, i);
      i := i + w;
      y := y + 1;
    }
    assert data[..i] == data;
  }

  /**
   * One row of the reading constructor: with the samples of the pixels
   * before `i` in place, points the cursors at the row's offsets and reads
   * the row, which puts the samples of the pixels before `i + w` in place.
   */
  method ReadRow(smp: array<Sample>, pixIdx: array<u32>, id: array<u32>, data: seq<seq<Sample>>, i: nat)
    requires pixIdx.Length == |data| + 1 && i + id.Length <= |data| && id != pixIdx
    requires forall p {:trigger pixIdx[p]} :: 0 <= p <= |data| ==> pixIdx[p] as int == |Flatten(data[..p])|
    requires smp.Length == |Flatten(data)|
    requires pixIdx[i] as int <= smp.Length && smp[..pixIdx[i]] == Flatten(data[..i])
    modifies smp, id
    ensures pixIdx[i + id.Length] as int <= smp.Length
    ensures smp[..pixIdx[i + id.Length]] == Flatten(data[..i + id.Length])
    ensures forall k :: pixIdx[i + id.Length] as int <= k < smp.Length ==> smp[k] == old(smp[k])
  {
    PointCursors(id, pixIdx, i);
    var row := data[i .. i + id.Length];
    RowCursors(data, i, pixIdx[..], id[..]);
    ghost var before, after := pixIdx[i] as int, pixIdx[i + id.Length] as int;
    ghost var done := smp[..before];
    assert after == before + |Flatten(row)|;
    ReadPixels(smp, id, row, before);
    assert smp[..after] == done + Flatten(row);
  }

  /** The inner loop of the reading constructor: the cursor of pixel `base + x` is that pixel's offset. */
  method PointCursors(id: array<u32>, pixIdx: array<u32>, base: nat)
    requires id != pixIdx && base + id.Length < pixIdx.Length
    modifies id
    ensures id[..] == pixIdx[base .. base + id.Length]
  {
    var x := 0;
    while x < id.Length
      invariant 0 <= x <= id.Length
      invariant forall k :: 0 <= k < x ==> id[k] == pixIdx[base + k]
    {
      id[x] := pixIdx[base + x];
      x := x + 1;
    }
  }

  /**
   * Cursors holding the offsets of a row of pixels are the row's start plus
   * the samples of the row's earlier pixels, and the offset after the row
   * is its start plus all of the row's samples.
   */
  lemma RowCursors(data: seq<seq<Sample>>, start: nat, offs: seq<u32>, cursor: seq<u32>)
    requires start + |cursor| <= |data| && |offs| == |data| + 1
    requires forall p {:trigger offs[p]} :: 0 <= p <= |data| ==> offs[p] as int == |Flatten(data[..p])|
    requires cursor == offs[start .. start + |cursor|]
    ensures forall k :: 0 <= k < |cursor| ==>
      cursor[k] as int == offs[start] as int + |Flatten(data[start .. start + |cursor|][..k])|
    ensures offs[start + |cursor|] as int == offs[start] as int + |Flatten(data[start .. start + |cursor|])|
    ensures Flatten(data[..start + |cursor|]) == Flatten(data[..start]) + Flatten(data[start .. start + |cursor|])
    ensures offs[start + |cursor|] as int <= |Flatten(data)|
  {
    var n := |cursor|;
    forall k | 0 <= k < n
      ensures cursor[k] as int == offs[start] as int + |Flatten(data[start .. start + n][..k])|
    {
      assert cursor[k] == offs[start + k];
      RowCursor(data, start, n, offs, k);
    }
    RowCursor(data, start, n, offs, n);
    FlattenSplit(data, start, start + n);
    FlattenPrefixMono(data, start + n, |data|);
    assert data[..|data|] == data;
  }

  /** The offset of the pixel `k` places into a row is the row's offset plus the samples of the row's first `k` pixels. */
  lemma RowCursor(data: seq<seq<Sample>>, start: nat, n: nat, offs: seq<u32>, k: nat)
    requires k <= n && start + n <= |data| && |offs| == |data| + 1
    requires forall p {:trigger offs[p]} :: 0 <= p <= |data| ==> offs[p] as int == |Flatten(data[..p])|
    ensures offs[start + k] as int == offs[start] as int + |Flatten(data[start .. start + n][..k])|
  {
    assert data[start .. start + n][..k] == data[start .. start + k];
    FlattenSplit(data, start, start + k);
    assert offs[start] as int == |Flatten(data[..start])|;
    assert offs[start + k] as int == |Flatten(data[..start + k])|;
  }

  /**
   * What the library's `writePixels` takes from one row of line buffers: for
   * each pixel, as many samples as its count, read from its cursor on.
   */
  function RowSamples(flat: seq<Sample>, cursor: seq<u32>, counts: seq<u32>): seq<seq<Sample>>
    requires |cursor| == |counts|
    requires forall x :: 0 <= x < |cursor| ==> cursor[x] as int + counts[x] as int <= |flat|
  {
    seq(|cursor|, x requires 0 <= x < |cursor| => flat[cursor[x] .. cursor[x] as int + counts[x] as int])
  }

  /**
   * The name offsets the reading constructor records point into the names and
   * strictly increase.
   */
  lemma NamesFromFile(names: seq<char>, offs: seq<u32>)
    requires |names| < MOD
    requires |offs| == |NameTable.NameStarts(names, 0)|
    requires forall k :: 0 <= k < |offs| ==> offs[k] == ToU32(NameTable.NameStarts(names, 0)[k])
    ensures forall k :: 0 <= k < |offs| ==> offs[k] as int == NameTable.NameStarts(names, 0)[k] < |names|
    ensures forall i, j :: 0 <= i < j < |offs| ==> offs[i] < offs[j]
  {
    NameTable.NameStartsInBuffer(names, 0);
  }

  /**
   * Writing a valid mask and reading the file back gives the same names,
   * offsets and samples.
   */
  method WriteThenRead(m: Mask) returns (r: Mask)
    requires m.Valid()
    ensures fresh(r) && r.Valid()
    ensures r.width == m.width && r.height == m.height
    ensures r.names[..] == m.names[..]
    ensures r.namesIndexes.Length == |NameTable.NameStarts(m.names[..], 0)|
    ensures forall k :: 0 <= k < r.namesIndexes.Length ==> r.namesIndexes[k] as int == NameTable.NameStarts(m.names[..], 0)[k]
    ensures r.pixelsIndexes[..] == m.pixelsIndexes[..]
    ensures r.samples[..] == m.samples[..]
    ensures r.pixels == m.pixels
  {
    var f := m.Write();
    assert m.pixelsIndexes[0] as int == Start(m.pixels, 0);
    r := new Mask.FromFile(f);
    PrefixSum.PrefixSumsOfDeltas(m.pixelsIndexes[..]);
  }

  /**
   * Building from lists, writing and reading back reproduces the built mask,
   * name offsets included, when no name contains a NUL.
   */
  method BuildWriteRead(width: int, height: int, nameToId: map<string, u32>, ghost byId: seq<string>,
                        pixels: seq<seq<Sample>>) returns (built: Mask, read: Mask)
    requires NameTable.DenseIds(nameToId, byId) && NameTable.NamesSize(byId) < MOD
    requires forall id :: 0 <= id < |byId| ==> NameTable.NUL !in byId[id]
    requires 0 <= width && 0 <= height && |pixels| == width * height
    requires |Flatten(pixels)| < MOD
    ensures fresh(built) && fresh(read) && built.Valid() && read.Valid()
    ensures read.names[..] == built.names[..]
    ensures read.namesIndexes[..] == built.namesIndexes[..]
    ensures read.pixelsIndexes[..] == built.pixelsIndexes[..]
    ensures read.samples[..] == built.samples[..]
    ensures read.pixels == pixels
  {
    built := new Mask.FromLists(width, height, nameToId, byId, pixels);
    read := WriteThenRead(built);
    NameTable.BuildThenParse(built.names[..], built.namesIndexes[..], byId);
  }

  /** The first loop of the list constructor: the running sample total before each pixel, and once more at the end. */
  method IndexPixels(pixels: seq<seq<Sample>>) returns (offsets: seq<u32>)
    requires |Flatten(pixels)| < MOD
    ensures |offsets| == |pixels| + 1
    ensures offsets[0] == 0 && offsets[|pixels|] as int == |Flatten(pixels)|
    ensures forall p :: 0 <= p < |pixels| ==> offsets[p] <= offsets[p + 1]
    ensures forall p {:trigger offsets[p]} :: 0 <= p <= |pixels| ==> offsets[p] as int == |Flatten(pixels[..p])|
  {
    offsets := [];
    var indexN := 0;
    var p := 0;
    while p < |pixels|
      invariant 0 <= p <= |pixels|
      invariant indexN == |Flatten(pixels[..p])|
      invariant |offsets| == p
      invariant forall q {:trigger offsets[q]} :: 0 <= q < p ==> offsets[q] == ToU32(|Flatten(pixels[..q])|)
    {
      offsets := offsets + [ToU32(indexN)];
      FlattenStep(pixels, p);
      indexN := indexN + |pixels[p]|;
      p := p + 1;
    }
    offsets := offsets + [ToU32(indexN)];
    assert pixels[..p] == pixels;
    forall q | 0 <= q <= |pixels|
      ensures offsets[q] as int == |Flatten(pixels[..q])|
    {
      FlattenPrefixMono(pixels, q, |pixels|);
    }
    forall q | 0 <= q < |pixels|
      ensures offsets[q] <= offsets[q + 1]
    {
      FlattenPrefixMono(pixels, q, q + 1);
    }
  }

  /** The last loop of the list constructor: every pixel's samples appended in pixel order. */
  method ConcatenateSamples(pixels: seq<seq<Sample>>) returns (flat: seq<Sample>)
    ensures flat == Flatten(pixels)
  {
    flat := [];
    var p := 0;
    while p < |pixels|
      invariant 0 <= p <= |pixels|
      invariant flat == Flatten(pixels[..p])
    {
      FlattenStep(pixels, p);
      flat := flat + pixels[p];
      p := p + 1;
    }
    assert pixels[..p] == pixels;
  }
}
