# openidmask `Mask` index bookkeeping, in Dafny

An OpenIDMask `Mask` stores, for every pixel of a `width x height` image,
a variable-length list of (object id, coverage) samples, plus the names of
the objects. This project models how `libopenidmask/Mask.cpp` lays that data
out and proves properties of the layout.

- **Name table.** All names are packed into one character buffer `_Names`,
  each followed by a NUL. `_NamesIndexes[id]` is where name `id` starts.
- **Sample store.** All samples sit in one flat array `_Samples`, pixel after
  pixel. `_PixelsIndexes` has `W*H+1` entries, and pixel `p` owns the range
  from `_PixelsIndexes[p]` to `_PixelsIndexes[p+1]`.

The model is imperative, as the C++ is. `OpenIdMask.Mask` is a class whose
array fields are the four member vectors. A ghost field `pixels` holds the
per-pixel sample lists that the arrays encode. The loops that fill the
vectors are methods with loop invariants, and each one is proved against a
specification function:

- `PrefixSum.PrefixSums` specifies the in-place accumulation.
- `NameTable.NameStarts` specifies the name scan.
- `SampleStore.Flatten` specifies the concatenation of the sample lists.

`uint32_t` is `Uint32.u32`. Its wrap-around is written out with
`Uint32.ToU32` wherever the C++ stores a wider or negative value into a
`uint32_t`: the running indexes, the casts and the write-path subtraction.

Modules:

- `uint32.dfy`: `u32` and arithmetic modulo 2^32.
- `prefix_sum.dfy`: the in-place exclusive prefix sum and its inverse.
- `buffer.dfy`: copying a run into a pre-sized array. It models the `std::copy` of each name into `_Names`, and the storing of one pixel's samples through its cursor by `readPixels(y)`. The `_Samples.insert` of the list constructor is modelled by sequence appends in `OpenIdMask.ConcatenateSamples`.
- `names.dfy`: the name scan, the name build, and the round trip between them.
- `samples.dfy`: the compressed-row layout of the samples.
- `mask.dfy`: the `Mask` class, its two constructors and `write`.

The OpenEXR file is replaced by the value `OpenIdMask.DeepFile`. It holds the
`"Names"` attribute, the per-pixel sample counts, and the per-pixel samples in
row-major order. The library's `readPixelSampleCounts` and `readPixels(y)`
become the methods `OpenIdMask.ReadPixelSampleCounts` and
`OpenIdMask.ReadPixels`. `writePixels` becomes the function
`OpenIdMask.RowSamples`, which gives what one row of line buffers hands to the
file.

A `char` of the model stands for one byte of `_Names` or of a map key, and
`|name|` is the byte length that `std::string::length()` returns.

## Model

| member | source | states |
|---|---|---|
| NameTable.StrNLen | libopenidmask/Mask.cpp:59 | `strnlen` bounded by the rest of the buffer: the run stays inside the buffer, contains no NUL, and stops at a NUL or at the end of the buffer |
| NameTable.NameStarts | libopenidmask/Mask.cpp:69-74 | the offsets the scan visits: none exactly when the start is at or past the end, and otherwise the first one is the start |
| NameTable.NameStartsInBuffer | libopenidmask/Mask.cpp:69-74 | every recorded name offset lies inside the buffer, and the offsets strictly increase |
| NameTable.NameStartsStep | libopenidmask/Mask.cpp:72-73 | each next offset is the previous offset plus `strnlen` plus 1 |
| NameTable.NameStartsExact | libopenidmask/Mask.cpp:69-74 | no name is skipped or invented: from the start of a name, an offset is recorded exactly when it lies inside the buffer and is that start or follows a NUL |
| NameTable.CountNames | libopenidmask/Mask.cpp:53-62 | the counting loop returns the number of offsets the indexing scan visits (the `assert` at line 75), and returns 0 exactly when the buffer is empty |
| NameTable.IndexNames | libopenidmask/Mask.cpp:64-76 | the indexing loop pushes exactly `namesN` offsets, and entry `k` is the `k`-th scanned start cast to `uint32_t` |
| NameTable.ParseExample | libopenidmask/Mask.cpp:53-76 | scanning `foo\0bar\0` records offsets 0 and 4 |
| NameTable.UnterminatedExample | libopenidmask/Mask.cpp:57-74 | a last name without a terminating NUL is still recorded, because `strnlen` is bounded by the buffer |
| NameTable.StoreNameSizes | libopenidmask/Mask.cpp:139-142 | slot `id` receives the size of name `id` plus 1, in `uint32_t` |
| NameTable.NameOffsetMono | libopenidmask/Mask.cpp:145-151 | name offsets never decrease with the id, and a name plus its NUL ends before the next name starts |
| NameTable.SizesAccumulateToOffsets | libopenidmask/Mask.cpp:145-154 | accumulating the sizes gives each id the sum of (length + 1) over the ids before it, and the final index is the total buffer size |
| NameTable.CopyOne | libopenidmask/Mask.cpp:157-158 | copying one name at its offset leaves every other name and every NUL where it was |
| NameTable.PackedOffsets | libopenidmask/Mask.cpp:145-154 | the accumulated sizes are the packed offsets, and each name with its NUL ends inside the buffer of size `index` |
| NameTable.CopyNames | libopenidmask/Mask.cpp:157-158 | the copy loop, over the map in any order, leaves every name stored at its offset and followed by a NUL in the zero-filled buffer |
| NameTable.BuildNames | libopenidmask/Mask.cpp:136-158 | the built buffer holds each name at its offset followed by a NUL; the offsets are the prefix sums of (length + 1); the buffer size is the sum over all names |
| NameTable.PackedIncreasing | libopenidmask/Mask.cpp:139-158 | in a built table every offset lies inside the buffer, and the offsets strictly increase with the id |
| NameTable.BuildThenParse | libopenidmask/Mask.cpp:64-74 | when no name contains a NUL, scanning the built buffer records exactly the built offsets, in id order |
| NameTable.LookupAfterParse | libopenidmask/Mask.cpp:64-74 | when no name contains a NUL, the run at the `id`-th scanned offset of a built buffer is name `id` |
| NameTable.ParseStep | libopenidmask/Mask.cpp:72-73 | at a stored NUL-free name the scan records its offset and resumes one past its NUL |
| NameTable.StoredLength | libopenidmask/Mask.cpp:73 | `strnlen` at a stored NUL-free name's offset is that name's length |
| Uint32.WrapAdd | libopenidmask/Mask.cpp:109 | adding to a wrapped `uint32_t` running index gives the wrapped exact sum |
| Uint32.WrapSub | libopenidmask/Mask.cpp:232 | the `uint32_t` difference of two wrapped values is the wrapped exact difference |
| PrefixSum.Accumulate | libopenidmask/Mask.cpp:101-110 | the in-place loop leaves in each slot the `uint32_t` sum of the original values before it, and returns the wrapped total |
| PrefixSum.PrefixSumsExact | libopenidmask/Mask.cpp:101-110 | when the total fits in 32 bits, the accumulated slots are exact sums: they start at 0 and never decrease |
| PrefixSum.OffsetsOfCounts | libopenidmask/Mask.cpp:79-113 | the `W*H` counts plus the extra zero slot accumulate to `W*H+1` offsets that start at 0, never decrease, and end at the total, which sizes `_Samples` |
| PrefixSum.DeltasOfPrefixSums | libopenidmask/Mask.cpp:232 | the `uint32_t` difference of adjacent accumulated entries gives back each original count, even when the running total wraps |
| PrefixSum.PrefixSumsOfDeltas | libopenidmask/Mask.cpp:104-110 | feeding the write-path counts back through the accumulation loop reproduces any offset array that starts at 0 |
| SampleStore.PixelSlice | libopenidmask/Mask.cpp:175-178 | in the concatenation, the range between pixel `p`'s start and pixel `p+1`'s start holds exactly pixel `p`'s samples |
| SampleStore.FlattenPrefixMono | libopenidmask/Mask.cpp:167-173 | the pixel start offsets never decrease |
| SampleStore.CountsMeasure | libopenidmask/Mask.cpp:101-113 | sample counts that match the per-pixel lists add up to the number of samples |
| SampleStore.OffsetsOfFileCounts | libopenidmask/Mask.cpp:79-113 | the offsets accumulated from a file's counts are the start of each pixel's samples, and the total is their number |
| OpenIdMask.ReadPixelSampleCounts | libopenidmask/Mask.cpp:79-99 | pixel `i`'s count lands in slot `i` of the offset array, and the extra final slot keeps the 0 from `resize` |
| OpenIdMask.ReadNames | libopenidmask/Mask.cpp:50-76 | the names are copied, and the recorded offsets are the scanned starts: inside the buffer and strictly increasing |
| OpenIdMask.NamesFromFile | libopenidmask/Mask.cpp:72 | the `uint32_t` cast of a scanned offset is exact for a buffer shorter than 2^32 |
| OpenIdMask.ReadSamples | libopenidmask/Mask.cpp:79-127 | the offset array is the prefix sums of the counts plus the zero slot, and `_Samples` ends up holding every pixel's samples in row-major order |
| OpenIdMask.RowStartIsProduct | libopenidmask/Mask.cpp:116-120 | the running pixel index `i` at the start of row `y` is `y*W` |
| OpenIdMask.ReadAllPixels | libopenidmask/Mask.cpp:115-127 | the row loop, with `i` running over `y*W + x`, fills the whole sample array with the pixels' samples in order |
| OpenIdMask.ReadRow | libopenidmask/Mask.cpp:120-126 | one row extends the filled prefix of `_Samples` by that row's samples, and leaves everything past it as it was |
| OpenIdMask.PointCursors | libopenidmask/Mask.cpp:120-125 | the cursor of pixel `x` of the row is the offset of pixel `i = y*W + x` |
| OpenIdMask.RowCursors | libopenidmask/Mask.cpp:120-126 | each cursor of a row is the row's first offset plus the samples of the row's earlier pixels |
| OpenIdMask.ReadPixels | libopenidmask/Mask.cpp:126 | reading a row through its cursors appends the row's samples right after those already read, and leaves the rest of the array as it was |
| OpenIdMask.Mask.FromFile | libopenidmask/Mask.cpp:36-127 | the reading constructor yields a valid mask: its names are the file's names, its name offsets are the scanned starts, its pixel offsets are the accumulated counts, and its pixels are the file's |
| OpenIdMask.IndexPixels | libopenidmask/Mask.cpp:164-173 | `W*H+1` offsets that start at 0, never decrease, end at the total, and each equals the number of samples before its pixel |
| OpenIdMask.ConcatenateSamples | libopenidmask/Mask.cpp:175-178 | the flat array is all the lists concatenated in pixel order |
| OpenIdMask.Mask.FromLists | libopenidmask/Mask.cpp:132-178 | the building constructor yields a valid mask whose pixels are the given lists and whose name table is packed |
| OpenIdMask.Mask.PixelRange | libopenidmask/Mask.cpp:164-178 | in a valid mask, `_Samples[_PixelsIndexes[p] .. _PixelsIndexes[p+1])` is exactly pixel `p`'s samples, and the `uint32_t` difference of the two offsets is its count |
| OpenIdMask.Mask.OffsetsBound | libopenidmask/Mask.cpp:164-178 | the offsets of a valid mask start at 0, never decrease, and end at the size of `_Samples` |
| OpenIdMask.Mask.DeltasAreSizes | libopenidmask/Mask.cpp:232 | every recovered count is the length of its pixel's list |
| OpenIdMask.Mask.FillLine | libopenidmask/Mask.cpp:230-235 | the inner write loop sets each pixel's count to the `uint32_t` difference of adjacent offsets, and its cursor to its offset |
| OpenIdMask.Mask.LineSamples | libopenidmask/Mask.cpp:230-236 | what one row of line buffers hands to the file is that row's pixels, and its counts are the offset differences |
| OpenIdMask.Mask.WriteRow | libopenidmask/Mask.cpp:228-236 | one row of the write loop yields the row's counts and samples |
| OpenIdMask.Mask.Write | libopenidmask/Mask.cpp:183-237 | the file written has the mask's size and names; its counts are the offset differences and equal each pixel's length; its pixels, visited in row-major order, are the mask's; and the reading constructor accepts it |
| OpenIdMask.Mask.WrittenFile | libopenidmask/Mask.cpp:225-237 | once all rows are written, the counts cover every pixel exactly once and form a readable file |
| OpenIdMask.WriteThenRead | libopenidmask/Mask.cpp:183-237 | writing a valid mask and reading the file back reproduces its names, pixel offsets, samples and pixels |
| OpenIdMask.BuildWriteRead | libopenidmask/Mask.cpp:132-179 | building from lists, writing and reading back also reproduces the name offsets, when no name contains a NUL |

## Left out

The model follows the code, which does not check that its inputs are consistent. It does throw when the `"Names"` attribute is missing, and it asserts that the two name scans agree (`NameTable.CountNames` proves that they do). The constructors do not check that ids are dense, that the pixel list count is `W*H`, or that offsets fit in 32 bits. A last name without its NUL is accepted, not rejected (`NameTable.UnterminatedExample`). There is no error result, so none is modelled. Where the code would silently go wrong, the model's preconditions exclude that case, as listed below.

- OpenEXR I/O is not modelled: headers, channels, compression and frame-buffer slices. The file is the value `DeepFile`. `readPixelSampleCounts`, `readPixels(y)` and `writePixels` are modelled only by their effect on the member vectors.
- The data-window computation is left out, as is the exception thrown when the `"Names"` attribute is missing. Both are header plumbing.
- Raw pointers into `_Samples` become integer offsets into the sample array. The coverage pointers duplicate the id pointers and are not modelled separately.
- Coverage is a 32-bit `float` that passes through untouched. It is carried as its bits (`bv32`), with no arithmetic on it.
- The `vector` members become arrays, or sequences inside the building loops. `reserve`, `push_back` and `resize` are modelled by their resulting contents.
- `int` overflow is not modelled: of `_Width*_Height`, of the name counter `namesN` (line 54), and of the pixel counters `i` (lines 104, 116 and 226). Past 2^31 names or pixels these wrap in C++. `size_t` overflow is not modelled either. Widths, heights, counters and sizes are unbounded integers.
- `Mask.h` is not part of this model, so neither are the lookups it declares.
- OpenIdMask.Mask.FromFile: requires the name buffer and the total sample count to be smaller than 2^32. The code does not check this; past that limit its offsets wrap and the mask is inconsistent.
- OpenIdMask.Mask.FromFile: requires each per-pixel sample list of the file to be as long as that pixel's count. This is the file format's own consistency, which the library enforces.
- OpenIdMask.Mask.FromLists: requires one list per pixel, ids that are exactly `0..N-1` each used once, and totals that fit in 32 bits. The code checks none of these, and past them its arrays are inconsistent.
- NameTable.BuildNames: the ids are tied to the names through a ghost sequence `byId`, with name `id` at position `id`. The map's iteration order is left open: each loop step picks any name not yet handled.
