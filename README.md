# Bézier curve rasteriser: tessellation and buffer layout

The program reads a canvas (a size and a packed background colour) and a list
of curves. It tessellates each curve into a line strip, then renders the strips
on the GPU as a line list and writes the image to standard output. This project
models the two parts of that pipeline that are plain computation:

- **Tessellation** (`to_line_strip`, src/curve.rs). An empty control-point list
  is an error. Otherwise the function builds a half-size table of binomial
  coefficients by the recurrence `cs[i] = cs[i-1] * (len - i) / i`. It then
  evaluates the curve in Bernstein form at `samples` parameters
  `t = i / (samples - 1)`. It reads coefficient j of the table at the
  symmetric index `min(j, len - 1 - j)`.
- **The integer and buffer work of `generate_image`** (src/output.rs). This
  covers the canvas-size check and the colour-type to texture-format table. It
  also covers the vertex stride (a maximum of attribute ends, rounded up to the
  stride alignment) and the vertex count. Each strip expands into a line list
  with `windows(2).flatten()`, and a loop writes vertex i into bytes
  `[i * stride, (i + 1) * stride)` of the mapped vertex buffer. Then come the
  row pitch of the read-back buffer (rounded up to 256 bytes) and the loop that
  copies the rows out without their padding. Last is `to_rgb`, which unpacks
  `0x00RRGGBB` into three components in [0, 1].

Modules:
- `Common` (common.dfy) holds bytes, `u32`, `Result` and 2-D points.
- `Binomial` (binomial.dfy) holds Pascal's rule and its identities, and the
  binomial theorem.
- `Curve` (curve.dfy) models src/curve.rs.
- `Output` (output.dfy) models src/output.rs.

The model's choices:
- Arithmetic on positions and colours is over the reals. f32 rounding is not
  modelled.
- `powf` is `Pow`, with `Pow(x, 0) = 1` for every x.
- The coefficient table is a method with a loop, as the source fills a `Vec`.
  Evaluation and sampling are functions, as the source uses iterator
  expressions.
- The vertex buffer is an `array<u8>` that the fill loop updates in place. The
  de-padding loop appends to a sequence.
- Two parts are parameters of `Output.GenerateImage`:
  - `f32Bytes`, the native-endian byte image of a list of f32 values;
  - `render`, the GPU, from vertex bytes to read-back bytes.

src/input.rs:55-78 declares line and Catmull-Rom shapes, a De Casteljau mode
and a third (weight) component for Bézier control points, but `to_line_strip`
has code only for the Bézier case. The model follows that code. It has one
`Bezier` variant (`Curve.Parameter`) and ignores the third component. It has
no guard for `samples == 1`.

## Model

| member | source | states |
|---|---|---|
| Curve.CoefficientTable | src/curve.rs:21-26 | the table has `(len - 1) / 2 + 1` entries, starts with 1, and entry k is the binomial coefficient C(len - 1, k) |
| Binomial.ChooseRatioReal | src/curve.rs:25 | over the reals, C(n, k) = C(n, k - 1) * (n - k + 1) / k, the step the table loop performs |
| Binomial.ChooseSymmetric | src/curve.rs:36 | C(n, k) = C(n, n - k), which makes the half-size table enough |
| Curve.SymmetricIndex | src/curve.rs:21-36 | `min(j, len - 1 - j)` lies inside the table, is j or its mirror, and selects the same coefficient as j |
| Curve.SampleParameter | src/curve.rs:30 | for two or more samples, t = i / (samples - 1) lies in [0, 1]; it is 0 exactly for the first sample and 1 exactly for the last |
| Curve.SampleParameterIncreasing | src/curve.rs:28-30 | sample parameters strictly increase with the sample index |
| Curve.ToLineStrip | src/curve.rs:10-47 | empty control points are rejected and are the only error. Otherwise there are exactly `samples` points in index order. For two or more samples, point i is the Bézier curve at i / (samples - 1), and the first and last points are the first and last control points. One control point gives that point throughout. A single sample of a longer curve is NaN |
| Curve.Term | src/curve.rs:35-40 | with a table of binomial coefficients, the term `cs[min(j, n - j)] * t^j * (1 - t)^(n - j) * point` is control point j weighted by Bernstein polynomial j of degree n |
| Curve.PartialSum | src/curve.rs:32-41 | with a table of binomial coefficients, every prefix of the program's left-to-right sum from the origin equals the same prefix of the Bernstein sum |
| Curve.Evaluate | src/curve.rs:32-43 | with a table of binomial coefficients, the point the program computes at t is the Bézier curve at t |
| Curve.SampleAt | src/curve.rs:29-43 | a sample is NaN exactly when there is one sample and two or more control points. For two or more samples it is the Bézier curve at i / (samples - 1). With one control point it is that point |
| Curve.Samples | src/curve.rs:28-45 | there are exactly `samples` points, in index order. For two or more samples, point i is the curve at i / (samples - 1). With one control point each is that point. A single sample of a longer curve is NaN |
| Curve.BezierAtStart | src/curve.rs:36-41 | the curve at t = 0 is the first control point |
| Curve.BezierAtEnd | src/curve.rs:36-41 | the curve at t = 1 is the last control point |
| Curve.BezierOfOnePoint | src/curve.rs:21-22 | with one control point every parameter gives that point |
| Curve.BezierIgnoresWeights | src/curve.rs:39 | control points that agree in their first two components give the same curve |
| Binomial.BinomialTheorem | src/curve.rs:36-38 | the terms C(n, j) a^j b^(n-j) sum to (a + b)^n, so the per-point weights are the terms of an expansion |
| Binomial.BinomialExpansion | src/curve.rs:36-38 | the same sum equals c^n for any c = a + b, by induction on n over consecutive rows of Pascal's rule |
| Binomial.PartitionOfUnity | src/curve.rs:36-38 | the weights `C(n, j) t^j (1 - t)^(n - j)` sum to 1 at every t |
| Curve.BernsteinNonNegative | src/curve.rs:37-38 | for t in [0, 1] every weight is non-negative |
| Curve.BezierSumBounded | src/curve.rs:32-41 | a prefix of the sum lies between the box corners scaled by that prefix's total weight |
| Curve.BezierWithinBounds | src/curve.rs:28-41 | for t in [0, 1] every sample lies in any axis-aligned box that holds all control points |
| Curve.BezierOfEqualPoints | src/curve.rs:32-41 | control points at one position give a curve that stays there on [0, 1] |
| Output.CheckCanvas | src/output.rs:91-95 | a canvas with a zero width or height is rejected with its size; any other canvas passes |
| Output.TextureFormatOf | src/output.rs:136-144 | three-channel and float colour types are rejected. Every other type gets a format with its channel count and bytes per pixel |
| Output.TextureFormatInjective | src/output.rs:136-144 | no two colour types share a texture format |
| Output.DivCeil | src/output.rs:156 | `div_ceil` is the least q with q * b >= a |
| Output.AlignUp | src/output.rs:156-157 | the rounded value is a multiple of the alignment, at least x, and less than x plus the alignment |
| Output.AlignUpLeast | src/output.rs:285 | no multiple of the alignment at or above x lies below the rounded value |
| Output.AlignUpIdempotent | src/output.rs:285 | rounding an already rounded size changes nothing |
| Output.MaxEnd | src/output.rs:151-155 | the maximum bounds every attribute end and is attained by one |
| Output.VertexSize | src/output.rs:151-157 | an empty attribute list is an error. Otherwise the stride is a multiple of 4 that holds every attribute and is less than some attribute end plus 4 |
| Output.VertexSizeOfVertexAttributes | src/output.rs:146-157 | the position (`Float32x2`) and colour (`Float32x3`) attributes give a 20-byte vertex |
| Output.LineList | src/output.rs:221-226 | a strip of n >= 1 positions expands to 2 (n - 1) positions, entry k being position (k + 1) / 2: p0, p1, p1, p2, ... |
| Output.StripVertices | src/output.rs:221-226 | a strip of n >= 1 positions gives 2 (n - 1) vertices. Vertex k is position (k + 1) / 2 with the strip's colour |
| Output.Vertices | src/output.rs:219-227 | every vertex the loop visits is a position of some strip and carries that strip's colour |
| Output.VerticesOfConcatenation | src/output.rs:219-227 | the vertices of concatenated strip lists are the concatenated vertices, in strip order |
| Output.VertexCount | src/output.rs:203-206 | the corrected count, where a strip with no positions counts 0. It is even: the line list is drawn as vertex pairs |
| Output.VertexCountIsVertices | src/output.rs:203-206 | the vertex count is the number of vertices the fill loop visits |
| Output.VertexCountAsWritten | src/output.rs:203-206 | the count in wrapping 64-bit `usize` arithmetic, as written; it is always below 2^64 |
| Output.VertexCountOfNonEmptyStrips | src/output.rs:203-206 | on non-empty strips the count is the sum of 2 (len - 1) |
| Output.VertexCountAsWrittenAgrees | src/output.rs:203-206 | on non-empty strips whose count fits in 64 bits, the count in wrapping `usize` arithmetic is the true count |
| Output.VertexCountAsWrittenUnderflows | src/output.rs:205 | a strip with no positions gives 2^64 - 2 in wrapping arithmetic, but it has no vertices |
| Output.BigEndianBytes | src/output.rs:409 | four bytes, most significant first, that recompose the value |
| Output.ToRgb | src/output.rs:408-418 | fails exactly when the top byte is non-zero, with the raw value. Otherwise it gives three components in [0, 1] whose values times 255 recompose the packed colour |
| Output.ToRgbComponents | src/output.rs:409-417 | the components are `(raw >> 16) & 0xFF`, `(raw >> 8) & 0xFF` and `raw & 0xFF`, each over 255 |
| Output.Ndc | src/output.rs:235 | `2 p / size - 1` maps back to the canvas position |
| Output.WriteAttribute | src/output.rs:403-406 | the attribute's bytes land at `[offset, offset + size)` and no other byte of the vertex changes |
| Output.VertexImage | src/output.rs:230-238 | a filled vertex has the position's bytes in 0..8, the colour's bytes in 8..20, and its padding untouched |
| Output.WriteAttributeAt | src/output.rs:230-236 | `write_attribute` on a vertex slice changes slot i of the mapped buffer and nothing else |
| Output.FirstInvalid | src/output.rs:219-238 | the index of the first vertex, in iteration order, whose colour `to_rgb` rejects: every earlier colour is valid and that one is not. Without one it is the vertex count |
| Output.WriteVertices | src/output.rs:219-239 | the loop succeeds exactly when every vertex colour is valid; otherwise the error is `to_rgb`'s, for the first invalid vertex in iteration order. On success, slot i holds vertex i |
| Output.RowSize | src/output.rs:277-282 | for the texture format of a colour type, a row is `width` pixels of that type's bytes per pixel |
| Output.AlignedRowSize | src/output.rs:284-285 | the row pitch is a multiple of 256, at least the row size, and less than the row size plus 256 |
| Output.RemoveRowPadding | src/output.rs:368-376 | the image has `row_size * row_count` bytes, and image row i is the first `row_size` bytes of buffer row i |
| Output.RemovedPaddingAt | src/output.rs:372-375 | `image[i * row_size + k] = buffer[i * aligned_row_size + k]` for every row i and byte k < row_size |
| Output.ReadbackSize | src/output.rs:281-289 | the read-back buffer is a multiple of 256 bytes and holds at least the w * h * 4 bytes of the image |
| Output.ImageDataSize | src/output.rs:368 | an Rgba8 image of w by h pixels has w * h * 4 bytes without padding |
| Output.GenerateImage | src/output.rs:90-376 | the steps run in the program's order, and each error path is stated. A bad canvas yields its size error. With a good canvas, an invalid vertex colour yields `to_rgb`'s error for the first such vertex. Failing that, an invalid clear colour yields its error. Success holds exactly when the canvas, every vertex colour and the clear colour are all valid. On success, every vertex slot holds its vertex over a zero-filled buffer, the image has w * h * 4 bytes, and each image row is the unpadded read-back row |

## Left out

- GPU work: instance, adapter, device, shader, pipeline, textures, buffers, render pass and submit (src/output.rs:97-132, 159-201, 208-217, 241-366). This is a foreign API; `Output.GenerateImage` takes the render-and-read-back step as the parameter `render`. The mapped vertex buffer is an array the method allocates itself, zero-filled; bytes that the loop does not write keep that value.
- `map_async`, the channel and `device.poll` (src/output.rs:353-367): asynchronous and concurrent.
- Image encoding and the write to standard output (src/output.rs:380-394): library calls and I/O.
- f32 rounding in `powf`, the sums, the normalised-device-coordinate conversion and the division by 255: arithmetic is over the reals.
- The byte image of f32 values in `write_attribute` (an unsafe transmute): it is the function parameter `f32Bytes`, specified only by its length.
- NaN values are not modelled as reals. A single sample of a curve with two or more control points is the constructor `NotANumber`, standing for a point whose two coordinates are NaN.
- The u32 products `block_size * width` and `aligned_row_size * row_count`, and the u64 product `vertex_count * vertex_size`, are not bounded: these sizes are unbounded integers here. The same holds for the truncating cast `vertex_count as u32` passed to `draw` (src/output.rs:282-289, 210, 329).
- Output.VertexCount: the corrected count, used by the rest of the model. The written loop of src/output.rs:203-206 is modelled separately as `Output.VertexCountAsWritten`, which wraps modulo 2^64 (see Findings).
- `block_copy_size` returning `None` (src/output.rs:277-279): it returns a size for every format the colour-type table can produce.
- `Vec::with_capacity` is taken to allocate exactly the requested capacity, so the table loop of src/curve.rs:24 runs to `(len - 1) / 2 + 1`.
- src/input.rs, src/args.rs, src/main.rs, src/status.rs and src/term.rs: deserialisation, argument parsing, orchestration and exit codes. `crate::input::Parameter` does not exist in src/input.rs (its enum is `Shape`); `Curve.Parameter` is the one-variant type the match in src/curve.rs:11-15 needs.
- Line and Catmull-Rom shapes, De Casteljau mode and the weight component declared in src/input.rs:55-78: src/curve.rs has no code for them, so there is nothing to model.

## Findings

| source | as written | input that shows it | evidently intended | confidence | as-written member | corrected member |
|---|---|---|---|---|---|---|
| src/output.rs:203-206 | `2 * (line_strip.positions.len() - 1)` subtracts 1 from an unsigned length | a curve with `samples = 0` gives a strip with no positions. The count becomes 2^64 - 2 in a release build (a panic in a debug build), though the strip has no vertices | a strip with no positions contributes 0 vertices | not executed | Output.VertexCountAsWrittenUnderflows | Output.VertexCountIsVertices |
