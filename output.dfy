/**
  The integer and buffer logic of image generation (src/output.rs): the canvas
  check, the colour-type table, the vertex layout and the vertex buffer fill,
  row-pitch alignment, the copy that strips row padding out of the texture
  read-back buffer, and the unpacking of a packed RGB colour.
*/
module Output {
  import opened Common

  // ---------------------------------------------------------------------------
  // Errors and the canvas
  // ---------------------------------------------------------------------------

  /** The image's colour type, as the image-encoding library enumerates it. */
  datatype ColorType = L8 | La8 | Rgb8 | Rgba8 | L16 | La16 | Rgb16 | Rgba16 | Rgb32F | Rgba32F

  /** The texture formats the renderer can target. */
  datatype TextureFormat = R8Unorm | Rg8Unorm | Rgba8Unorm | R16Unorm | Rg16Unorm | Rgba16Unorm

  datatype OutputError =
    | InvalidCanvasSize(width: u32, height: u32)
    | UnsupportedColorType(colorType: ColorType)
    | NoVertexSize
    | InvalidRgb(raw: u32)

  /** The canvas: its size `[width, height]` and its packed background colour. */
  datatype Canvas = Canvas(width: u32, height: u32, color: u32)

  /** The first check of image generation: both dimensions must be non-zero. */
  function CheckCanvas(canvas: Canvas): (r: Result<(), OutputError>)
    ensures r.Ok? <==> canvas.width * canvas.height > 0
    ensures r.Err? ==> r.error == InvalidCanvasSize(canvas.width, canvas.height)
  {
    PositiveProduct(canvas.width, canvas.height);
    if canvas.width != 0 && canvas.height != 0 then Ok(()) else Err(InvalidCanvasSize(canvas.width, canvas.height))
  }

  lemma PositiveProduct(a: nat, b: nat)
    ensures a * b > 0 <==> a > 0 && b > 0
  {
    if a > 0 && b > 0 {
      MulLe(1, a, b);
    }
  }

  // ---------------------------------------------------------------------------
  // Colour type to texture format
  // ---------------------------------------------------------------------------

  function ChannelCount(c: ColorType): nat
  {
    match c
    case L8 | L16 => 1
    case La8 | La16 => 2
    case Rgb8 | Rgb16 | Rgb32F => 3
    case Rgba8 | Rgba16 | Rgba32F => 4
  }

  function BytesPerPixel(c: ColorType): nat
  {
    match c
    case L8 => 1
    case La8 => 2
    case Rgb8 => 3
    case Rgba8 => 4
    case L16 => 2
    case La16 => 4
    case Rgb16 => 6
    case Rgba16 => 8
    case Rgb32F => 12
    case Rgba32F => 16
  }

  predicate IsFloat(c: ColorType)
  {
    c == Rgb32F || c == Rgba32F
  }

  function ComponentCount(f: TextureFormat): nat
  {
    match f
    case R8Unorm | R16Unorm => 1
    case Rg8Unorm | Rg16Unorm => 2
    case Rgba8Unorm | Rgba16Unorm => 4
  }

  /** The bytes one texel of the format occupies in a buffer copy, `block_copy_size`. */
  function BlockCopySize(f: TextureFormat): nat
  {
    match f
    case R8Unorm => 1
    case Rg8Unorm => 2
    case Rgba8Unorm => 4
    case R16Unorm => 2
    case Rg16Unorm => 4
    case Rgba16Unorm => 8
  }

  /**
    The texture format the image is rendered into. Three-channel and float
    colour types have no matching format; every other colour type gets a format
    with the same channels and the same bytes per pixel.
  */
  function TextureFormatOf(c: ColorType): (r: Result<TextureFormat, OutputError>)
    ensures r.Err? <==> ChannelCount(c) == 3 || IsFloat(c)
    ensures r.Err? ==> r.error == UnsupportedColorType(c)
    ensures r.Ok? ==> ComponentCount(r.value) == ChannelCount(c)
    ensures r.Ok? ==> BlockCopySize(r.value) == BytesPerPixel(c)
  {
    match c
    case L8 => Ok(R8Unorm)
    case La8 => Ok(Rg8Unorm)
    case Rgba8 => Ok(Rgba8Unorm)
    case L16 => Ok(R16Unorm)
    case La16 => Ok(Rg16Unorm)
    case Rgba16 => Ok(Rgba16Unorm)
    case _ => Err(UnsupportedColorType(c))
  }

  /** No two colour types share a texture format. */
  lemma TextureFormatInjective(c: ColorType, c': ColorType)
    requires TextureFormatOf(c).Ok? && TextureFormatOf(c) == TextureFormatOf(c')
    ensures c == c'
  {
    match c
    case L8 =>
    case La8 =>
    case Rgba8 =>
    case L16 =>
    case La16 =>
    case Rgba16 =>
  }

  // ---------------------------------------------------------------------------
  // Rounding up to an alignment
  // ---------------------------------------------------------------------------

  lemma MulLe(a: nat, b: nat, c: nat)
    requires a <= b
    ensures a * c <= b * c
  {
  }

  /** Unsigned `div_ceil`: the least q with q * b >= a. */
  function DivCeil(a: nat, b: nat): (q: nat)
    requires b > 0
    ensures q * b >= a
    ensures q == 0 || (q - 1) * b < a
  {
    var d, m := a / b, a % b;
    assert a == d * b + m;
    if m > 0 then
      assert (d + 1) * b == d * b + b;
      d + 1
    else
      assert d > 0 ==> (d - 1) * b == d * b - b;
      d
  }

  /** `x.div_ceil(alignment) * alignment`: the least multiple of the alignment not below x. */
  function AlignUp(x: nat, alignment: nat): (r: nat)
    requires alignment > 0
    ensures r % alignment == 0
    ensures x <= r < x + alignment
  {
    var q := DivCeil(x, alignment);
    assert q > 0 ==> q * alignment == (q - 1) * alignment + alignment;
    MultipleMod(q, alignment);
    q * alignment
  }

  lemma MultipleMod(q: nat, b: nat)
    requires b > 0
    ensures (q * b) % b == 0
  {
    var m := q * b;
    assert m == q * b + 0;
    DivModUnique(m, b, q, 0);
  }

  lemma DivModUnique(m: nat, b: nat, q: nat, r: nat)
    requires b > 0 && r < b && m == q * b + r
    ensures m / b == q && m % b == r
  {
    var q', r' := m / b, m % b;
    assert (q' - q) * b == r - r';
    MulSign(q' - q, b);
  }

  lemma MulSign(d: int, b: nat)
    ensures d >= 1 ==> d * b >= b
    ensures d <= -1 ==> d * b + b <= 0
  {
  }

  /** No multiple of the alignment between x and AlignUp(x) is skipped. */
  lemma AlignUpLeast(x: nat, alignment: nat, m: nat)
    requires alignment > 0 && m % alignment == 0 && x <= m
    ensures AlignUp(x, alignment) <= m
  {
    var r := AlignUp(x, alignment);
    var q, k := r / alignment, m / alignment;
    assert r == q * alignment;
    assert m == k * alignment;
    assert (q - k - 1) * alignment == r - m - alignment;
    MulSign(q - k - 1, alignment);
    MulLe(q, k, alignment);
  }

  /** Aligning an aligned size changes nothing. */
  lemma AlignUpIdempotent(x: nat, alignment: nat)
    requires alignment > 0
    ensures AlignUp(AlignUp(x, alignment), alignment) == AlignUp(x, alignment)
  {
    var r := AlignUp(x, alignment);
    AlignUpLeast(r, alignment, r);
  }

  // ---------------------------------------------------------------------------
  // Vertex layout
  // ---------------------------------------------------------------------------

  datatype VertexFormat = Float32x2 | Float32x3

  /** The byte size of a vertex attribute format. */
  function FormatSize(f: VertexFormat): nat
  {
    match f
    case Float32x2 => 8
    case Float32x3 => 12
  }

  datatype VertexAttribute = VertexAttribute(format: VertexFormat, offset: nat, shaderLocation: nat)

  /**
    The vertex attributes: a position at location 0 and a colour at location 1,
    packed back to back as the attribute-array macro lays them out.
  */
  const VertexAttributes: seq<VertexAttribute> :=
    [VertexAttribute(Float32x2, 0, 0), VertexAttribute(Float32x3, 8, 1)]

  const VERTEX_STRIDE_ALIGNMENT: nat := 4

  const COPY_BYTES_PER_ROW_ALIGNMENT: nat := 256

  /** `attribute.format.size() + attribute.offset`: one past the attribute's last byte. */
  function AttributeEnd(a: VertexAttribute): nat
  {
    FormatSize(a.format) + a.offset
  }

  /** The largest attribute end, `.max()` over the attributes. */
  function MaxEnd(attributes: seq<VertexAttribute>): (m: nat)
    requires |attributes| > 0
    ensures forall a :: a in attributes ==> AttributeEnd(a) <= m
    ensures exists a :: a in attributes && AttributeEnd(a) == m
  {
    if |attributes| == 1 then
      AttributeEnd(attributes[0])
    else
      var rest := MaxEnd(attributes[1..]);
      assert forall a :: a in attributes ==> a == attributes[0] || a in attributes[1..];
      if AttributeEnd(attributes[0]) > rest then AttributeEnd(attributes[0]) else rest
  }

  /**
    The vertex stride: the least multiple of the stride alignment that holds
    every attribute. An empty attribute list has no size.
  */
  function VertexSize(attributes: seq<VertexAttribute>): (r: Result<nat, OutputError>)
    ensures r.Err? <==> |attributes| == 0
    ensures r.Err? ==> r.error == NoVertexSize
    ensures r.Ok? ==> r.value % VERTEX_STRIDE_ALIGNMENT == 0
    ensures r.Ok? ==> forall a :: a in attributes ==> AttributeEnd(a) <= r.value
    ensures r.Ok? ==> exists a :: a in attributes && r.value < AttributeEnd(a) + VERTEX_STRIDE_ALIGNMENT
  {
    if |attributes| == 0 then Err(NoVertexSize)
    else Ok(AlignUp(MaxEnd(attributes), VERTEX_STRIDE_ALIGNMENT))
  }

  /** The program's two attributes give a 20-byte vertex. */
  lemma VertexSizeOfVertexAttributes()
    ensures VertexSize(VertexAttributes) == Ok(20)
  {
    var m := MaxEnd(VertexAttributes);
    assert AttributeEnd(VertexAttributes[1]) == 20;
    assert m == 20;
    assert 20 == 5 * 4 + 0;
    DivModUnique(20, 4, 5, 0);
  }

  // ---------------------------------------------------------------------------
  // Line strips and their expansion into a line list
  // ---------------------------------------------------------------------------

  /** A tessellated curve and its packed colour. */
  datatype LineStrip = LineStrip(positions: seq<Point2>, color: u32)

  /** One vertex of the line list: a position and the colour of its strip. */
  datatype Vertex = Vertex(position: Point2, color: u32)

  /**
    `positions.windows(2).flatten()`: the two ends of every segment in turn,
    p0, p1, p1, p2, ..., p(n-2), p(n-1). Fewer than two positions give nothing.
  */
  function LineList(positions: seq<Point2>): (r: seq<Point2>)
    ensures |r| == if |positions| == 0 then 0 else 2 * (|positions| - 1)
    ensures forall k :: 0 <= k < |r| ==> r[k] == positions[(k + 1) / 2]
  {
    if |positions| < 2 then []
    else
      var rest := LineList(positions[1..]);
      assert forall k :: 0 <= k < |rest| ==> rest[k] == positions[(k + 1) / 2 + 1];
      [positions[0], positions[1]] + rest
  }

  /** The vertices of one strip: its line list, each position paired with the strip's colour. */
  function StripVertices(strip: LineStrip): (r: seq<Vertex>)
    ensures |r| == StripVertexCount(|strip.positions|)
    ensures forall k :: 0 <= k < |r| ==> r[k] == Vertex(strip.positions[(k + 1) / 2], strip.color)
  {
    var list := LineList(strip.positions);
    seq(|list|, k requires 0 <= k < |list| => Vertex(list[k], strip.color))
  }

  /**
    The vertices the fill loop visits: every strip's line list, strips in order.
    Each vertex is a position of some strip, carrying that strip's colour.
  */
  function Vertices(strips: seq<LineStrip>): (r: seq<Vertex>)
    ensures forall k :: 0 <= k < |r| ==>
              exists s :: s in strips && r[k].position in s.positions && r[k].color == s.color
  {
    if strips == [] then []
    else
      var first, rest := StripVertices(strips[0]), Vertices(strips[1..]);
      assert forall s :: s in strips[1..] ==> s in strips;
      assert forall k :: 0 <= k < |first| ==> first[k].position in strips[0].positions;
      first + rest
  }

  /** The line list of a strip with `len` positions has this many vertices. */
  function StripVertexCount(len: nat): nat
  {
    if len == 0 then 0 else 2 * (len - 1)
  }

  /**
    The number of vertices of the vertex buffer, a strip with no positions
    counting 0. It is even: the line list is drawn as pairs of vertices.
  */
  function VertexCount(strips: seq<LineStrip>): (r: nat)
    ensures r % 2 == 0
  {
    if strips == [] then 0 else StripVertexCount(|strips[0].positions|) + VertexCount(strips[1..])
  }

  /** The count sizes the buffer for exactly the vertices the fill loop writes. */
  lemma {:induction false} VertexCountIsVertices(strips: seq<LineStrip>)
    ensures VertexCount(strips) == |Vertices(strips)|
  {
    if strips != [] {
      VertexCountIsVertices(strips[1..]);
    }
  }

  /** For non-empty strips the count is the sum of 2 * (len - 1). */
  lemma {:induction false} VertexCountOfNonEmptyStrips(strips: seq<LineStrip>)
    requires forall s :: s in strips ==> |s.positions| >= 1
    ensures VertexCount(strips) == SumOfSegmentEnds(strips)
  {
    if strips != [] {
      assert strips[0] in strips;
      assert forall s :: s in strips[1..] ==> s in strips;
      VertexCountOfNonEmptyStrips(strips[1..]);
    }
  }

  /** The sum of 2 * (len - 1) over strips that each have at least one position. */
  function SumOfSegmentEnds(strips: seq<LineStrip>): int
  {
    if strips == [] then 0 else 2 * (|strips[0].positions| - 1) + SumOfSegmentEnds(strips[1..])
  }

  /** Expansion is a homomorphism: the strips' vertices follow one another in order. */
  lemma {:induction false} VerticesOfConcatenation(strips: seq<LineStrip>, more: seq<LineStrip>)
    ensures Vertices(strips + more) == Vertices(strips) + Vertices(more)
  {
    if strips == [] {
      assert strips + more == more;
    } else {
      assert (strips + more)[1..] == strips[1..] + more;
      VerticesOfConcatenation(strips[1..], more);
    }
  }

  // ---------------------------------------------------------------------------
  // The vertex count as written: unsigned arithmetic that wraps
  // ---------------------------------------------------------------------------

  const USIZE_MODULUS: nat := 0x1_0000_0000_0000_0000

  /** A 64-bit `usize` subtraction, wrapping as a release build does. */
  function WrappingSub(a: nat, b: nat): nat
  {
    (a - b) % USIZE_MODULUS
  }

  /** The count as written: `sum of 2 * (len - 1)` in wrapping 64-bit arithmetic. */
  function VertexCountAsWritten(strips: seq<LineStrip>): (r: nat)
    ensures r < USIZE_MODULUS
  {
    if strips == [] then 0
    else (2 * WrappingSub(|strips[0].positions|, 1) + VertexCountAsWritten(strips[1..])) % USIZE_MODULUS
  }

  /** A strip with no positions makes the as-written count disagree with the vertices written. */
  lemma VertexCountAsWrittenUnderflows()
    ensures VertexCountAsWritten([LineStrip([], 0)]) == USIZE_MODULUS - 2
    ensures |Vertices([LineStrip([], 0)])| == 0
  {
    var strips := [LineStrip([], 0)];
    assert strips[1..] == [];
    assert WrappingSub(0, 1) == USIZE_MODULUS - 1;
    assert VertexCountAsWritten(strips) == (2 * (USIZE_MODULUS - 1)) % USIZE_MODULUS;
    assert Vertices(strips) == StripVertices(strips[0]) + Vertices([]);
  }

  /** On non-empty strips whose count fits in a `usize`, the as-written count is the count. */
  lemma {:induction false} VertexCountAsWrittenAgrees(strips: seq<LineStrip>)
    requires forall s :: s in strips ==> |s.positions| >= 1
    requires VertexCount(strips) < USIZE_MODULUS
    ensures VertexCountAsWritten(strips) == VertexCount(strips)
  {
    if strips != [] {
      assert strips[0] in strips;
      assert forall s :: s in strips[1..] ==> s in strips;
      var len, rest := |strips[0].positions|, strips[1..];
      assert VertexCount(strips) == 2 * (len - 1) + VertexCount(rest);
      VertexCountAsWrittenAgrees(rest);
      SmallMod(len - 1);
      assert WrappingSub(len, 1) == len - 1;
      SmallMod(2 * (len - 1) + VertexCountAsWritten(rest));
    }
  }

  lemma SmallMod(x: int)
    requires 0 <= x < USIZE_MODULUS
    ensures x % USIZE_MODULUS == x
  {
  }

  // ---------------------------------------------------------------------------
  // Packed colours
  // ---------------------------------------------------------------------------

  /** `raw.to_be_bytes()`: the four bytes of a 32-bit value, most significant first. */
  function BigEndianBytes(raw: u32): (b: seq<u8>)
    ensures |b| == 4
    ensures ((b[0] as int * 0x100 + b[1]) * 0x100 + b[2]) * 0x100 + b[3] == raw
  {
    var b0, low := raw / 0x100_0000, raw % 0x100_0000;
    var b1, low' := low / 0x1_0000, low % 0x1_0000;
    [b0, b1, low' / 0x100, low' % 0x100]
  }

  /**
    `to_rgb`: a packed 0xRRGGBB colour as three components in [0, 1]. It fails
    exactly when the most significant byte is set; otherwise the components,
    scaled back by 255, recompose the packed value.
  */
  function ToRgb(raw: u32): (r: Result<seq<real>, OutputError>)
    ensures r.Err? <==> raw >= 0x100_0000
    ensures r.Err? ==> r.error == InvalidRgb(raw)
    ensures r.Ok? ==> |r.value| == 3
    ensures r.Ok? ==> forall c :: 0 <= c < 3 ==> 0.0 <= r.value[c] <= 1.0
    ensures r.Ok? ==> (r.value[0] * 255.0 * 256.0 + r.value[1] * 255.0) * 256.0 + r.value[2] * 255.0 == raw as real
  {
    var rgb := BigEndianBytes(raw);
    if rgb[0] != 0 then Err(InvalidRgb(raw))
    else Ok([rgb[1] as real / 255.0, rgb[2] as real / 255.0, rgb[3] as real / 255.0])
  }

  /** The components are bytes 1, 2 and 3 of the packed value, over 255. */
  lemma ToRgbComponents(raw: u32)
    requires raw < 0x100_0000
    ensures ToRgb(raw) == Ok([(raw / 0x1_0000) as real / 255.0,
                              ((raw % 0x1_0000) / 0x100) as real / 255.0,
                              (raw % 0x100) as real / 255.0])
  {
    assert raw % 0x100_0000 == raw;
    var low := raw % 0x1_0000;
    var q, r := low / 0x100, low % 0x100;
    assert raw == ((raw / 0x1_0000) * 0x100 + q) * 0x100 + r;
    DivModUnique(raw, 0x100, (raw / 0x1_0000) * 0x100 + q, r);
  }

  // ---------------------------------------------------------------------------
  // Filling the vertex buffer
  // ---------------------------------------------------------------------------

  /** The normalised device coordinates of a canvas position, `2 p / size - 1`. */
  function Ndc(p: Point2, canvas: Canvas): (r: seq<real>)
    requires canvas.width > 0 && canvas.height > 0
    ensures |r| == 2
    ensures (r[0] + 1.0) * canvas.width as real / 2.0 == p.x
    ensures (r[1] + 1.0) * canvas.height as real / 2.0 == p.y
  {
    [2.0 * p.x / canvas.width as real - 1.0, 2.0 * p.y / canvas.height as real - 1.0]
  }

  /** `write_attribute`: the attribute's bytes over its byte range of the vertex. */
  function WriteAttribute(vertex: seq<u8>, attribute: VertexAttribute, value: seq<u8>): (r: seq<u8>)
    requires |value| == FormatSize(attribute.format) && AttributeEnd(attribute) <= |vertex|
    ensures |r| == |vertex|
    ensures forall k :: 0 <= k < |r| ==>
              r[k] == if attribute.offset <= k < AttributeEnd(attribute) then value[k - attribute.offset] else vertex[k]
  {
    vertex[..attribute.offset] + value + vertex[AttributeEnd(attribute)..]
  }

  /** Slot i of a buffer cut into pieces of `size` bytes; empty when the buffer is too short. */
  function Slot(s: seq<u8>, i: nat, size: nat): (r: seq<u8>)
    ensures (i + 1) * size <= |s| ==> |r| == size
  {
    if (i + 1) * size <= |s| then
      MulLe(i, i + 1, size);
      s[i * size..(i + 1) * size]
    else []
  }

  /** The buffer with slot i replaced by x. */
  function ReplaceSlot(s: seq<u8>, i: nat, size: nat, x: seq<u8>): seq<u8>
  {
    if (i + 1) * size <= |s| && |x| == size then
      MulLe(i, i + 1, size);
      s[..i * size] + x + s[(i + 1) * size..]
    else s
  }

  lemma SlotInside(s: seq<u8>, i: nat, n: nat, size: nat)
    requires i < n && |s| == n * size
    ensures (i + 1) * size <= |s| && |Slot(s, i, size)| == size
  {
    MulLe(i + 1, n, size);
    assert (i + 1) * size == i * size + size;
  }

  lemma SlotOfReplaceSlot(s: seq<u8>, i: nat, size: nat, x: seq<u8>, j: nat)
    requires (i + 1) * size <= |s| && |x| == size && (j + 1) * size <= |s|
    ensures |ReplaceSlot(s, i, size, x)| == |s|
    ensures Slot(ReplaceSlot(s, i, size, x), j, size) == if j == i then x else Slot(s, j, size)
  {
    assert (i + 1) * size == i * size + size;
    assert (j + 1) * size == j * size + size;
    if j < i {
      MulLe(j + 1, i, size);
    } else if i < j {
      MulLe(i + 1, j, size);
    }
  }

  /**
    The bytes of a filled vertex: the position in normalised device coordinates
    at the first attribute, the colour at the second, the padding untouched.
  */
  function VertexImage(vertex: seq<u8>, position: Point2, rgb: seq<real>, canvas: Canvas,
                       f32Bytes: seq<real> -> seq<u8>): (r: seq<u8>)
    requires canvas.width > 0 && canvas.height > 0 && |rgb| == 3 && |vertex| >= 20
    requires forall v :: |f32Bytes(v)| == 4 * |v|
    ensures |r| == |vertex|
    ensures r[..8] == f32Bytes(Ndc(position, canvas))
    ensures r[8..20] == f32Bytes(rgb)
    ensures r[20..] == vertex[20..]
  {
    var withPosition := WriteAttribute(vertex, VertexAttributes[0], f32Bytes(Ndc(position, canvas)));
    WriteAttribute(withPosition, VertexAttributes[1], f32Bytes(rgb))
  }

  /** `write_attribute` on the sub-slice of vertex i of the mapped buffer. */
  method WriteAttributeAt(view: array<u8>, i: nat, size: nat, attribute: VertexAttribute, value: seq<u8>)
    requires (i + 1) * size <= view.Length
    requires |value| == FormatSize(attribute.format) && AttributeEnd(attribute) <= size
    modifies view
    ensures view[..] == ReplaceSlot(old(view[..]), i, size,
                                    WriteAttribute(Slot(old(view[..]), i, size), attribute, value))
  {
    assert (i + 1) * size == i * size + size;
    var base := i * size + attribute.offset;
    forall k | 0 <= k < |value| {
      view[base + k] := value[k];
    }
    assert WrittenAt(old(view[..]), view[..], base, value);
    WrittenInSlot(old(view[..]), view[..], i, size, attribute, value);
  }

  /** t is s with `value` written over the bytes starting at `base`. */
  ghost predicate WrittenAt(s: seq<u8>, t: seq<u8>, base: nat, value: seq<u8>)
  {
    && |t| == |s|
    && forall b :: 0 <= b < |t| ==> t[b] == if base <= b < base + |value| then value[b - base] else s[b]
  }

  /** Writing an attribute at its offset inside slot i is writing it into that slot. */
  lemma WrittenInSlot(s: seq<u8>, t: seq<u8>, i: nat, size: nat, attribute: VertexAttribute, value: seq<u8>)
    requires (i + 1) * size <= |s|
    requires |value| == FormatSize(attribute.format) && AttributeEnd(attribute) <= size
    requires WrittenAt(s, t, i * size + attribute.offset, value)
    ensures t == ReplaceSlot(s, i, size, WriteAttribute(Slot(s, i, size), attribute, value))
  {
    assert (i + 1) * size == i * size + size;
    var slot := Slot(s, i, size);
    var written := WriteAttribute(slot, attribute, value);
    var expected := ReplaceSlot(s, i, size, written);
    forall b | 0 <= b < |t| ensures t[b] == expected[b] {
      ReplaceSlotAt(s, i, size, written, b);
      if i * size <= b < i * size + size {
        assert written[b - i * size] == if attribute.offset <= b - i * size < AttributeEnd(attribute)
          then value[b - i * size - attribute.offset] else slot[b - i * size];
      }
    }
  }

  lemma ReplaceSlotAt(s: seq<u8>, i: nat, size: nat, x: seq<u8>, b: nat)
    requires (i + 1) * size <= |s| && |x| == size && b < |s|
    ensures |ReplaceSlot(s, i, size, x)| == |s|
    ensures |Slot(s, i, size)| == size
    ensures ReplaceSlot(s, i, size, x)[b] == if i * size <= b < i * size + size then x[b - i * size] else s[b]
    ensures i * size <= b < i * size + size ==> Slot(s, i, size)[b - i * size] == s[b]
  {
    assert (i + 1) * size == i * size + size;
  }

  /**
    The state of the vertex buffer after the first i iterations: slots [0, i)
    hold their vertex, the others still hold their original bytes.
  */
  ghost predicate FilledUpTo(s: seq<u8>, original: seq<u8>, vertices: seq<Vertex>, i: nat, size: nat,
                             canvas: Canvas, f32Bytes: seq<real> -> seq<u8>)
    requires canvas.width > 0 && canvas.height > 0 && size >= 20
    requires forall v :: |f32Bytes(v)| == 4 * |v|
  {
    && |s| == |original| == |vertices| * size
    && i <= |vertices|
    && (forall j :: 0 <= j < i ==> ToRgb(vertices[j].color).Ok?)
    && (forall j :: 0 <= j < i ==>
          |Slot(original, j, size)| == size &&
          Slot(s, j, size) == VertexImage(Slot(original, j, size), vertices[j].position,
                                          ToRgb(vertices[j].color).value, canvas, f32Bytes))
    && (forall j :: i <= j < |vertices| ==> Slot(s, j, size) == Slot(original, j, size))
  }

  lemma FillStep(s: seq<u8>, withPosition: seq<u8>, withColor: seq<u8>, original: seq<u8>,
                 vertices: seq<Vertex>, i: nat, size: nat, canvas: Canvas, f32Bytes: seq<real> -> seq<u8>)
    requires canvas.width > 0 && canvas.height > 0 && size >= 20
    requires forall v :: |f32Bytes(v)| == 4 * |v|
    requires FilledUpTo(s, original, vertices, i, size, canvas, f32Bytes) && i < |vertices|
    requires (i + 1) * size <= |s|
    requires ToRgb(vertices[i].color).Ok?
    requires withPosition == ReplaceSlot(s, i, size,
               WriteAttribute(Slot(s, i, size), VertexAttributes[0], f32Bytes(Ndc(vertices[i].position, canvas))))
    requires withColor == ReplaceSlot(withPosition, i, size,
               WriteAttribute(Slot(withPosition, i, size), VertexAttributes[1], f32Bytes(ToRgb(vertices[i].color).value)))
    ensures FilledUpTo(withColor, original, vertices, i + 1, size, canvas, f32Bytes)
  {
    var n := |vertices|;
    SlotInside(s, i, n, size);
    var w0 := WriteAttribute(Slot(s, i, size), VertexAttributes[0], f32Bytes(Ndc(vertices[i].position, canvas)));
    SlotOfReplaceSlot(s, i, size, w0, i);
    var w1 := WriteAttribute(w0, VertexAttributes[1], f32Bytes(ToRgb(vertices[i].color).value));
    TwoWritesSlots(s, withPosition, withColor, i, n, size, w0, w1);
    SlotInside(original, i, n, size);
    assert Slot(s, i, size) == Slot(original, i, size);
    assert w1 == VertexImage(Slot(original, i, size), vertices[i].position,
                             ToRgb(vertices[i].color).value, canvas, f32Bytes);
  }

  /** Two writes into slot i leave every other slot of the buffer as it was. */
  lemma TwoWritesSlots(s: seq<u8>, withPosition: seq<u8>, withColor: seq<u8>, i: nat, n: nat, size: nat,
                       w0: seq<u8>, w1: seq<u8>)
    requires |s| == n * size && i < n && |w0| == size && |w1| == size
    requires withPosition == ReplaceSlot(s, i, size, w0)
    requires withColor == ReplaceSlot(withPosition, i, size, w1)
    ensures |withColor| == |s|
    ensures forall j :: 0 <= j < n ==> Slot(withColor, j, size) == if j == i then w1 else Slot(s, j, size)
  {
    SlotInside(s, i, n, size);
    SlotOfReplaceSlot(s, i, size, w0, i);
    forall j | 0 <= j < n
      ensures Slot(withColor, j, size) == if j == i then w1 else Slot(s, j, size)
    {
      SlotInside(s, j, n, size);
      SlotOfReplaceSlot(s, i, size, w0, j);
      SlotOfReplaceSlot(withPosition, i, size, w1, j);
    }
  }

  /** The index of the first vertex whose colour `to_rgb` rejects, or the count when there is none. */
  function FirstInvalid(vertices: seq<Vertex>): (k: nat)
    ensures k <= |vertices|
    ensures forall j :: 0 <= j < k ==> ToRgb(vertices[j].color).Ok?
    ensures k < |vertices| ==> ToRgb(vertices[k].color).Err?
  {
    if vertices == [] || ToRgb(vertices[0].color).Err? then 0 else 1 + FirstInvalid(vertices[1..])
  }

  /** A vertex with an invalid colour after only valid ones is the first invalid vertex. */
  lemma FirstInvalidAt(vertices: seq<Vertex>, i: nat)
    requires i < |vertices| && ToRgb(vertices[i].color).Err?
    requires forall j :: 0 <= j < i ==> ToRgb(vertices[j].color).Ok?
    ensures FirstInvalid(vertices) == i
  {
  }

  /**
    The fill loop: vertex i of the expanded strips is written into bytes
    [i * vertexSize, (i + 1) * vertexSize) of the mapped vertex buffer. The first
    vertex whose strip colour is invalid stops the loop with that error;
    otherwise every slot holds its vertex and keeps its padding bytes.
  */
  method WriteVertices(view: array<u8>, strips: seq<LineStrip>, canvas: Canvas, vertexSize: nat,
                       f32Bytes: seq<real> -> seq<u8>)
    returns (r: Result<(), OutputError>)
    requires canvas.width > 0 && canvas.height > 0
    requires forall v :: |f32Bytes(v)| == 4 * |v|
    requires VertexSize(VertexAttributes) == Ok(vertexSize)
    requires view.Length == VertexCount(strips) * vertexSize
    modifies view
    ensures r.Ok? <==> forall i :: 0 <= i < |Vertices(strips)| ==> ToRgb(Vertices(strips)[i].color).Ok?
    ensures r.Err? ==> FirstInvalid(Vertices(strips)) < |Vertices(strips)| &&
                       r.error == InvalidRgb(Vertices(strips)[FirstInvalid(Vertices(strips))].color)
    ensures r.Ok? ==> forall i :: 0 <= i < |Vertices(strips)| ==>
              |Slot(old(view[..]), i, vertexSize)| == vertexSize &&
              Slot(view[..], i, vertexSize) ==
              VertexImage(Slot(old(view[..]), i, vertexSize), Vertices(strips)[i].position,
                          ToRgb(Vertices(strips)[i].color).value, canvas, f32Bytes)
  {
    VertexSizeOfVertexAttributes();
    VertexCountIsVertices(strips);
    var vertices := Vertices(strips);
    var n := |vertices|;
    for i := 0 to n
      invariant FilledUpTo(view[..], old(view[..]), vertices, i, vertexSize, canvas, f32Bytes)
    {
      SlotInside(view[..], i, n, vertexSize);
      var position, color := vertices[i].position, vertices[i].color;
      ghost var before := view[..];
      WriteAttributeAt(view, i, vertexSize, VertexAttributes[0], f32Bytes(Ndc(position, canvas)));
      ghost var withPosition := view[..];
      var rgb := ToRgb(color);
      if rgb.Err? {
        FirstInvalidAt(vertices, i);
        return Err(rgb.error);
      }
      WriteAttributeAt(view, i, vertexSize, VertexAttributes[1], f32Bytes(rgb.value));
      FillStep(before, withPosition, view[..], old(view[..]), vertices, i, vertexSize, canvas, f32Bytes);
    }
    r := Ok(());
  }

  // ---------------------------------------------------------------------------
  // Reading the texture back
  // ---------------------------------------------------------------------------

  /** Bytes per texture row, `block_size * width` (the formats here are uncompressed). */
  function RowSize(format: TextureFormat, width: u32): (r: nat)
    ensures forall c :: TextureFormatOf(c) == Ok(format) ==> r == width * BytesPerPixel(c)
  {
    BlockCopySize(format) * width
  }

  /**
    `row_size.div_ceil(row_alignment) * row_alignment`: the padded row pitch of
    the read-back buffer, the least multiple of 256 not below the row size.
  */
  function AlignedRowSize(rowSize: nat): (r: nat)
    ensures r % COPY_BYTES_PER_ROW_ALIGNMENT == 0
    ensures rowSize <= r < rowSize + COPY_BYTES_PER_ROW_ALIGNMENT
  {
    AlignUp(rowSize, COPY_BYTES_PER_ROW_ALIGNMENT)
  }

  /** Image rows [0, i) are the unpadded prefixes of the buffer's padded rows. */
  ghost predicate RowsCopied(imageData: seq<u8>, buffer: seq<u8>, rowSize: nat, alignedRowSize: nat, i: nat)
    requires rowSize <= alignedRowSize
  {
    && |imageData| == i * rowSize
    && forall j :: 0 <= j < i ==>
         |Slot(buffer, j, alignedRowSize)| == alignedRowSize &&
         Slot(imageData, j, rowSize) == Slot(buffer, j, alignedRowSize)[..rowSize]
  }

  lemma RowCopyStep(imageData: seq<u8>, buffer: seq<u8>, rowSize: nat, alignedRowSize: nat, rowCount: nat, i: nat)
    requires rowSize <= alignedRowSize && |buffer| == alignedRowSize * rowCount && i < rowCount
    requires RowsCopied(imageData, buffer, rowSize, alignedRowSize, i)
    ensures i * alignedRowSize + rowSize <= |buffer|
    ensures RowsCopied(imageData + buffer[i * alignedRowSize..][..rowSize], buffer, rowSize, alignedRowSize, i + 1)
  {
    SlotInside(buffer, i, rowCount, alignedRowSize);
    assert (i + 1) * alignedRowSize == i * alignedRowSize + alignedRowSize;
    var row := buffer[i * alignedRowSize..][..rowSize];
    assert row == Slot(buffer, i, alignedRowSize)[..rowSize];
    var extended := imageData + row;
    assert |extended| == (i + 1) * rowSize;
    forall j | 0 <= j <= i
      ensures Slot(extended, j, rowSize) == if j == i then row else Slot(imageData, j, rowSize)
    {
      SlotOfAppend(imageData, row, rowSize, i, j);
    }
  }

  /** Appending a row of `rowSize` bytes adds slot i and keeps every earlier slot. */
  lemma SlotOfAppend(imageData: seq<u8>, row: seq<u8>, rowSize: nat, i: nat, j: nat)
    requires |imageData| == i * rowSize && |row| == rowSize && j <= i
    ensures Slot(imageData + row, j, rowSize) == if j == i then row else Slot(imageData, j, rowSize)
  {
    assert |imageData + row| == (i + 1) * rowSize;
    SlotInside(imageData + row, j, i + 1, rowSize);
    assert (j + 1) * rowSize == j * rowSize + rowSize;
    if j < i {
      MulLe(j + 1, i, rowSize);
    }
  }

  /**
    The copy out of the mapped read-back buffer: row i of the image is the
    first `rowSize` bytes of padded row i of the buffer.
  */
  method RemoveRowPadding(buffer: seq<u8>, rowSize: nat, alignedRowSize: nat, rowCount: nat)
    returns (imageData: seq<u8>)
    requires rowSize <= alignedRowSize
    requires |buffer| == alignedRowSize * rowCount
    ensures |imageData| == rowSize * rowCount
    ensures forall i :: 0 <= i < rowCount ==>
              |Slot(buffer, i, alignedRowSize)| == alignedRowSize &&
              Slot(imageData, i, rowSize) == Slot(buffer, i, alignedRowSize)[..rowSize]
  {
    imageData := [];
    for i := 0 to rowCount
      invariant RowsCopied(imageData, buffer, rowSize, alignedRowSize, i)
    {
      RowCopyStep(imageData, buffer, rowSize, alignedRowSize, rowCount, i);
      imageData := imageData + buffer[i * alignedRowSize..][..rowSize];
    }
  }

  /** Byte k of image row i is byte k of padded buffer row i. */
  lemma RemovedPaddingAt(imageData: seq<u8>, buffer: seq<u8>, rowSize: nat, alignedRowSize: nat,
                         i: nat, k: nat)
    requires rowSize <= alignedRowSize && k < rowSize
    requires (i + 1) * rowSize <= |imageData| && (i + 1) * alignedRowSize <= |buffer|
    requires Slot(imageData, i, rowSize) == Slot(buffer, i, alignedRowSize)[..rowSize]
    ensures i * rowSize + k < |imageData| && i * alignedRowSize + k < |buffer|
    ensures imageData[i * rowSize + k] == buffer[i * alignedRowSize + k]
  {
    SlotAt(imageData, i, rowSize, k);
    SlotAt(buffer, i, alignedRowSize, k);
  }

  lemma SlotAt(s: seq<u8>, i: nat, size: nat, k: nat)
    requires (i + 1) * size <= |s| && k < size
    ensures i * size + k < |s|
    ensures Slot(s, i, size)[k] == s[i * size + k]
  {
    assert (i + 1) * size == i * size + size;
  }

  // ---------------------------------------------------------------------------
  // Image generation, without the GPU
  // ---------------------------------------------------------------------------

  /** The colour type the program renders and encodes. */
  const ImageColorType: ColorType := Rgba8

  /** What image generation hands on: the filled vertex buffer and the unpadded image bytes. */
  datatype Rendering = Rendering(vertexBuffer: seq<u8>, imageData: seq<u8>)

  /** The byte size of the read-back buffer for a canvas: padded rows times row count. */
  function ReadbackSize(canvas: Canvas): (r: nat)
    ensures r % COPY_BYTES_PER_ROW_ALIGNMENT == 0
    ensures canvas.width * canvas.height * BytesPerPixel(ImageColorType) <= r
  {
    var rowSize := RowSize(Rgba8Unorm, canvas.width);
    var aligned := AlignedRowSize(rowSize);
    ImageDataSize(canvas.width, canvas.height);
    MulLe(rowSize, aligned, canvas.height);
    AlignedMultiple(aligned, canvas.height);
    aligned * (canvas.height * 1)
  }

  /** A whole number of aligned rows is aligned. */
  lemma AlignedMultiple(aligned: nat, rows: nat)
    requires aligned % COPY_BYTES_PER_ROW_ALIGNMENT == 0
    ensures (aligned * rows) % COPY_BYTES_PER_ROW_ALIGNMENT == 0
  {
    var q := aligned / COPY_BYTES_PER_ROW_ALIGNMENT;
    assert aligned * rows == (q * rows) * COPY_BYTES_PER_ROW_ALIGNMENT;
    MultipleMod(q * rows, COPY_BYTES_PER_ROW_ALIGNMENT);
  }

  /** Every vertex of the expanded strips carries a valid packed colour. */
  ghost predicate ColorsValid(strips: seq<LineStrip>)
  {
    forall i :: 0 <= i < |Vertices(strips)| ==> ToRgb(Vertices(strips)[i].color).Ok?
  }

  lemma SlotOfZeros(s: seq<u8>, i: nat, n: nat, size: nat)
    requires i < n && |s| == n * size
    requires forall b :: 0 <= b < |s| ==> s[b] == 0
    ensures Slot(s, i, size) == seq(size, _ => 0)
  {
    SlotInside(s, i, n, size);
    MulLe(i, i + 1, size);
  }

  /** An Rgba8 image of w by h pixels has w * h * 4 bytes once its rows are unpadded. */
  lemma ImageDataSize(w: u32, h: u32)
    ensures RowSize(Rgba8Unorm, w) * (h * 1) == w * h * BytesPerPixel(Rgba8)
  {
    assert RowSize(Rgba8Unorm, w) == 4 * w;
  }

  /**
    The integer and buffer work of `generate_image`, in the program's order: the
    canvas check, the texture format, the vertex stride, the vertex buffer fill,
    the row layout, the clear colour, and the copy out of the read-back buffer.
    The GPU is the parameter `render`, from vertex bytes to read-back bytes.
  */
  method GenerateImage(canvas: Canvas, strips: seq<LineStrip>, f32Bytes: seq<real> -> seq<u8>,
                       render: seq<u8> -> seq<u8>)
    returns (r: Result<Rendering, OutputError>)
    requires forall v :: |f32Bytes(v)| == 4 * |v|
    requires forall v :: |render(v)| == ReadbackSize(canvas)
    ensures CheckCanvas(canvas).Err? ==> r == Err(InvalidCanvasSize(canvas.width, canvas.height))
    ensures r.Ok? <==> CheckCanvas(canvas).Ok? && ColorsValid(strips) && ToRgb(canvas.color).Ok?
    ensures CheckCanvas(canvas).Ok? && !ColorsValid(strips) ==>
              FirstInvalid(Vertices(strips)) < |Vertices(strips)| &&
              r == Err(InvalidRgb(Vertices(strips)[FirstInvalid(Vertices(strips))].color))
    ensures CheckCanvas(canvas).Ok? && ColorsValid(strips) && r.Err? ==> r.error == InvalidRgb(canvas.color)
    ensures r.Ok? ==> |r.value.vertexBuffer| == VertexCount(strips) * 20
    ensures r.Ok? ==> forall i :: 0 <= i < |Vertices(strips)| ==>
              Slot(r.value.vertexBuffer, i, 20) ==
              VertexImage(seq(20, _ => 0), Vertices(strips)[i].position,
                          ToRgb(Vertices(strips)[i].color).value, canvas, f32Bytes)
    ensures r.Ok? ==> |r.value.imageData| == canvas.width * canvas.height * BytesPerPixel(ImageColorType)
    ensures r.Ok? ==> forall i :: 0 <= i < canvas.height ==>
              var rowSize := RowSize(Rgba8Unorm, canvas.width);
              var padded := Slot(render(r.value.vertexBuffer), i, AlignedRowSize(rowSize));
              |padded| == AlignedRowSize(rowSize) && Slot(r.value.imageData, i, rowSize) == padded[..rowSize]
  {
    var check := CheckCanvas(canvas);
    if check.Err? {
      return Err(check.error);
    }
    var textureFormat := TextureFormatOf(ImageColorType);
    if textureFormat.Err? {
      return Err(UnsupportedColorType(ImageColorType));
    }
    var vertexSize := VertexSize(VertexAttributes);
    if vertexSize.Err? {
      return Err(NoVertexSize);
    }
    VertexSizeOfVertexAttributes();
    var vertexCount := VertexCount(strips);
    var view := new u8[vertexCount * vertexSize.value](_ => 0);
    ghost var zeros := view[..];
    var written := WriteVertices(view, strips, canvas, vertexSize.value, f32Bytes);
    if written.Err? {
      return Err(written.error);
    }
    forall i | 0 <= i < |Vertices(strips)| ensures Slot(zeros, i, 20) == seq(20, _ => 0) {
      VertexCountIsVertices(strips);
      SlotOfZeros(zeros, i, vertexCount, 20);
    }
    var rowSize := RowSize(textureFormat.value, canvas.width);
    var rowCount := canvas.height * 1;
    var alignedRowSize := AlignedRowSize(rowSize);
    var clear := ToRgb(canvas.color);
    if clear.Err? {
      return Err(clear.error);
    }
    var texture := render(view[..]);
    var imageData := RemoveRowPadding(texture, rowSize, alignedRowSize, rowCount);
    ImageDataSize(canvas.width, canvas.height);
    r := Ok(Rendering(view[..], imageData));
  }
}
