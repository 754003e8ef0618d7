/**
 * Packing of a planar YUV_420_888 camera image into the NV21 layout the JPEG encoder takes:
 * the full-resolution luma rows, then the half-resolution chroma as interleaved V, U pairs.
 * Every sample is read through its plane's row and pixel strides, so row padding and
 * interleaved neighbours in the plane buffers never reach the output.
 */
module FrameBufferCodec {

  import Arith

  /** One plane of an `android.media.Image`: its buffer and strides. */
  datatype Plane = Plane(bytes: seq<bv8>, rowStride: nat, pixelStride: nat)

  /** A YUV_420_888 image: planes[0] is Y, planes[1] is U, planes[2] is V. */
  datatype YuvImage = YuvImage(width: nat, height: nat, y: Plane, u: Plane, v: Plane)

  /** Buffer offset of sample (row, col) in a plane. */
  function SampleIndex(row: nat, col: nat, p: Plane): nat {
    row * p.rowStride + col * p.pixelStride
  }

  /** Every sample of a `rows` x `cols` grid lies inside the plane's buffer. */
  ghost predicate Covers(p: Plane, rows: nat, cols: nat) {
    forall r: nat, c: nat :: r < rows && c < cols ==> SampleIndex(r, c, p) < |p.bytes|
  }

  /** The platform's guarantee on plane buffers: luma at full, chroma at half resolution. */
  ghost predicate WellFormed(img: YuvImage) {
    Covers(img.y, img.height, img.width) && ChromaCovers(img, img.height / 2)
  }

  /** The first `rows` chroma rows of both chroma planes lie inside their buffers. */
  ghost predicate ChromaCovers(img: YuvImage, rows: nat) {
    Covers(img.u, rows, img.width / 2) && Covers(img.v, rows, img.width / 2)
  }

  lemma CoversShrink(p: Plane, rows: nat, cols: nat, n: nat)
    requires Covers(p, rows, cols) && n <= rows
    ensures Covers(p, n, cols)
  {
  }

  lemma ChromaCoversShrink(img: YuvImage, rows: nat, n: nat)
    requires ChromaCovers(img, rows) && n <= rows
    ensures ChromaCovers(img, n)
  {
  }

  function Sample(p: Plane, row: nat, col: nat): bv8
    requires SampleIndex(row, col, p) < |p.bytes|
  {
    p.bytes[SampleIndex(row, col, p)]
  }

  // ---------------------------------------------------------------- the NV21 layout

  /** `ySize + uvSize` with `ySize = width * height` and `uvSize = width * height / 2`. */
  function Nv21Length(w: nat, h: nat): nat { w * h + w * h / 2 }

  /** Bytes per chroma row of the output: one V, U pair per two luma columns. */
  function ChromaRowLength(w: nat): nat { 2 * (w / 2) }

  /** The samples of row `row`, columns 0 until `cols`, in order. */
  function RowSamples(p: Plane, row: nat, cols: nat): (s: seq<bv8>)
    requires Covers(p, row + 1, cols)
    ensures |s| == cols
  {
    seq(cols, c requires 0 <= c < cols => Sample(p, row, c))
  }

  /** Rows 0 until `n` of a plane, each `cols` samples, concatenated: the plane tightly packed. */
  function Rows(p: Plane, n: nat, cols: nat): seq<bv8>
    requires Covers(p, n, cols)
  {
    if n == 0 then [] else Rows(p, n - 1, cols) + RowSamples(p, n - 1, cols)
  }

  /** `a[0], b[0], a[1], b[1], ...`: two sample rows interleaved, `a` first. */
  function Interleave(a: seq<bv8>, b: seq<bv8>): (s: seq<bv8>)
    requires |a| == |b|
    ensures |s| == 2 * |a|
  {
    seq(2 * |a|, m requires 0 <= m < 2 * |a| => if m % 2 == 0 then a[m / 2] else b[m / 2])
  }

  /** One chroma row of the output: a V, U pair per chroma column. */
  function ChromaRow(img: YuvImage, row: nat): (s: seq<bv8>)
    requires ChromaCovers(img, row + 1)
    ensures |s| == ChromaRowLength(img.width)
  {
    Interleave(RowSamples(img.v, row, img.width / 2), RowSamples(img.u, row, img.width / 2))
  }

  function ChromaRows(img: YuvImage, n: nat): seq<bv8>
    requires ChromaCovers(img, n)
  {
    if n == 0 then [] else ChromaRows(img, n - 1) + ChromaRow(img, n - 1)
  }

  function Zeros(n: nat): (s: seq<bv8>)
    ensures |s| == n && forall k :: 0 <= k < n ==> s[k] == 0
  {
    seq(n, _ => 0)
  }

  lemma {:induction false} RowsLength(p: Plane, n: nat, cols: nat)
    requires Covers(p, n, cols)
    ensures |Rows(p, n, cols)| == n * cols
  {
    if n > 0 {
      RowsLength(p, n - 1, cols);
      assert (n - 1) * cols + cols == n * cols;
    }
  }

  lemma {:induction false} RowsGrow(p: Plane, n: nat, m: nat, cols: nat)
    requires Covers(p, m, cols) && n <= m
    ensures |Rows(p, n, cols)| <= |Rows(p, m, cols)|
  {
    if n < m {
      RowsGrow(p, n, m - 1, cols);
    }
  }

  lemma {:induction false} ChromaRowsGrow(img: YuvImage, n: nat, m: nat)
    requires ChromaCovers(img, m) && n <= m
    ensures |ChromaRows(img, n)| <= |ChromaRows(img, m)|
  {
    if n < m {
      ChromaRowsGrow(img, n, m - 1);
    }
  }

  lemma {:induction false} ChromaRowsLength(img: YuvImage, n: nat)
    requires ChromaCovers(img, n)
    ensures |ChromaRows(img, n)| == n * ChromaRowLength(img.width)
  {
    if n > 0 {
      ChromaRowsLength(img, n - 1);
      assert (n - 1) * ChromaRowLength(img.width) + ChromaRowLength(img.width) == n * ChromaRowLength(img.width);
    }
  }

  /** The chroma rows fit in the `uvSize = w * h / 2` bytes after the luma. */
  lemma ChromaFits(w: nat, h: nat)
    ensures (h / 2) * ChromaRowLength(w) <= w * h / 2
  {
    var hw, hh := w / 2, h / 2;
    Arith.MulMonotoneNat(2 * hw, w, h);
    Arith.MulMonotoneNat(2 * hh, h, 2 * hw);
    assert 2 * hw * (2 * hh) == 2 * (hh * (2 * hw));
  }

  /**
   * The NV21 buffer `yuv420888ToNv21` fills: the luma plane tightly packed, the chroma rows, and
   * the zero bytes left unwritten when the width or height is odd.
   */
  function Nv21(img: YuvImage): (out: seq<bv8>)
    requires WellFormed(img)
    ensures |out| == Nv21Length(img.width, img.height)
  {
    var w, h := img.width, img.height;
    RowsLength(img.y, h, w);
    ChromaRowsLength(img, h / 2);
    ChromaFits(w, h);
    Rows(img.y, h, w) + ChromaRows(img, h / 2) + Zeros(w * h / 2 - (h / 2) * ChromaRowLength(w))
  }

  // ---------------------------------------------------------------- where each sample lands

  /** Output byte `|Rows(p, r, cols)| + c` of the packed plane is sample (r, c). */
  lemma {:induction false} RowsAt(p: Plane, n: nat, cols: nat, r: nat, c: nat)
    requires Covers(p, n, cols) && r < n && c < cols
    ensures |Rows(p, r, cols)| + c < |Rows(p, n, cols)|
    ensures Rows(p, n, cols)[|Rows(p, r, cols)| + c] == Sample(p, r, c)
  {
    if r < n - 1 {
      RowsAt(p, n - 1, cols, r, c);
    }
  }

  lemma InterleaveAt(a: seq<bv8>, b: seq<bv8>, c: nat)
    requires |a| == |b| && c < |a|
    ensures Interleave(a, b)[2 * c] == a[c] && Interleave(a, b)[2 * c + 1] == b[c]
  {
  }

  lemma {:induction false} ChromaRowsAt(img: YuvImage, n: nat, r: nat, c: nat)
    requires ChromaCovers(img, n) && r < n && c < img.width / 2
    ensures |ChromaRows(img, r)| + 2 * c + 1 < |ChromaRows(img, n)|
    ensures ChromaRows(img, n)[|ChromaRows(img, r)| + 2 * c] == Sample(img.v, r, c)
    ensures ChromaRows(img, n)[|ChromaRows(img, r)| + 2 * c + 1] == Sample(img.u, r, c)
  {
    if r < n - 1 {
      ChromaRowsAt(img, n - 1, r, c);
    } else {
      InterleaveAt(RowSamples(img.v, r, img.width / 2), RowSamples(img.u, r, img.width / 2), c);
    }
  }

  /** The chroma rows sit right after the `width * height` luma bytes of `Nv21`. */
  lemma Nv21ChromaSegment(img: YuvImage, j: nat)
    requires WellFormed(img) && j < |ChromaRows(img, img.height / 2)|
    ensures img.width * img.height + j < Nv21Length(img.width, img.height)
    ensures Nv21(img)[img.width * img.height + j] == ChromaRows(img, img.height / 2)[j]
  {
    Nv21Parts(img);
  }

  /** Luma sample (row, col) is output byte `row * width + col`. */
  lemma Nv21LumaAt(img: YuvImage, row: nat, col: nat)
    requires WellFormed(img) && row < img.height && col < img.width
    ensures row * img.width + col < img.width * img.height
    ensures Nv21(img)[row * img.width + col] == Sample(img.y, row, col)
  {
    Nv21Parts(img);
    RowsAt(img.y, img.height, img.width, row, col);
    RowsLength(img.y, row, img.width);
  }

  /**
   * Chroma sample (row, col) is the pair at `ySize + 2 * (row * (width / 2) + col)`:
   * V first, then U.
   */
  lemma Nv21ChromaAt(img: YuvImage, row: nat, col: nat)
    requires WellFormed(img) && row < img.height / 2 && col < img.width / 2
    ensures var k := img.width * img.height + 2 * (row * (img.width / 2) + col);
      && k + 1 < Nv21Length(img.width, img.height)
      && Nv21(img)[k] == Sample(img.v, row, col)
      && Nv21(img)[k + 1] == Sample(img.u, row, col)
  {
    ChromaRowsAt(img, img.height / 2, row, col);
    ChromaRowsLength(img, row);
    Arith.MulDouble(row, img.width / 2);
    var j := 2 * (row * (img.width / 2) + col);
    assert j == |ChromaRows(img, row)| + 2 * col;
    Nv21ChromaSegment(img, j);
    Nv21ChromaSegment(img, j + 1);
  }

  /** The bytes after the chroma rows (present when a dimension is odd) stay zero. */
  lemma Nv21TailZero(img: YuvImage, k: nat)
    requires WellFormed(img)
    requires img.width * img.height + (img.height / 2) * ChromaRowLength(img.width) <= k
    requires k < Nv21Length(img.width, img.height)
    ensures Nv21(img)[k] == 0
  {
    Nv21Parts(img);
  }

  // ---------------------------------------------------------------- strides do not matter

  /** Two images with the same size that agree on every sample the converter reads. */
  ghost predicate SameSamples(a: YuvImage, b: YuvImage) {
    && WellFormed(a) && WellFormed(b)
    && a.width == b.width && a.height == b.height
    && (forall r: nat, c: nat :: r < a.height && c < a.width ==> Sample(a.y, r, c) == Sample(b.y, r, c))
    && (forall r: nat, c: nat :: r < a.height / 2 && c < a.width / 2 ==>
          Sample(a.u, r, c) == Sample(b.u, r, c) && Sample(a.v, r, c) == Sample(b.v, r, c))
  }

  lemma {:induction false} RowsCongruent(p: Plane, q: Plane, n: nat, cols: nat)
    requires Covers(p, n, cols) && Covers(q, n, cols)
    requires forall r: nat, c: nat :: r < n && c < cols ==> Sample(p, r, c) == Sample(q, r, c)
    ensures Rows(p, n, cols) == Rows(q, n, cols)
  {
    if n > 0 {
      RowsCongruent(p, q, n - 1, cols);
      assert RowSamples(p, n - 1, cols) == RowSamples(q, n - 1, cols);
    }
  }

  lemma {:induction false} ChromaRowsCongruent(a: YuvImage, b: YuvImage, n: nat)
    requires SameSamples(a, b) && n <= a.height / 2
    ensures ChromaRows(a, n) == ChromaRows(b, n)
  {
    if n > 0 {
      ChromaRowsCongruent(a, b, n - 1);
      assert RowSamples(a.v, n - 1, a.width / 2) == RowSamples(b.v, n - 1, a.width / 2);
      assert RowSamples(a.u, n - 1, a.width / 2) == RowSamples(b.u, n - 1, a.width / 2);
    }
  }

  /**
   * The output depends only on the samples, never on the strides or on the padding and
   * neighbouring bytes a plane buffer holds between them.
   */
  lemma PaddingNeverLeaks(a: YuvImage, b: YuvImage)
    requires SameSamples(a, b)
    ensures Nv21(a) == Nv21(b)
  {
    RowsCongruent(a.y, b.y, a.height, a.width);
    ChromaRowsCongruent(a, b, a.height / 2);
  }

  /** A plane laid out with no padding: row stride `cols`, pixel stride 1. */
  function PackedPlane(p: Plane, rows: nat, cols: nat): (q: Plane)
    requires Covers(p, rows, cols)
    ensures |q.bytes| == rows * cols
  {
    RowsLength(p, rows, cols);
    Plane(Rows(p, rows, cols), cols, 1)
  }

  /** The same picture with all three planes tightly packed. */
  function Packed(img: YuvImage): YuvImage
    requires WellFormed(img)
  {
    var w, h := img.width, img.height;
    YuvImage(w, h, PackedPlane(img.y, h, w), PackedPlane(img.u, h / 2, w / 2), PackedPlane(img.v, h / 2, w / 2))
  }

  lemma PackedPlaneAt(p: Plane, rows: nat, cols: nat, r: nat, c: nat)
    requires Covers(p, rows, cols) && r < rows && c < cols
    ensures SampleIndex(r, c, PackedPlane(p, rows, cols)) < rows * cols
    ensures Sample(PackedPlane(p, rows, cols), r, c) == Sample(p, r, c)
  {
    RowsAt(p, rows, cols, r, c);
    RowsLength(p, r, cols);
  }

  lemma PackedPlaneCovers(p: Plane, rows: nat, cols: nat)
    requires Covers(p, rows, cols)
    ensures Covers(PackedPlane(p, rows, cols), rows, cols)
    ensures forall r: nat, c: nat :: r < rows && c < cols ==>
      Sample(PackedPlane(p, rows, cols), r, c) == Sample(p, r, c)
  {
    forall r: nat, c: nat | r < rows && c < cols
      ensures SampleIndex(r, c, PackedPlane(p, rows, cols)) < |PackedPlane(p, rows, cols).bytes|
      ensures Sample(PackedPlane(p, rows, cols), r, c) == Sample(p, r, c)
    {
      PackedPlaneAt(p, rows, cols, r, c);
    }
  }

  /** Converting the strided image or its tightly packed copy gives the same NV21 bytes. */
  lemma PackedEquivalent(img: YuvImage)
    requires WellFormed(img)
    ensures WellFormed(Packed(img))
    ensures Nv21(Packed(img)) == Nv21(img)
  {
    var w, h := img.width, img.height;
    PackedPlaneCovers(img.y, h, w);
    PackedPlaneCovers(img.u, h / 2, w / 2);
    PackedPlaneCovers(img.v, h / 2, w / 2);
    PaddingNeverLeaks(Packed(img), img);
  }

  // ---------------------------------------------------------------- the conversion

  /**
   * `yuv420888ToNv21`: allocates `ySize + uvSize` zero bytes, copies the luma rows (in bulk when
   * the pixel stride is 1, sample by sample otherwise), then writes V, U for every chroma sample.
   */
  method Yuv420888ToNv21(img: YuvImage) returns (out: array<bv8>)
    requires WellFormed(img)
    ensures fresh(out)
    ensures out[..] == Nv21(img)
  {
    var width, height := img.width, img.height;
    var ySize := width * height;
    var uvSize := width * height / 2;
    out := new bv8[ySize + uvSize](_ => 0);
    CopyLumaPlane(img, out);
    Nv21Parts(img);
    var uvDst := InterleaveChromaPlane(img, out, ySize, Rows(img.y, height, width));
  }

  /** `Nv21` split at the end of the luma and at the end of the chroma rows. */
  lemma Nv21Parts(img: YuvImage)
    requires WellFormed(img)
    ensures var w, h := img.width, img.height;
      && |Rows(img.y, h, w)| == w * h
      && |ChromaRows(img, h / 2)| == (h / 2) * ChromaRowLength(w) <= w * h / 2
      && Nv21(img) == Rows(img.y, h, w) + ChromaRows(img, h / 2)
                      + Zeros(Nv21Length(w, h) - w * h - (h / 2) * ChromaRowLength(w))
  {
    RowsLength(img.y, img.height, img.width);
    ChromaRowsLength(img, img.height / 2);
    ChromaFits(img.width, img.height);
  }

  /** The luma half of `yuv420888ToNv21`: every row, written from offset 0. */
  method CopyLumaPlane(img: YuvImage, out: array<bv8>)
    requires Covers(img.y, img.height, img.width)
    requires img.width * img.height <= out.Length
    requires forall k :: 0 <= k < out.Length ==> out[k] == 0
    modifies out
    ensures out[..] == Rows(img.y, img.height, img.width) + Zeros(out.Length - img.width * img.height)
  {
    var width, height := img.width, img.height;
    RowsLength(img.y, height, width);
    var dst := 0;
    for row := 0 to height
      invariant Covers(img.y, row, width)
      invariant dst == |Rows(img.y, row, width)| <= out.Length
      invariant out[..] == Rows(img.y, row, width) + Zeros(out.Length - dst)
    {
      CoversShrink(img.y, height, width, row + 1);
      RowsGrow(img.y, row + 1, height, width);
      ghost var done, next, before, n := Rows(img.y, row, width), RowSamples(img.y, row, width), out[..], out.Length - dst;
      assert before == [] + done + Zeros(n);
      dst := CopyLumaRow(img, out, row, dst);
      FillStep([], done, next, n, before, out[..]);
      assert Rows(img.y, row + 1, width) == [] + (done + next);
    }
  }

  /** The chroma half of `yuv420888ToNv21`: V, U pairs written from `ySize`; returns the end. */
  method InterleaveChromaPlane(img: YuvImage, out: array<bv8>, ySize: nat, ghost luma: seq<bv8>)
    returns (uvDst: nat)
    requires ChromaCovers(img, img.height / 2)
    requires |luma| == ySize && ySize + |ChromaRows(img, img.height / 2)| <= out.Length
    requires out[..] == luma + Zeros(out.Length - ySize)
    modifies out
    ensures uvDst == ySize + |ChromaRows(img, img.height / 2)|
    ensures out[..] == luma + ChromaRows(img, img.height / 2) + Zeros(out.Length - uvDst)
  {
    uvDst := ySize;
    var uvHeight := img.height / 2;
    assert luma + ChromaRows(img, 0) == luma;
    for row := 0 to uvHeight
      invariant ChromaCovers(img, row)
      invariant uvDst == ySize + |ChromaRows(img, row)| <= out.Length
      invariant out[..] == luma + ChromaRows(img, row) + Zeros(out.Length - uvDst)
    {
      ChromaCoversShrink(img, uvHeight, row + 1);
      ChromaRowsGrow(img, row + 1, uvHeight);
      ghost var done, next, before, n := ChromaRows(img, row), ChromaRow(img, row), out[..], out.Length - uvDst;
      uvDst := InterleaveChromaRow(img, out, row, uvDst);
      FillStep(luma, done, next, n, before, out[..]);
      assert ChromaRows(img, row + 1) == done + next;
    }
  }

  /** Writing the next block into the zero tail just after the finished blocks extends them. */
  lemma FillStep(pre: seq<bv8>, done: seq<bv8>, next: seq<bv8>, n: nat, before: seq<bv8>, after: seq<bv8>)
    requires |next| <= n && before == pre + done + Zeros(n)
    requires after == before[..|pre| + |done|] + next + before[|pre| + |done| + |next|..]
    ensures after == pre + (done + next) + Zeros(n - |next|)
  {
    var at := |pre| + |done|;
    assert before[..at] == pre + done;
    assert before[at + |next|..] == Zeros(n - |next|);
  }

  /** One luma row of `yuv420888ToNv21`, written at `dst`; returns the advanced `dst`. */
  method CopyLumaRow(img: YuvImage, out: array<bv8>, row: nat, dst: nat) returns (dst': nat)
    requires Covers(img.y, row + 1, img.width)
    requires dst + img.width <= out.Length
    modifies out
    ensures dst' == dst + img.width
    ensures out[..] == old(out[..dst]) + RowSamples(img.y, row, img.width) + old(out[dst'..])
  {
    if img.y.pixelStride == 1 {
      BulkCopyRow(img, out, row, dst);
      dst' := dst + img.width;
    } else {
      dst' := StridedCopyRow(img, out, row, dst);
    }
  }

  /** The pixel-stride-1 path: one bulk `get` of `width` bytes starting at `row * rowStride`. */
  method BulkCopyRow(img: YuvImage, out: array<bv8>, row: nat, dst: nat)
    requires img.y.pixelStride == 1
    requires Covers(img.y, row + 1, img.width)
    requires dst + img.width <= out.Length
    modifies out
    ensures out[..] == old(out[..dst]) + RowSamples(img.y, row, img.width) + old(out[dst + img.width..])
  {
    var width := img.width;
    var base := row * img.y.rowStride;
    var src: seq<bv8> := [];
    if width > 0 {
      assert base + (width - 1) == SampleIndex(row, width - 1, img.y);
      src := img.y.bytes[base..base + width];
    }
    forall c | 0 <= c < width {
      out[dst + c] := src[c];
    }
    assert forall c :: 0 <= c < width ==> src[c] == Sample(img.y, row, c);
  }

  /** The general path: one `get(base + col * pixelStride)` per column. */
  method StridedCopyRow(img: YuvImage, out: array<bv8>, row: nat, dst: nat) returns (dst': nat)
    requires Covers(img.y, row + 1, img.width)
    requires dst + img.width <= out.Length
    modifies out
    ensures dst' == dst + img.width
    ensures out[..] == old(out[..dst]) + RowSamples(img.y, row, img.width) + old(out[dst'..])
  {
    var width := img.width;
    var base := row * img.y.rowStride;
    dst' := dst;
    for col := 0 to width
      invariant dst' == dst + col
      invariant forall k :: 0 <= k < out.Length && !(dst <= k < dst') ==> out[k] == old(out[k])
      invariant forall k :: dst <= k < dst' ==> out[k] == Sample(img.y, row, k - dst)
    {
      assert base + col * img.y.pixelStride == SampleIndex(row, col, img.y) < |img.y.bytes|;
      out[dst'] := img.y.bytes[base + col * img.y.pixelStride];
      dst' := dst' + 1;
    }
  }

  /** One chroma row of `yuv420888ToNv21`: V then U per column, written at `uvDst`. */
  method InterleaveChromaRow(img: YuvImage, out: array<bv8>, row: nat, uvDst: nat) returns (uvDst': nat)
    requires ChromaCovers(img, row + 1)
    requires uvDst + ChromaRowLength(img.width) <= out.Length
    modifies out
    ensures uvDst' == uvDst + ChromaRowLength(img.width)
    ensures out[..] == old(out[..uvDst]) + ChromaRow(img, row) + old(out[uvDst'..])
  {
    var uvWidth := img.width / 2;
    uvDst' := uvDst;
    for col := 0 to uvWidth
      invariant uvDst' == uvDst + 2 * col
      invariant forall k :: 0 <= k < out.Length && !(uvDst <= k < uvDst') ==> out[k] == old(out[k])
      invariant forall c :: 0 <= c < col ==>
        out[uvDst + 2 * c] == Sample(img.v, row, c) && out[uvDst + 2 * c + 1] == Sample(img.u, row, c)
    {
      var uIndex := row * img.u.rowStride + col * img.u.pixelStride;
      var vIndex := row * img.v.rowStride + col * img.v.pixelStride;
      assert vIndex == SampleIndex(row, col, img.v) < |img.v.bytes|;
      assert uIndex == SampleIndex(row, col, img.u) < |img.u.bytes|;
      out[uvDst'] := img.v.bytes[vIndex];
      out[uvDst' + 1] := img.u.bytes[uIndex];
      uvDst' := uvDst' + 2;
    }
    ghost var written := out[..];
    PairsFormChromaRow(img, row, written, uvDst);
    Splice(old(out[..]), written, uvDst, uvDst');
  }

  /** Bytes holding sample pairs at `start + 2 * c` and `start + 2 * c + 1` form a chroma row. */
  lemma PairsFormChromaRow(img: YuvImage, row: nat, s: seq<bv8>, start: nat)
    requires ChromaCovers(img, row + 1)
    requires start + ChromaRowLength(img.width) <= |s|
    requires forall c :: 0 <= c < img.width / 2 ==>
      s[start + 2 * c] == Sample(img.v, row, c) && s[start + 2 * c + 1] == Sample(img.u, row, c)
    ensures s[start..start + ChromaRowLength(img.width)] == ChromaRow(img, row)
  {
    var hw := img.width / 2;
    forall m | 0 <= m < 2 * hw
      ensures s[start + m] == ChromaRow(img, row)[m]
    {
      var c := m / 2;
      InterleaveAt(RowSamples(img.v, row, hw), RowSamples(img.u, row, hw), c);
      assert m == 2 * c || m == 2 * c + 1;
    }
  }

  /** A sequence that agrees with `before` outside `[lo, hi)` is `before` with that range replaced. */
  lemma Splice(before: seq<bv8>, after: seq<bv8>, lo: nat, hi: nat)
    requires lo <= hi <= |before| == |after|
    requires forall k :: 0 <= k < |after| && !(lo <= k < hi) ==> after[k] == before[k]
    ensures after == before[..lo] + after[lo..hi] + before[hi..]
  {
  }
}
