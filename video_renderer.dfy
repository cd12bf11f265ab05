/** DefaultMainWindow::VideoRenderer: the sink that turns each decoded I420
    frame into a 32-bit top-down DIB the window paints. It keeps the
    BITMAPINFOHEADER fields it writes (biWidth, biHeight, biSizeImage) and
    the image_ buffer, reallocates the buffer in SetSize, and in OnFrame
    rotates the frame upright, sizes the buffer and converts into it. */
module Rendering {

  newtype byte = x: int | 0 <= x < 256

  /** bmi_.bmiHeader.biBitCount: 32 bits, so biBitCount >> 3 bytes per pixel. */
  const BitCount: nat := 32
  const BytesPerPixel: nat := 4

  /** webrtc::VideoRotation: how far the frame must be turned clockwise to
      stand upright. */
  datatype Rotation = Rotation0 | Rotation90 | Rotation180 | Rotation270

  /** One sample of an I420 frame, with the chroma of its 2x2 block. */
  datatype Yuv = Yuv(y: byte, u: byte, v: byte)

  /** One 32-bit pixel of the DIB, in memory order (blue, green, red, alpha). */
  datatype Argb = Argb(b: byte, g: byte, r: byte, a: byte)

  /** A VideoFrameBuffer: width, height, and the samples row by row. */
  datatype Buffer = Buffer(width: nat, height: nat, rows: seq<seq<Yuv>>)

  /** A VideoFrame: its buffer and its rotation. */
  datatype Frame = Frame(buffer: Buffer, rotation: Rotation)

  predicate WellFormed(b: Buffer) {
    |b.rows| == b.height && forall r :: 0 <= r < |b.rows| ==> |b.rows[r]| == b.width
  }

  /** I420Buffer::Rotate: the buffer turned clockwise by `rotation`. A
      quarter turn swaps width and height; row r of the result is read off
      column r of the source, from the bottom up. */
  function Rotate(b: Buffer, rotation: Rotation): (o: Buffer)
    requires WellFormed(b)
    ensures WellFormed(o)
    ensures rotation == Rotation0 || rotation == Rotation180 ==> o.width == b.width && o.height == b.height
    ensures rotation == Rotation90 || rotation == Rotation270 ==> o.width == b.height && o.height == b.width
  {
    match rotation
    case Rotation0 => b
    case Rotation90 =>
      Buffer(b.height, b.width,
        seq(b.width, r requires 0 <= r < b.width =>
          seq(b.height, c requires 0 <= c < b.height => b.rows[b.height - 1 - c][r])))
    case Rotation180 =>
      Buffer(b.width, b.height,
        seq(b.height, r requires 0 <= r < b.height =>
          seq(b.width, c requires 0 <= c < b.width => b.rows[b.height - 1 - r][b.width - 1 - c])))
    case Rotation270 =>
      Buffer(b.height, b.width,
        seq(b.width, r requires 0 <= r < b.width =>
          seq(b.height, c requires 0 <= c < b.height => b.rows[c][b.width - 1 - r])))
  }

  /** The buffer OnFrame converts: the frame's own, or the rotated copy. */
  function Upright(f: Frame): (b: Buffer)
    requires WellFormed(f.buffer)
    ensures WellFormed(b)
  {
    if f.rotation != Rotation0 then Rotate(f.buffer, f.rotation) else f.buffer
  }

  /** A quarter turn clockwise followed by three more gives back the buffer. */
  lemma QuarterTurnsUndo(b: Buffer)
    requires WellFormed(b)
    ensures Rotate(Rotate(b, Rotation90), Rotation270) == b
    ensures Rotate(Rotate(b, Rotation270), Rotation90) == b
  {
    var q := Rotate(b, Rotation90);
    var back := Rotate(q, Rotation270);
    assert |back.rows| == |b.rows|;
    forall r | 0 <= r < b.height ensures back.rows[r] == b.rows[r] {
      assert |back.rows[r]| == |b.rows[r]|;
      forall c | 0 <= c < b.width ensures back.rows[r][c] == b.rows[r][c] {
        assert back.rows[r][c] == q.rows[c][q.width - 1 - r];
      }
    }
    var t := Rotate(b, Rotation270);
    var fwd := Rotate(t, Rotation90);
    forall r | 0 <= r < b.height ensures fwd.rows[r] == b.rows[r] {
      assert |fwd.rows[r]| == |b.rows[r]|;
      forall c | 0 <= c < b.width ensures fwd.rows[r][c] == b.rows[r][c] {
        assert fwd.rows[r][c] == t.rows[t.height - 1 - c][r];
      }
    }
  }

  /** Half a turn twice gives back the buffer. */
  lemma HalfTurnUndoes(b: Buffer)
    requires WellFormed(b)
    ensures Rotate(Rotate(b, Rotation180), Rotation180) == b
  {
    var h := Rotate(b, Rotation180);
    var back := Rotate(h, Rotation180);
    forall r | 0 <= r < b.height ensures back.rows[r] == b.rows[r] {
      assert |back.rows[r]| == |b.rows[r]|;
      forall c | 0 <= c < b.width ensures back.rows[r][c] == b.rows[r][c] {
        assert back.rows[r][c] == h.rows[b.height - 1 - r][b.width - 1 - c];
      }
    }
  }

  function PixelBytes(p: Argb): seq<byte> {
    [p.b, p.g, p.r, p.a]
  }

  /** One row as I420ToARGB writes it: four bytes per pixel, left to right. */
  function RowBytes(row: seq<Yuv>, toArgb: Yuv -> Argb): seq<byte> {
    if row == [] then [] else RowBytes(row[..|row| - 1], toArgb) + PixelBytes(toArgb(row[|row| - 1]))
  }

  /** The DIB I420ToARGB writes for `rows`, top row first. */
  function ImageBytes(rows: seq<seq<Yuv>>, toArgb: Yuv -> Argb): seq<byte> {
    if rows == [] then [] else ImageBytes(rows[..|rows| - 1], toArgb) + RowBytes(rows[|rows| - 1], toArgb)
  }

  /** Byte k of pixel c of a row sits at 4 * c + k. */
  lemma {:induction false} RowBytesAt(row: seq<Yuv>, toArgb: Yuv -> Argb, c: nat, k: nat)
    requires c < |row| && k < BytesPerPixel
    ensures |RowBytes(row, toArgb)| == BytesPerPixel * |row|
    ensures RowBytes(row, toArgb)[BytesPerPixel * c + k] == PixelBytes(toArgb(row[c]))[k]
  {
    RowBytesLength(row, toArgb);
    var n := |row| - 1;
    if c < n {
      RowBytesAt(row[..n], toArgb, c, k);
      assert row[..n][c] == row[c];
    }
  }

  lemma {:induction false} RowBytesLength(row: seq<Yuv>, toArgb: Yuv -> Argb)
    ensures |RowBytes(row, toArgb)| == BytesPerPixel * |row|
  {
    if row != [] {
      RowBytesLength(row[..|row| - 1], toArgb);
    }
  }

  /** The image is width * height * 4 bytes: biSizeImage for the buffer. */
  lemma {:induction false} ImageBytesLength(rows: seq<seq<Yuv>>, toArgb: Yuv -> Argb, width: nat)
    requires forall r :: 0 <= r < |rows| ==> |rows[r]| == width
    ensures |ImageBytes(rows, toArgb)| == width * |rows| * BytesPerPixel
  {
    if rows != [] {
      var n := |rows| - 1;
      ImageBytesLength(rows[..n], toArgb, width);
      RowBytesLength(rows[n], toArgb);
      assert width * |rows| * BytesPerPixel == width * n * BytesPerPixel + BytesPerPixel * width;
    }
  }

  /** The row stride OnFrame passes to I420ToARGB: biWidth * biBitCount / 8. */
  function Stride(width: nat): (stride: nat)
    ensures stride == BytesPerPixel * width
  {
    width * BitCount / 8
  }

  lemma {:induction false} RowsBefore(r: nat, n: nat, stride: nat)
    requires r < n
    ensures r * stride + stride <= n * stride
  {
    assert n * stride == (n - 1) * stride + stride;
    if r < n - 1 {
      RowsBefore(r, n - 1, stride);
    }
  }

  /** With that stride, byte k of pixel (r, c) sits at r * stride + 4 * c + k. */
  lemma {:induction false} ImageBytesAt(rows: seq<seq<Yuv>>, toArgb: Yuv -> Argb, width: nat, r: nat, c: nat, k: nat)
    requires forall i :: 0 <= i < |rows| ==> |rows[i]| == width
    requires r < |rows| && c < width && k < BytesPerPixel
    ensures r * Stride(width) + BytesPerPixel * c + k < |ImageBytes(rows, toArgb)|
    ensures ImageBytes(rows, toArgb)[r * Stride(width) + BytesPerPixel * c + k] == PixelBytes(toArgb(rows[r][c]))[k]
  {
    var stride := Stride(width);
    var n := |rows| - 1;
    var front := ImageBytes(rows[..n], toArgb);
    var last := RowBytes(rows[n], toArgb);
    assert ImageBytes(rows, toArgb) == front + last;
    ImageBytesLength(rows[..n], toArgb, width);
    assert |front| == n * stride;
    RowBytesAt(rows[n], toArgb, c, k);
    var at := r * stride + BytesPerPixel * c + k;
    if r < n {
      ImageBytesAt(rows[..n], toArgb, width, r, c, k);
      assert rows[..n][r] == rows[r];
      RowsBefore(r, n, stride);
      assert at < |front|;
    } else {
      assert at == |front| + (BytesPerPixel * c + k);
    }
  }

  class VideoRenderer {
    var biWidth: int
    var biHeight: int
    var biSizeImage: int
    /** image_: NULL until the first SetSize that does not return early. */
    var image: array?<byte>
    /** Whether InvalidateRect has asked the window to repaint. */
    var needsPaint: bool

    /** The header describes a top-down DIB (biHeight <= 0) of biSizeImage
        bytes, and image_, once allocated, holds exactly that many. */
    ghost predicate Valid()
      reads this
    {
      biWidth >= 0 && biHeight <= 0 &&
      biSizeImage == biWidth * -biHeight * BytesPerPixel &&
      (image == null ==> biHeight < 0) &&
      (image != null ==> image.Length == biSizeImage)
    }

    /** The constructor: a width x height top-down 32-bit DIB header and no
        buffer yet. StartLocalRenderer and StartRemoteRenderer pass 1 x 1. */
    constructor (width: nat, height: nat)
      requires height > 0
      ensures Valid()
      ensures biWidth == width && biHeight == -(height as int) && biSizeImage == width * height * BytesPerPixel
      ensures image == null && !needsPaint
    {
      biWidth := width;
      biHeight := -(height as int);
      biSizeImage := width * height * (BitCount / 8);
      image := null;
      needsPaint := false;
    }

    /** SetSize, as written: it returns early when `height` equals the stored
        biHeight, which holds the NEGATED height, so the early return only
        fires for an empty frame of unchanged width; otherwise it rewrites
        the header and allocates a new buffer. */
    method SetSize(width: nat, height: nat)
      requires Valid()
      modifies this`biWidth, this`biHeight, this`biSizeImage, this`image
      ensures Valid()
      ensures biWidth == width && biHeight == -(height as int) && image != null
      ensures KeepsBuffer(old(biWidth), old(biHeight), width, height) ==> image == old(image)
      ensures !KeepsBuffer(old(biWidth), old(biHeight), width, height) ==> fresh(image)
    {
      if width == biWidth && height == biHeight {
        return;
      }
      biWidth := width;
      biHeight := -(height as int);
      biSizeImage := width * height * (BitCount / 8);
      image := new byte[biSizeImage];
    }

    /** OnFrame: rotate the frame upright if it is not, size the DIB to it,
        convert it into the buffer (I420ToARGB, with `toArgb` for the colour
        conversion of one sample) and invalidate the window. */
    method OnFrame(frame: Frame, toArgb: Yuv -> Argb)
      requires Valid() && WellFormed(frame.buffer)
      modifies this, image
      ensures Valid() && needsPaint
      ensures biWidth == Upright(frame).width && biHeight == -(Upright(frame).height as int)
      ensures image != null && image[..] == ImageBytes(Upright(frame).rows, toArgb)
    {
      var buffer := frame.buffer;
      if frame.rotation != Rotation0 {
        buffer := Rotate(buffer, frame.rotation);
      }
      SetSize(buffer.width, buffer.height);
      var bytes := ImageBytes(buffer.rows, toArgb);
      ImageBytesLength(buffer.rows, toArgb, buffer.width);
      var dst := image;
      forall i | 0 <= i < dst.Length {
        dst[i] := bytes[i];
      }
      needsPaint := true;
    }
  }

  /** Whether SetSize keeps the buffer it has. */
  predicate KeepsBuffer(biWidth: int, biHeight: int, width: nat, height: nat) {
    width == biWidth && height == biHeight
  }

  /** In any valid state the early return of SetSize fires exactly for an
      empty frame whose width matches an empty header: a frame of any height
      above zero always gets a new buffer, even when its size is unchanged. */
  lemma SetSizeKeepsOnlyEmpty(biWidth: int, biHeight: int, width: nat, height: nat)
    requires biHeight <= 0
    ensures KeepsBuffer(biWidth, biHeight, width, height) <==>
      height == 0 && biHeight == 0 && width == biWidth
  {
  }

  /** Two frames of the same size in a row: the second still reallocates. */
  lemma SameSizeReallocates(width: nat, height: nat)
    requires height > 0
    ensures !KeepsBuffer(width, -(height as int), width, height)
  {
  }
}
