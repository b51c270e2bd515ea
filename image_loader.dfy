/**
 * The texture loader's conversion from a decoded PNG frame to RGB values.
 * The decoder itself is not modelled: the header's width, height and colour
 * type and the frame's bytes are the inputs.
 */
module ImageLoader {
  import opened Wrappers
  import opened Geometry
  import opened Bytes

  /** The colour types of a PNG image header (IHDR). */
  datatype ColorType = Grayscale | RGB | Indexed | GrayscaleAlpha | RGBA

  /** The colour type code of the IHDR chunk (section 11.2.2 of ISO/IEC 15948). */
  function Code(ct: ColorType): nat {
    match ct
    case Grayscale => 0
    case RGB => 2
    case Indexed => 3
    case GrayscaleAlpha => 4
    case RGBA => 6
  }

  /** Samples per pixel for each colour type (ISO/IEC 15948, section 11.2.2). */
  function SamplesPerPixel(ct: ColorType): nat {
    match ct
    case Grayscale => 1
    case RGB => 3
    case Indexed => 1
    case GrayscaleAlpha => 2
    case RGBA => 4
  }

  datatype ImgData = ImgData(width: nat, height: nat, colors: seq<Vec3>)

  datatype LoadError =
    | UnsupportedColorType      // `panic!("unsupported color type")`
    | IndexOutOfBounds          // `buf[..]` read past the end of the frame

  /** The bytes per pixel the loader assumes; None where it panics. */
  function BytesPerPixel(ct: ColorType): Option<nat> {
    match ct
    case RGBA => Some(4)
    case RGB => Some(3)
    case Grayscale => Some(1)
    case GrayscaleAlpha => Some(2)
    case _ => None
  }

  /**
   * The loader's byte count agrees with the standard's sample count for every
   * colour type it accepts, and it refuses only the indexed (palette) type.
   */
  lemma BytesPerPixelIsSampleCount(ct: ColorType)
    ensures BytesPerPixel(ct).None? <==> Code(ct) == 3
    ensures BytesPerPixel(ct).Some? ==> BytesPerPixel(ct).value == SamplesPerPixel(ct)
  {
  }

  /** How many bytes one pixel reads: three colour bytes, or one grey byte. */
  function Span(bpp: nat): nat {
    if bpp > 2 then 3 else 1
  }

  /** The shortest frame from which all `n` pixels can be read. */
  function RequiredLength(n: nat, bpp: nat): nat {
    if n == 0 then 0 else (n - 1) * bpp + Span(bpp)
  }

  function Unit(b: byte): real {
    b as int as real / 255.0
  }

  /**
   * The pixel read at `offset`: the first three bytes over 255 (any alpha byte
   * ignored) when a pixel has more than two bytes, else the first byte over
   * 255 on all three components.
   */
  function PixelAt(buf: seq<byte>, offset: nat, bpp: nat): Vec3
    requires offset + Span(bpp) <= |buf|
  {
    if bpp > 2 then Vec3(Unit(buf[offset]), Unit(buf[offset + 1]), Unit(buf[offset + 2]))
    else
      var luma := Unit(buf[offset]);
      Vec3(luma, luma, luma)
  }

  /** Every component of a converted pixel lies in [0, 1]. */
  lemma PixelInUnitCube(buf: seq<byte>, offset: nat, bpp: nat)
    requires offset + Span(bpp) <= |buf|
    ensures var c := PixelAt(buf, offset, bpp);
            forall a :: 0 <= a < 3 ==> 0.0 <= c.At(a) <= 1.0
  {
  }

  /** A frame of `w*h*bpp` bytes, what a decoder of 8-bit samples delivers, is long enough. */
  lemma FullFrameSuffices(n: nat, bpp: nat)
    requires 1 <= bpp <= 4
    ensures RequiredLength(n, bpp) <= n * bpp
  {
    if n > 0 {
      assert (n - 1) * bpp + bpp == n * bpp;
    }
  }

  lemma PixelOffsetGrows(i: nat, n: nat, bpp: nat)
    requires i < n
    ensures i * bpp + Span(bpp) <= RequiredLength(n, bpp)
  {
    assert i * bpp <= (n - 1) * bpp;
  }

  lemma NextOffset(i: nat, bpp: nat)
    ensures (i + 1) * bpp == i * bpp + bpp
  {
  }

  /**
   * The body of the conversion loop: one pixel read at `offset`. Its
   * components lie in [0, 1], and a one- or two-byte pixel is a grey.
   */
  method ReadPixel(buf: seq<byte>, offset: nat, bytesPerPixel: nat) returns (c: Vec3)
    requires offset + Span(bytesPerPixel) <= |buf|
    ensures c == PixelAt(buf, offset, bytesPerPixel)
    ensures forall a :: 0 <= a < 3 ==> 0.0 <= c.At(a) <= 1.0
    ensures bytesPerPixel <= 2 ==> c.x == c.y == c.z
  {
    if bytesPerPixel > 2 {
      c := Vec3(buf[offset] as int as real / 255.0,
                buf[offset + 1] as int as real / 255.0,
                buf[offset + 2] as int as real / 255.0);
    } else {
      var luma := buf[offset] as int as real / 255.0;
      c := Vec3(luma, luma, luma);
    }
    PixelInUnitCube(buf, offset, bytesPerPixel);
  }

  /**
   * The conversion loop of `load_png`: each of the `n` pixels read at a
   * running offset that advances by the bytes per pixel. None where a read
   * runs past the end of the frame.
   */
  method ConvertPixels(n: nat, bytesPerPixel: nat, buf: seq<byte>) returns (r: Option<seq<Vec3>>)
    ensures r.None? <==> |buf| < RequiredLength(n, bytesPerPixel)
    ensures r.Some? ==>
              && |r.value| == n
              && forall i :: 0 <= i < n ==>
                   i * bytesPerPixel + Span(bytesPerPixel) <= |buf|
                   && r.value[i] == PixelAt(buf, i * bytesPerPixel, bytesPerPixel)
  {
    var vec := new Vec3[n](_ => Vec3(0.0, 0.0, 0.0));
    var offset := 0;
    for i := 0 to n
      invariant offset == i * bytesPerPixel
      invariant i > 0 ==> (i - 1) * bytesPerPixel + Span(bytesPerPixel) <= |buf|
      invariant forall k :: 0 <= k < i ==>
                  k * bytesPerPixel + Span(bytesPerPixel) <= |buf| && vec[k] == PixelAt(buf, k * bytesPerPixel, bytesPerPixel)
    {
      if offset + Span(bytesPerPixel) > |buf| {
        PixelOffsetGrows(i, n, bytesPerPixel);
        return None;
      }
      vec[i] := ReadPixel(buf, offset, bytesPerPixel);
      NextOffset(i, bytesPerPixel);
      offset := offset + bytesPerPixel;
    }
    return Some(vec[..]);
  }

  /**
   * `load_png` after decoding: pick the bytes per pixel from the colour type,
   * then convert the `w*h` pixels of the frame.
   */
  method LoadPixels(w: nat, h: nat, colorType: ColorType, buf: seq<byte>) returns (r: Result<ImgData, LoadError>)
    ensures r == Failure(UnsupportedColorType) <==> BytesPerPixel(colorType).None?
    ensures r == Failure(IndexOutOfBounds) <==>
              BytesPerPixel(colorType).Some? && |buf| < RequiredLength(w * h, BytesPerPixel(colorType).value)
    ensures r.Success? ==>
              var bpp := BytesPerPixel(colorType).value;
              && r.value.width == w && r.value.height == h
              && |r.value.colors| == w * h
              && forall i :: 0 <= i < w * h ==>
                   i * bpp + Span(bpp) <= |buf| && r.value.colors[i] == PixelAt(buf, i * bpp, bpp)
  {
    var bytesPerPixel: nat;
    match colorType {
      case RGBA => bytesPerPixel := 4;
      case RGB => bytesPerPixel := 3;
      case Grayscale => bytesPerPixel := 1;
      case GrayscaleAlpha => bytesPerPixel := 2;
      case _ => return Failure(UnsupportedColorType);
    }
    var colors := ConvertPixels(w * h, bytesPerPixel, buf);
    match colors {
      case None => return Failure(IndexOutOfBounds);
      case Some(vec) => return Success(ImgData(w, h, vec));
    }
  }
}
