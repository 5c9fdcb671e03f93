/** decode_init of QuickTime 8BPS, and the colours of a decoded picture on a little-endian machine. */
module EightBpsPixels {
  import opened Bytes
  import opened PrefixCodes
  import opened EightBps

  /** Palette indexes; blue, green and red in three bytes; in a 32-bit number, with nothing or alpha on top. */
  datatype PixelFormat = Pal8 | Bgr24 | ZeroRgb32 | Rgb32Alpha

  function LayoutOf(format: PixelFormat, linesize: nat, height: nat): (g: Layout)
    ensures GoodLayout(g)
  {
    match format
    case Pal8 => Paletted(linesize, height)
    case Bgr24 => Rgb24(false, linesize, height)
    case ZeroRgb32 => Rgb24(true, linesize, height)
    case Rgb32Alpha => Rgb32(linesize, height)
  }

  /** decode_init: format and planes by sample depth; `padded` is which of both 24-bit formats was agreed on. */
  method DecodeInit(depth: int, padded: bool, linesize: nat, height: nat) returns (format: Option<PixelFormat>, g: Layout)
    ensures format == match depth
                      case 8 => Some(Pal8)
                      case 24 => Some(if padded then ZeroRgb32 else Bgr24)
                      case 32 => Some(Rgb32Alpha)
                      case _ => None
    ensures format.Some? ==> g == LayoutOf(format.value, linesize, height)
  {
    var planes, planemap := 0, [0, 0, 0, 0];
    format := None;
    if depth == 8 {
      format, planes := Some(Pal8), 1;
      planemap := planemap[0 := 0];
    } else if depth == 24 {
      format, planes := Some(if padded then ZeroRgb32 else Bgr24), 3;
      planemap := planemap[0 := 2];
      planemap := planemap[1 := 1];
      planemap := planemap[2 := 0];
    } else if depth == 32 {
      format, planes := Some(Rgb32Alpha), 4;
    }
    if format == Some(Rgb32Alpha) {
      planemap := planemap[0 := 2];
      planemap := planemap[1 := 1];
      planemap := planemap[2 := 0];
      planemap := planemap[3 := 3];
    }
    g := Layout(planemap[..planes], planes + if format == Some(ZeroRgb32) then 1 else 0, linesize, height);
  }

  /** Rows that a picture of this layout can be encoded from, drawn over `f`. */
  ghost predicate Drawable(g: Layout, rows: Rows, f: seq<Byte>) {
    GoodLayout(g) && GoodRows(g, rows) && g.height * g.linesize <= |f|
  }

  /** The picture that encoded rows decode to. */
  ghost function Decoded(g: Layout, rows: Rows, f: seq<Byte>): seq<Byte>
    requires Drawable(g, rows, f)
  {
    PictureRoundTrip(g, rows, f);
    DecodeFrom(g, Encode(g, rows), 0, 0, HeaderSize(g), f).value.1
  }

  /** The byte of plane `p` for pixel `k` of row `r`, if the row is that long. */
  ghost function Sample(g: Layout, rows: Rows, p: nat, r: nat, k: nat): Option<Byte> {
    if GoodRows(g, rows) && p < |g.planemap| && r < g.height && k < |RowBytes(g, rows, p, r)| then
      Some(RowBytes(g, rows, p, r)[k])
    else None
  }

  /** Where a pixel begins. */
  function PixelAt(g: Layout, r: nat, k: nat): nat { r * g.linesize + k * g.inc }

  ghost predicate HasByte(d: seq<Byte>, at: nat, b: Option<Byte>) {
    b.Some? && at < |d| && d[at] == b.value
  }

  lemma PlaneByte(g: Layout, rows: Rows, f: seq<Byte>, p: nat, r: nat, k: nat)
    requires Drawable(g, rows, f) && p < |g.planemap| && Sample(g, rows, p, r, k).Some?
    ensures HasByte(Decoded(g, rows, f), PixelAt(g, r, k) + g.planemap[p], Sample(g, rows, p, r, k))
  {
    PictureRoundTrip(g, rows, f);
    hide DecodeFrom, Encode, RowBytes, GoodRows, GoodLayout, HeaderSize;
    assert Place(g, p, r, k) == PixelAt(g, r, k) + g.planemap[p];
  }

  /** Three bytes from a place on are a colour as a little-endian number: blue + 256 * green + 65536 * red. */
  ghost predicate ShowsColour(d: seq<Byte>, at: nat, red: nat, green: nat, blue: nat) {
    at + 2 < |d| &&
    var b0: nat, b1: nat, b2: nat := d[at], d[at + 1], d[at + 2];
    b0 + 0x100 * b1 + 0x1_0000 * b2 == blue + 0x100 * green + 0x1_0000 * red
  }

  lemma ColourOfBytes(d: seq<Byte>, at: nat, red: Byte, green: Byte, blue: Byte)
    requires HasByte(d, at + 2, Some(red)) && HasByte(d, at + 1, Some(green)) && HasByte(d, at, Some(blue))
    ensures ShowsColour(d, at, red, green, blue)
  {
  }

  /** The planes are red, green and blue, and a pixel is their colour, in three bytes or in four. */
  lemma Rgb24Pixel(padded: bool, linesize: nat, height: nat, rows: Rows, f: seq<Byte>, r: nat, k: nat)
    requires Drawable(Rgb24(padded, linesize, height), rows, f)
    requires forall p :: 0 <= p < 3 ==> Sample(Rgb24(padded, linesize, height), rows, p, r, k).Some?
    ensures var g := Rgb24(padded, linesize, height);
            ShowsColour(Decoded(g, rows, f), PixelAt(g, r, k), Sample(g, rows, 0, r, k).value,
                        Sample(g, rows, 1, r, k).value, Sample(g, rows, 2, r, k).value)
    ensures PixelAt(Rgb24(padded, linesize, height), r, k) == r * linesize + k * (if padded then 4 else 3)
  {
    var g := Rgb24(padded, linesize, height);
    hide Decoded, Sample, Drawable, HasByte, PixelAt, ShowsColour;
    PlaneByte(g, rows, f, 0, r, k);
    PlaneByte(g, rows, f, 1, r, k);
    PlaneByte(g, rows, f, 2, r, k);
    ColourOfBytes(Decoded(g, rows, f), PixelAt(g, r, k), Sample(g, rows, 0, r, k).value,
                  Sample(g, rows, 1, r, k).value, Sample(g, rows, 2, r, k).value);
    PixelPlace(g, r, k);
  }

  lemma PixelPlace(g: Layout, r: nat, k: nat)
    ensures PixelAt(g, r, k) == r * g.linesize + k * g.inc
  {
  }

  /** The planes are red, green, blue and alpha, and a pixel is their colour with alpha in the fourth byte. */
  lemma Rgb32Pixel(linesize: nat, height: nat, rows: Rows, f: seq<Byte>, r: nat, k: nat)
    requires Drawable(Rgb32(linesize, height), rows, f)
    requires forall p :: 0 <= p < 4 ==> Sample(Rgb32(linesize, height), rows, p, r, k).Some?
    ensures var g := Rgb32(linesize, height);
            ShowsColour(Decoded(g, rows, f), PixelAt(g, r, k), Sample(g, rows, 0, r, k).value,
                        Sample(g, rows, 1, r, k).value, Sample(g, rows, 2, r, k).value) &&
            HasByte(Decoded(g, rows, f), PixelAt(g, r, k) + 3, Sample(g, rows, 3, r, k))
    ensures PixelAt(Rgb32(linesize, height), r, k) == r * linesize + k * 4
  {
    var g := Rgb32(linesize, height);
    hide Decoded, Sample, Drawable, HasByte, PixelAt, ShowsColour;
    PlaneByte(g, rows, f, 0, r, k);
    PlaneByte(g, rows, f, 1, r, k);
    PlaneByte(g, rows, f, 2, r, k);
    PlaneByte(g, rows, f, 3, r, k);
    ColourOfBytes(Decoded(g, rows, f), PixelAt(g, r, k), Sample(g, rows, 0, r, k).value,
                  Sample(g, rows, 1, r, k).value, Sample(g, rows, 2, r, k).value);
    PixelPlace(g, r, k);
  }
}
