/** The stored image entity and its on-read rescaling: a centred crop to the
    target aspect ratio, resampled to exactly the target size on a black RGB
    canvas and re-encoded as JPEG. Decoding and encoding belong to the platform's
    imaging library and are parameters of the model (a Codec). */
module Images {
  import opened Common

  newtype byte = x: int | 0 <= x < 256

  type Pos = n: int | n > 0 witness 1

  /** A decoded raster; the library never yields one with an empty side. */
  datatype Bitmap = Bitmap(width: Pos, height: Pos, pixels: seq<int>)

  datatype Rect = Rect(x: int, y: int, width: int, height: int)

  datatype Color = Color(red: int, green: int, blue: int)

  const Black := Color(0, 0, 0)

  /** What is handed to the JPEG writer: the `region` of `source`, resampled
      smoothly to width x height and drawn over `background` on an RGB canvas
      of that size. */
  datatype Canvas = Canvas(width: int, height: int, background: Color, source: Bitmap, region: Rect)

  /** ImageIO.read: a raster, null when no reader recognises the bytes, or an IOException. */
  datatype Decoded = Picture(bitmap: Bitmap) | NoReader | ReadFailed

  /** ImageIO.write: the encoded bytes, or an IOException. */
  datatype Encoded = Written(bytes: seq<byte>) | WriteFailed

  datatype Codec = Codec(read: seq<byte> -> Decoded, write: Canvas -> Encoded)

  /** The (int) cast of a double: truncation toward zero. */
  function Trunc(x: real): (n: int)
    ensures x >= 0.0 ==> 0 <= n && n as real <= x < n as real + 1.0
    ensures x < 0.0 ==> n <= 0
  {
    if x >= 0.0 then x.Floor else -((-x).Floor)
  }

  /** Java's int division by 2, truncating toward zero. */
  function Half(n: int): int
  {
    if n >= 0 then n / 2 else -((-n) / 2)
  }

  /** The crop size before truncation: the source's size with one side shrunk
      so that the aspect ratio becomes w/h. */
  function CropExtent(srcW: Pos, srcH: Pos, w: int, h: int): (real, real)
    requires w != 0 && h != 0
  {
    var target := w as real / h as real;
    var current := srcW as real / srcH as real;
    if current > target then (srcH as real * target, srcH as real)
    else if current < target then (srcW as real, srcW as real / target)
    else (srcW as real, srcH as real)
  }

  /** The rectangle handed to getSubimage. */
  function CropRect(srcW: Pos, srcH: Pos, w: int, h: int): (r: Rect)
    requires w != 0 && h != 0
    ensures r.width <= srcW ==> 0 <= r.x && r.x <= srcW - r.width - r.x <= r.x + 1
    ensures r.height <= srcH ==> 0 <= r.y && r.y <= srcH - r.height - r.y <= r.y + 1
  {
    var (cw, ch) := CropExtent(srcW, srcH, w, h);
    Rect(Half(srcW - Trunc(cw)), Half(srcH - Trunc(ch)), Trunc(cw), Trunc(ch))
  }

  /** getSubimage accepts a non-empty rectangle inside the raster. */
  predicate Fits(r: Rect, srcW: int, srcH: int)
  {
    && 0 <= r.x && 0 <= r.y && r.width > 0 && r.height > 0
    && r.x + r.width <= srcW && r.y + r.height <= srcH
  }

  /** The crop for a positive target in integer terms: the side that is too
      long relative to w/h (compared by cross multiplication) is cut to the
      target ratio, rounded down; the margins are split evenly. */
  function WholeCrop(srcW: Pos, srcH: Pos, w: Pos, h: Pos): Rect
  {
    var cw := if srcW * h > w * srcH then (srcH * w) / h else srcW;
    var ch := if srcW * h < w * srcH then (srcW * h) / w else srcH;
    Rect((srcW - cw) / 2, (srcH - ch) / 2, cw, ch)
  }

  /** Truncating an exact quotient of naturals is integer division. */
  lemma TruncQuotient(a: nat, b: Pos)
    ensures Trunc(a as real / b as real) == a / b
  {
    var q, m := a / b, a % b;
    assert a as real == q as real * b as real + m as real;
    assert a as real / b as real == q as real + m as real / b as real;
    assert 0.0 <= m as real / b as real < 1.0;
  }

  /** x * (y / z) == (x * y) / z over the reals. */
  lemma TimesQuotient(x: real, y: real, z: real)
    requires z != 0.0
    ensures x * (y / z) == (x * y) / z
  {
  }

  /** x / (y / z) == (x * z) / y over the reals. */
  lemma OverQuotient(x: real, y: real, z: real)
    requires y != 0.0 && z != 0.0
    ensures x / (y / z) == (x * z) / y
  {
  }

  /** Comparing two positive ratios is comparing the cross products. */
  lemma RatioOrder(a: Pos, b: Pos, c: Pos, d: Pos)
    ensures (a as real / b as real > c as real / d as real) <==> a * d > c * b
    ensures (a as real / b as real < c as real / d as real) <==> a * d < c * b
  {
    var p, q := a as real / b as real, c as real / d as real;
    assert p * b as real == a as real;
    assert q * d as real == c as real;
    assert (p - q) * (b * d) as real == (a * d - c * b) as real;
  }

  /** When the source is relatively wider than the target, its width is cut. */
  lemma WideExtent(srcW: Pos, srcH: Pos, w: Pos, h: Pos)
    requires srcW * h > w * srcH
    ensures CropExtent(srcW, srcH, w, h) == ((srcH * w) as real / h as real, srcH as real)
  {
    RatioOrder(srcW, srcH, w, h);
    assert srcW as real / srcH as real > w as real / h as real;
    TimesQuotient(srcH as real, w as real, h as real);
    assert (srcH * w) as real == srcH as real * w as real;
    assert srcH as real * (w as real / h as real) == (srcH * w) as real / h as real;
  }

  /** When the source is relatively taller than the target, its height is cut. */
  lemma TallExtent(srcW: Pos, srcH: Pos, w: Pos, h: Pos)
    requires srcW * h < w * srcH
    ensures CropExtent(srcW, srcH, w, h) == (srcW as real, (srcW * h) as real / w as real)
  {
    RatioOrder(srcW, srcH, w, h);
    OverQuotient(srcW as real, w as real, h as real);
    assert (srcW * h) as real == srcW as real * h as real;
  }

  /** When the aspect ratios agree, nothing is cut. */
  lemma SameExtent(srcW: Pos, srcH: Pos, w: Pos, h: Pos)
    requires srcW * h == w * srcH
    ensures CropExtent(srcW, srcH, w, h) == (srcW as real, srcH as real)
  {
    RatioOrder(srcW, srcH, w, h);
  }

  /** The crop of a relatively wider source: the width cut to srcH * w / h. */
  lemma WideCrop(srcW: Pos, srcH: Pos, w: Pos, h: Pos)
    requires srcW * h > w * srcH
    ensures CropRect(srcW, srcH, w, h) == Rect((srcW - (srcH * w) / h) / 2, 0, (srcH * w) / h, srcH)
  {
    WideExtent(srcW, srcH, w, h);
    TruncQuotient(srcH * w, h);
    QuotientBelow(srcH * w, h, srcW);
    var cw := (srcH * w) / h;
    assert Trunc(srcH as real) == srcH;
    assert Half(srcW - cw) == (srcW - cw) / 2;
  }

  /** The crop of a relatively taller source: the height cut to srcW * h / w. */
  lemma TallCrop(srcW: Pos, srcH: Pos, w: Pos, h: Pos)
    requires srcW * h < w * srcH
    ensures CropRect(srcW, srcH, w, h) == Rect(0, (srcH - (srcW * h) / w) / 2, srcW, (srcW * h) / w)
  {
    TallExtent(srcW, srcH, w, h);
    TruncQuotient(srcW * h, w);
    QuotientBelow(srcW * h, w, srcH);
    var ch := (srcW * h) / w;
    assert Trunc(srcW as real) == srcW;
    assert Half(srcH - ch) == (srcH - ch) / 2;
  }

  /** In exact arithmetic, for a positive target, the crop of Image.scale
      (CropRect, on reals) equals the integer crop WholeCrop; the doubles of
      the source are not modelled. */
  lemma CropIsWhole(srcW: Pos, srcH: Pos, w: Pos, h: Pos)
    ensures CropRect(srcW, srcH, w, h) == WholeCrop(srcW, srcH, w, h)
  {
    if srcW * h > w * srcH {
      WideCrop(srcW, srcH, w, h);
    } else if srcW * h < w * srcH {
      TallCrop(srcW, srcH, w, h);
    } else {
      SameExtent(srcW, srcH, w, h);
      assert Trunc(srcW as real) == srcW && Trunc(srcH as real) == srcH;
    }
  }

  /** Multiplication by a positive number is monotonic. */
  lemma MulMonotone(x: int, y: int, b: Pos)
    ensures x <= y ==> x * b <= y * b
  {
  }

  /** a < c * b implies a / b < c. */
  lemma QuotientBelow(a: nat, b: Pos, c: nat)
    requires a < c * b
    ensures a / b < c
  {
    assert (a / b) * b <= a;
    MulMonotone(c, a / b, b);
  }

  /** a >= b implies a / b >= 1. */
  lemma QuotientAtLeastOne(a: nat, b: Pos)
    requires a >= b
    ensures a / b >= 1
  {
  }

  /** For a positive target the crop lies inside the source, keeps one side
      whole and is centred: the margins left and right (above and below)
      differ by at most one pixel. */
  lemma CropInside(srcW: Pos, srcH: Pos, w: Pos, h: Pos)
    ensures var r := CropRect(srcW, srcH, w, h);
      && 0 <= r.x && 0 <= r.y && 0 <= r.width && 0 <= r.height
      && r.x + r.width <= srcW && r.y + r.height <= srcH
      && (r.width == srcW || r.height == srcH)
      && 0 <= srcW - r.width - 2 * r.x <= 1
      && 0 <= srcH - r.height - 2 * r.y <= 1
  {
    if srcW * h > w * srcH {
      WideCrop(srcW, srcH, w, h);
      QuotientBelow(srcH * w, h, srcW);
    } else if srcW * h < w * srcH {
      TallCrop(srcW, srcH, w, h);
      QuotientBelow(srcW * h, w, srcH);
    } else {
      CropIsWhole(srcW, srcH, w, h);
    }
  }

  /** The crop is non-empty unless the target is more than srcW times wider
      than tall, or more than srcH times taller than wide. */
  lemma CropNonEmpty(srcW: Pos, srcH: Pos, w: Pos, h: Pos)
    requires w <= srcW * h && h <= srcH * w
    ensures Fits(CropRect(srcW, srcH, w, h), srcW, srcH)
  {
    CropInside(srcW, srcH, w, h);
    CropIsWhole(srcW, srcH, w, h);
    if srcW * h > w * srcH {
      QuotientAtLeastOne(srcH * w, h);
    } else if srcW * h < w * srcH {
      QuotientAtLeastOne(srcW * h, w);
    }
  }

  /** What Image.scale(w, h) returns for the stored bytes `data`; on a normal
      return the entity's data becomes the returned bytes. */
  function Scaled(data: seq<byte>, w: int, h: int, codec: Codec): (r: Result<seq<byte>>)
    ensures w == 0 || h == 0 ==> r == Ok(data)
    ensures r.Err? ==> r.failure.Unchecked?
    ensures r.Ok? && r.value != data ==> w > 0 && h > 0 && codec.read(data).Picture?
  {
    if w == 0 || h == 0 then Ok(data)
    else match codec.read(data)
      case ReadFailed => Ok(data)
      case NoReader => Err(Unchecked(NullPointer))
      case Picture(bmp) =>
        var crop := CropRect(bmp.width, bmp.height, w, h);
        if !Fits(crop, bmp.width, bmp.height) then Err(Unchecked(RasterFormat))
        else if w < 0 || h < 0 then Err(Unchecked(IllegalArgument))
        else match codec.write(Canvas(w, h, Black, bmp, crop))
          case WriteFailed => Ok(data)
          case Written(bytes) => Ok(bytes)
  }

  /** Zero width or height means "no scaling": the bytes come back untouched. */
  lemma ScaleSentinel(data: seq<byte>, w: int, h: int, codec: Codec)
    requires w == 0 || h == 0
    ensures Scaled(data, w, h, codec) == Ok(data)
  {
  }

  /** An IOException while reading or writing degrades to the original bytes. */
  lemma ScaleFailsSoft(data: seq<byte>, w: int, h: int, codec: Codec)
    requires codec.read(data).ReadFailed?
      || (codec.read(data).Picture? && w > 0 && h > 0
          && Fits(CropRect(codec.read(data).bitmap.width, codec.read(data).bitmap.height, w, h),
                  codec.read(data).bitmap.width, codec.read(data).bitmap.height)
          && codec.write(Canvas(w, h, Black, codec.read(data).bitmap,
               CropRect(codec.read(data).bitmap.width, codec.read(data).bitmap.height, w, h))).WriteFailed?)
    ensures Scaled(data, w, h, codec) == Ok(data)
  {
  }

  /** Every returned byte string is either the original or the JPEG encoding of
      a w x h canvas with a black background showing an in-bounds, non-empty
      crop of the decoded source. */
  lemma ScaledOutput(data: seq<byte>, w: int, h: int, codec: Codec)
    requires Scaled(data, w, h, codec).Ok?
    ensures var out := Scaled(data, w, h, codec).value;
      || out == data
      || exists c: Canvas ::
           && c.width == w && c.height == h && c.background == Black
           && codec.read(data) == Picture(c.source)
           && Fits(c.region, c.source.width, c.source.height)
           && codec.write(c) == Written(out)
  {
    var out := Scaled(data, w, h, codec).value;
    if out != data {
      var bmp := codec.read(data).bitmap;
      var c := Canvas(w, h, Black, bmp, CropRect(bmp.width, bmp.height, w, h));
      assert codec.write(c) == Written(out);
    }
  }

  /** A positive target on a decodable image whose crop is not degenerate never
      raises: the rectangle handed to getSubimage always fits. */
  lemma ScaleNeverRaises(data: seq<byte>, w: int, h: int, codec: Codec)
    requires w > 0 && h > 0 && codec.read(data).Picture?
    requires w <= codec.read(data).bitmap.width * h && h <= codec.read(data).bitmap.height * w
    ensures Scaled(data, w, h, codec).Ok?
  {
    var bmp := codec.read(data).bitmap;
    CropNonEmpty(bmp.width, bmp.height, w, h);
  }

  /** A target much wider than the picture's ratio allows cuts the height to
      nothing: a 1x1 picture scaled to 3x1 raises RasterFormatException. */
  lemma DegenerateTargetRaises(data: seq<byte>, codec: Codec)
    requires codec.read(data).Picture?
    requires codec.read(data).bitmap.width == 1 && codec.read(data).bitmap.height == 1
    ensures Scaled(data, 3, 1, codec) == Err(Unchecked(RasterFormat))
  {
  }

  /** A negative width or height on a decodable image always raises: with one
      side negative the aspect ratio is negative and the crop width comes out
      non-positive (RasterFormatException); with both negative the canvas cannot
      be created (IllegalArgumentException) if getSubimage did not already throw. */
  lemma NegativeTargetRaises(data: seq<byte>, w: int, h: int, codec: Codec)
    requires w != 0 && h != 0 && (w < 0 || h < 0) && codec.read(data).Picture?
    ensures Scaled(data, w, h, codec).Err?
  {
    var bmp := codec.read(data).bitmap;
    var target := w as real / h as real;
    if (w < 0) != (h < 0) {
      assert target < 0.0;
      assert bmp.width as real / bmp.height as real > 0.0;
      assert bmp.height as real * target < 0.0;
      assert CropRect(bmp.width, bmp.height, w, h).width <= 0;
    }
  }

  /** The image entity. Only `data` changes after creation. */
  class Image {
    const id: Option<string>
    var data: seq<byte>
    const name: string
    const createdAt: Option<int>
    const updatedAt: Option<int>

    constructor (id: Option<string>, data: seq<byte>, name: string, createdAt: Option<int>, updatedAt: Option<int>)
      ensures this.id == id && this.data == data && this.name == name
      ensures this.createdAt == createdAt && this.updatedAt == updatedAt
    {
      this.id := id;
      this.data := data;
      this.name := name;
      this.createdAt := createdAt;
      this.updatedAt := updatedAt;
    }

    /** Image.scale(w, h): rescales and overwrites `data` in place, returning it. */
    method Scale(w: int, h: int, codec: Codec) returns (r: Result<seq<byte>>)
      modifies this`data
      ensures r == Scaled(old(data), w, h, codec)
      ensures data == if r.Ok? then r.value else old(data)
    {
      if w == 0 || h == 0 {
        return Ok(data);
      }
      var decoded := codec.read(data);
      if decoded.ReadFailed? {
        return Ok(data);
      }
      if decoded.NoReader? {
        return Err(Unchecked(NullPointer));
      }
      var img := decoded.bitmap;
      var targetAspectRatio := w as real / h as real;
      var imageWidth := img.width as real;
      var imageHeight := img.height as real;
      var currAspectRatio := imageWidth / imageHeight;
      if currAspectRatio > targetAspectRatio {
        imageWidth := imageHeight * targetAspectRatio;
        assert CropExtent(img.width, img.height, w, h).0 == imageWidth;
      } else if currAspectRatio < targetAspectRatio {
        imageHeight := imageWidth / targetAspectRatio;
        assert CropExtent(img.width, img.height, w, h).1 == imageHeight;
      }
      var crop := Rect(Half(img.width - Trunc(imageWidth)), Half(img.height - Trunc(imageHeight)),
                       Trunc(imageWidth), Trunc(imageHeight));
      if !Fits(crop, img.width, img.height) {
        return Err(Unchecked(RasterFormat));
      }
      if w < 0 || h < 0 {
        return Err(Unchecked(IllegalArgument));
      }
      var encoded := codec.write(Canvas(w, h, Black, img, crop));
      if encoded.WriteFailed? {
        return Ok(data);
      }
      data := encoded.bytes;
      return Ok(data);
    }
  }

  const DefaultImageName := "notfound.jpg"

  /** Image.defaultImage(): a fresh entity holding the bundled asset, or null
      when reading the asset fails (`asset` is None). */
  method DefaultImage(asset: Option<seq<byte>>) returns (img: Image?)
    ensures img == null <==> asset.None?
    ensures img != null ==>
      && fresh(img) && img.id.None? && img.name == DefaultImageName
      && img.data == asset.value && img.createdAt.None? && img.updatedAt.None?
  {
    if asset.None? {
      return null;
    }
    img := new Image(None, asset.value, DefaultImageName, None, None);
  }
}
