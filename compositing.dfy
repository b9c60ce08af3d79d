/** The canvas step after the mask is built: `putImageData` puts the mask
    buffer on a canvas of the image's size, and `drawImage` with the
    "source-in" composite operation (Porter-Duff source-in, section 9.1,
    "Porter Duff Operators", of W3C Compositing and Blending Level 1) draws the photograph over it. The
    result keeps the photograph's colour and multiplies its alpha by the
    mask's alpha. */
module Compositing {
  import opened Common
  import opened Mask

  datatype Rgba = Rgba(r: byte, g: byte, b: byte, a: byte)

  /** A decoded image: `width` x `height` pixels in row-major order. */
  datatype Image = Image(width: nat, height: nat, pixels: seq<Rgba>)
  {
    predicate Valid()
    {
      |pixels| == width * height
    }
  }

  /** The pixels of an RGBA byte buffer, four bytes per pixel. */
  function PixelsOf(bytes: seq<byte>): (r: seq<Rgba>)
    requires |bytes| % 4 == 0
  {
    seq(|bytes| / 4, i requires 0 <= i < |bytes| / 4 =>
      Rgba(bytes[4 * i], bytes[4 * i + 1], bytes[4 * i + 2], bytes[4 * i + 3]))
  }

  /** The product of two 8-bit alphas, scaled back to 0..255 and rounded to
      the nearest value. */
  function MulAlpha(x: byte, y: byte): (z: byte)
    ensures z <= x && z <= y
  {
    ProductBounds(x, y);
    ((x as int * y as int + 127) / 255) as byte
  }

  lemma ProductBounds(x: byte, y: byte)
    ensures 0 <= x as int * y as int <= 255 * x as int
    ensures x as int * y as int <= 255 * y as int
    ensures (x as int * y as int + 127) / 255 <= x as int
    ensures (x as int * y as int + 127) / 255 <= y as int
  {
    var p := x as int * y as int;
    assert p <= 255 * x as int by {
      assert p == y as int * x as int;
    }
    assert p <= 255 * y as int;
  }

  /** An opaque factor keeps the other alpha; a transparent one clears it. */
  lemma MulAlphaByHardValue(x: byte)
    ensures MulAlpha(x, 255) == x && MulAlpha(255, x) == x
    ensures MulAlpha(x, 0) == 0 && MulAlpha(0, x) == 0
  {
    assert x as int * 255 == 255 * x as int;
  }

  /** Source-in for one pixel: the result has the source's colour and the
      product of the source and destination alphas. The destination's colour
      does not contribute. */
  function SourceIn(src: Rgba, dst: Rgba): (out: Rgba)
    ensures out.a <= src.a && out.a <= dst.a
  {
    Rgba(src.r, src.g, src.b, MulAlpha(src.a, dst.a))
  }

  /** Against an opaque destination pixel the source shows through unchanged;
      against a transparent one the result is transparent. */
  lemma SourceInAgainstHardMask(src: Rgba, dst: Rgba)
    ensures dst.a == 255 ==> SourceIn(src, dst) == src
    ensures dst.a == 0 ==> SourceIn(src, dst).a == 0
    ensures forall other: Rgba :: other.a == dst.a ==> SourceIn(src, other) == SourceIn(src, dst)
  {
    MulAlphaByHardValue(src.a);
  }

  /** Drawing `src` over `dst` with source-in, pixel by pixel. */
  function Composite(src: seq<Rgba>, dst: seq<Rgba>): (out: seq<Rgba>)
    requires |src| == |dst|
    ensures |out| == |src|
  {
    seq(|src|, i requires 0 <= i < |src| => SourceIn(src[i], dst[i]))
  }

  lemma MaskLength(width: nat, height: nat, data: seq<int>)
    ensures |MaskImageData(width, height, data)| % 4 == 0
    ensures |MaskImageData(width, height, data)| / 4 == width * height
  {
    assert 4 * width * height == 4 * (width * height);
  }

  /** The canvas contents after the mask buffer is put and the image is drawn
      with source-in. */
  function MaskedImage(img: Image, data: seq<int>): (out: seq<Rgba>)
    requires img.Valid()
    ensures |out| == |img.pixels|
  {
    var bytes := MaskImageData(img.width, img.height, data);
    MaskLength(img.width, img.height, data);
    Composite(img.pixels, PixelsOf(bytes))
  }

  /** Pixel `i` of the result: the photograph's colour, with the photograph's
      alpha where the segmentation value is 1 and alpha 0 everywhere else,
      including pixels the segmentation does not cover. */
  lemma MaskedImageAt(img: Image, data: seq<int>, i: nat)
    requires img.Valid() && i < |img.pixels|
    ensures var s, out := img.pixels[i], MaskedImage(img, data)[i];
            && out.r == s.r && out.g == s.g && out.b == s.b
            && out.a == (if i < |data| && data[i] == 1 then s.a else 0)
  {
    var bytes := MaskImageData(img.width, img.height, data);
    MaskLength(img.width, img.height, data);
    MaskImageDataMeaning(img.width, img.height, data);
    var m := PixelsOf(bytes)[i];
    assert 4 * i + 3 < |bytes|;
    assert m.a == bytes[4 * i + 3];
    if i < |data| {
      assert m.a == (if data[i] == 1 then 255 else 0);
    } else {
      assert m.a == 0;
    }
    MulAlphaByHardValue(img.pixels[i].a);
  }

  /** For an opaque photograph every result alpha is 0 or 255, and it is 255
      exactly at the pixels the segmentation marks with 1. */
  lemma OpaqueImageGetsHardAlpha(img: Image, data: seq<int>)
    requires img.Valid()
    requires forall i :: 0 <= i < |img.pixels| ==> img.pixels[i].a == 255
    ensures forall i :: 0 <= i < |img.pixels| ==>
              var a := MaskedImage(img, data)[i].a;
              && (a == 0 || a == 255)
              && (a == 255 <==> i < |data| && data[i] == 1)
  {
    forall i | 0 <= i < |img.pixels|
      ensures var a := MaskedImage(img, data)[i].a;
              (a == 0 || a == 255) && (a == 255 <==> i < |data| && data[i] == 1)
    {
      MaskedImageAt(img, data, i);
    }
  }

  /** A segmentation with no person pixel gives a fully transparent result. */
  lemma NoPersonGivesTransparentImage(img: Image, data: seq<int>)
    requires img.Valid()
    requires forall i :: 0 <= i < |data| ==> data[i] != 1
    ensures forall i :: 0 <= i < |img.pixels| ==> MaskedImage(img, data)[i].a == 0
  {
    forall i | 0 <= i < |img.pixels| ensures MaskedImage(img, data)[i].a == 0 {
      MaskedImageAt(img, data, i);
    }
  }

  /** A segmentation that marks every pixel as person gives back the
      photograph unchanged. */
  lemma AllPersonKeepsImage(img: Image, data: seq<int>)
    requires img.Valid()
    requires |data| >= |img.pixels|
    requires forall i :: 0 <= i < |data| ==> data[i] == 1
    ensures MaskedImage(img, data) == img.pixels
  {
    forall i | 0 <= i < |img.pixels| ensures MaskedImage(img, data)[i] == img.pixels[i] {
      MaskedImageAt(img, data, i);
    }
  }
}
