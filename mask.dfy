/** The hard alpha mask built from a person segmentation: a fresh RGBA
    `ImageData` buffer whose colour bytes are white and whose alpha byte is
    opaque exactly where the segmentation marks the person. */
module Mask {
  import opened Common

  /** Alpha of one mask pixel: only the segmentation value 1 (person) is
      visible; every other value counts as background. */
  function MaskAlpha(v: int): (a: byte)
    ensures a == 255 <==> v == 1
    ensures a == 0 <==> v != 1
  {
    if v == 1 then 255 else 0
  }

  /** Byte `j` of the mask buffer: pixel `j / 4`, channel `j % 4`. Pixels the
      segmentation covers are white with the mask alpha; the rest keep the
      zero bytes of a freshly created buffer. */
  function MaskByte(data: seq<int>, j: nat): (b: byte)
  {
    if j / 4 < |data| then
      if j % 4 == 3 then MaskAlpha(data[j / 4]) else 255
    else 0
  }

  /** The contents of the mask buffer for a `width` x `height` canvas. */
  function MaskImageData(width: nat, height: nat, data: seq<int>): (bytes: seq<byte>)
  {
    seq(4 * width * height, j requires 0 <= j => MaskByte(data, j))
  }

  /** What the mask buffer holds, pixel by pixel: white colour bytes, alpha
      255 exactly where the segmentation value is 1 and 0 elsewhere, and
      untouched zero bytes after the last segmented pixel. */
  lemma MaskImageDataMeaning(width: nat, height: nat, data: seq<int>)
    ensures var bytes := MaskImageData(width, height, data);
            && |bytes| == 4 * width * height
            && (forall i :: 0 <= i < |data| && 4 * i + 3 < |bytes| ==>
                  && bytes[4 * i] == 255 && bytes[4 * i + 1] == 255 && bytes[4 * i + 2] == 255
                  && (bytes[4 * i + 3] == 255 <==> data[i] == 1)
                  && (bytes[4 * i + 3] == 0 <==> data[i] != 1))
            && (forall j :: 4 * |data| <= j < |bytes| ==> bytes[j] == 0)
  {
    var bytes := MaskImageData(width, height, data);
    forall i | 0 <= i < |data| && 4 * i + 3 < |bytes|
      ensures bytes[4 * i] == 255 && bytes[4 * i + 1] == 255 && bytes[4 * i + 2] == 255
      ensures bytes[4 * i + 3] == MaskAlpha(data[i])
    {
      ChannelOf(i, 0);
      ChannelOf(i, 1);
      ChannelOf(i, 2);
      ChannelOf(i, 3);
    }
  }

  /** Every alpha byte of the mask buffer is 0 or 255: the mask is hard. */
  lemma MaskAlphaIsHard(width: nat, height: nat, data: seq<int>, i: nat)
    requires 4 * i + 3 < 4 * width * height
    ensures var a := MaskImageData(width, height, data)[4 * i + 3];
            a == 0 || a == 255
  {
    ChannelOf(i, 3);
  }

  lemma ChannelOf(i: nat, k: nat)
    requires k < 4
    ensures (4 * i + k) / 4 == i && (4 * i + k) % 4 == k
  {
  }

  /** An indexed store into a `Uint8ClampedArray`: an index past the end is
      ignored. */
  method Store(buf: array<byte>, index: nat, v: byte)
    modifies buf
    ensures index < buf.Length ==> buf[..] == old(buf[..])[index := v]
    ensures index >= buf.Length ==> buf[..] == old(buf[..])
  {
    if index < buf.Length {
      buf[index] := v;
    }
  }

  /** The mask buffer of length `n` after the loop has written pixels
      `0 .. i - 1`. */
  function Filled(data: seq<int>, i: nat, n: nat): (r: seq<byte>)
  {
    seq(n, j requires 0 <= j => if j < 4 * i then MaskByte(data, j) else 0)
  }

  /** One loop iteration writes the four bytes of pixel `i`, when they lie
      inside the buffer. */
  lemma FillStep(data: seq<int>, i: nat, n: nat)
    requires i < |data| && n % 4 == 0
    ensures 4 * i < n ==> 4 * i + 3 < n
    ensures 4 * i < n ==>
              Filled(data, i + 1, n)
              == Filled(data, i, n)[4 * i := 255][4 * i + 1 := 255][4 * i + 2 := 255][4 * i + 3 := MaskAlpha(data[i])]
    ensures 4 * i >= n ==> Filled(data, i + 1, n) == Filled(data, i, n)
  {
    if 4 * i < n {
      var a := Filled(data, i, n)[4 * i := 255][4 * i + 1 := 255][4 * i + 2 := 255][4 * i + 3 := MaskAlpha(data[i])];
      forall j | 0 <= j < n ensures Filled(data, i + 1, n)[j] == a[j] {
        if 4 * i <= j < 4 * i + 4 {
          ChannelOf(i, j - 4 * i);
        }
      }
    }
  }

  lemma FilledIsMask(width: nat, height: nat, data: seq<int>)
    ensures Filled(data, |data|, 4 * width * height) == MaskImageData(width, height, data)
  {
  }

  /** `context.createImageData(width, height)` followed by the loop over the
      segmentation's `data`, which writes pixel `i` at offset `4 * i`. */
  method CreateMaskImageData(width: nat, height: nat, data: seq<int>) returns (bytes: seq<byte>)
    requires width > 0 && height > 0
    ensures bytes == MaskImageData(width, height, data)
  {
    var n := 4 * (width * height);
    var buf := new byte[n](_ => 0);
    assert buf[..] == Filled(data, 0, n);
    var i := 0;
    while i < |data|
      invariant 0 <= i <= |data|
      invariant buf.Length == n && n % 4 == 0
      invariant buf[..] == Filled(data, i, n)
    {
      var offset := i * 4;
      var visible := data[i] == 1;
      FillStep(data, i, n);
      Store(buf, offset, 255);
      Store(buf, offset + 1, 255);
      Store(buf, offset + 2, 255);
      Store(buf, offset + 3, if visible then 255 else 0);
      i := i + 1;
    }
    assert n == 4 * width * height;
    FilledIsMask(width, height, data);
    bytes := buf[..];
  }
}
