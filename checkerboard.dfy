/** createCheckerboardTexture of w06/w06p01.js: an RGBA texture of texSize x texSize
    texels, row-major, four bytes per texel, split into numRows x numCols patches that
    are alternately black and white; alpha is always opaque. */
module Checkerboard {
  /** An element of a Uint8Array. */
  newtype byte = x: int | 0 <= x < 256

  const White: byte := 255
  const Black: byte := 0
  const Opaque: byte := 255
  /** Bytes per texel: red, green, blue, alpha. */
  const TexelBytes: nat := 4

  /** floor(i / (texSize / count)): the patch texel `i` falls in along one axis. In exact
      arithmetic that is floor(i * count / texSize); with no patches the divisor is
      infinite and every texel is in patch 0. */
  function Patch(i: nat, texSize: nat, count: nat): (p: nat)
    ensures i < texSize && count > 0 ==> p < count
  {
    if count == 0 || texSize == 0 then 0
    else
      var q := (i * count) / texSize;
      if i < texSize then PatchBound(i, texSize, count); q else q
  }

  /** i * count < texSize * count, so the quotient by texSize is below count. */
  lemma PatchBound(i: nat, texSize: nat, count: nat)
    requires i < texSize && count > 0
    ensures (i * count) / texSize < count
  {
    MulMonotone(count, i + 1, texSize);
    DivBelow(i * count, texSize, count);
  }

  /** a < d * q implies a / d < q. */
  lemma DivBelow(a: nat, d: nat, q: nat)
    requires d > 0 && a < d * q
    ensures a / d < q
  {
  }

  lemma MulMonotone(d: nat, x: nat, y: nat)
    requires x <= y
    ensures d * x <= d * y
  {
  }

  /** A multiple of d strictly between -d and d is 0 * d. */
  lemma ZeroMultiple(x: int, d: int, y: int)
    requires d > 0 && x * d == y && -d < y < d
    ensures x == 0
  {
  }

  /** (q * d + r) / d == q and (q * d + r) % d == r for 0 <= r < d. */
  lemma DivModOf(q: nat, d: nat, r: nat)
    requires r < d
    ensures (q * d + r) / d == q && (q * d + r) % d == r
  {
    var n := q * d + r;
    var q', r' := n / d, n % d;
    assert (q - q') * d == r' - r;
    ZeroMultiple(q - q', d, r' - r);
  }

  /** The color of texel (i, j): white where the row patch and the column patch differ in
      parity, black where they agree. */
  function TexelColor(i: nat, j: nat, texSize: nat, numRows: nat, numCols: nat): (c: byte)
    ensures c == White || c == Black
    ensures c == White <==> Patch(i, texSize, numRows) % 2 != Patch(j, texSize, numCols) % 2
  {
    if Patch(i, texSize, numRows) % 2 != Patch(j, texSize, numCols) % 2 then White else Black
  }

  /** The byte at offset `k` of the texture: byte k % 4 of texel k / 4, which lies in row
      (k / 4) / texSize and column (k / 4) % texSize. */
  function TextureByte(k: nat, texSize: nat, numRows: nat, numCols: nat): (b: byte)
    ensures k % TexelBytes == 3 ==> b == Opaque
    ensures b == White || b == Black
  {
    var t := k / TexelBytes;
    if k % TexelBytes == 3 then Opaque
    else if texSize == 0 then Black
    else TexelColor(t / texSize, t % texSize, texSize, numRows, numCols)
  }

  /** The whole texture as a sequence of bytes. */
  function Texture(texSize: nat, numRows: nat, numCols: nat): (r: seq<byte>)
    ensures |r| == TexelBytes * texSize * texSize
  {
    TextureFrom(0, texSize, numRows, numCols)
  }

  /** The bytes of the texture from offset `k` on. */
  function TextureFrom(k: nat, texSize: nat, numRows: nat, numCols: nat): (r: seq<byte>)
    ensures |r| == if k <= TexelBytes * texSize * texSize then TexelBytes * texSize * texSize - k else 0
    decreases TexelBytes * texSize * texSize - k
  {
    if k >= TexelBytes * texSize * texSize then []
    else [TextureByte(k, texSize, numRows, numCols)] + TextureFrom(k + 1, texSize, numRows, numCols)
  }

  lemma {:induction false} TextureFromAt(from: nat, k: nat, texSize: nat, numRows: nat, numCols: nat)
    requires from <= k < TexelBytes * texSize * texSize
    ensures TextureFrom(from, texSize, numRows, numCols)[k - from] == TextureByte(k, texSize, numRows, numCols)
    decreases k - from
  {
    if from < k {
      TextureFromAt(from + 1, k, texSize, numRows, numCols);
    }
  }

  /** Byte `k` of the texture is TextureByte(k). */
  lemma TextureAt(k: nat, texSize: nat, numRows: nat, numCols: nat)
    requires k < TexelBytes * texSize * texSize
    ensures Texture(texSize, numRows, numCols)[k] == TextureByte(k, texSize, numRows, numCols)
  {
    TextureFromAt(0, k, texSize, numRows, numCols);
  }

  /** The offset of byte `channel` of texel (i, j): row-major, four bytes per texel. */
  function ByteOffset(i: nat, j: nat, channel: nat, texSize: nat): nat
  {
    TexelBytes * (i * texSize + j) + channel
  }

  /** The offset of a byte of texel (i, j) lies in the texture and decodes back to the
      channel, the row and the column. */
  lemma ByteOffsetDecodes(i: nat, j: nat, channel: nat, texSize: nat)
    requires i < texSize && j < texSize && channel < TexelBytes
    ensures var k := ByteOffset(i, j, channel, texSize);
            && k < TexelBytes * texSize * texSize
            && k % TexelBytes == channel && k / TexelBytes == i * texSize + j
            && (k / TexelBytes) / texSize == i && (k / TexelBytes) % texSize == j
  {
    var k, t := ByteOffset(i, j, channel, texSize), i * texSize + j;
    RowMajorBound(i, j, texSize);
    assert k == t * TexelBytes + channel;
    DivModOf(t, TexelBytes, channel);
    DivModOf(i, texSize, j);
  }

  /** Texel (i, j) is one of the texSize * texSize texels, and its four bytes lie within
      the texture. */
  lemma RowMajorBound(i: nat, j: nat, texSize: nat)
    requires i < texSize && j < texSize
    ensures i * texSize + j < texSize * texSize
    ensures TexelBytes * (i * texSize + j) + TexelBytes <= TexelBytes * texSize * texSize
  {
    MulMonotone(texSize, i + 1, texSize);
    assert TexelBytes * texSize * texSize == TexelBytes * (texSize * texSize);
  }

  /** Texel (i, j) occupies bytes 4 * (i * texSize + j) to 4 * (i * texSize + j) + 3 of the
      texture, row after row: red, green and blue hold the texel's color and alpha is
      opaque. */
  lemma TexelLayout(i: nat, j: nat, channel: nat, texSize: nat, numRows: nat, numCols: nat)
    requires i < texSize && j < texSize && channel < TexelBytes
    ensures ByteOffset(i, j, channel, texSize) < |Texture(texSize, numRows, numCols)|
            && Texture(texSize, numRows, numCols)[ByteOffset(i, j, channel, texSize)]
               == if channel == 3 then Opaque else TexelColor(i, j, texSize, numRows, numCols)
  {
    ByteOffsetDecodes(i, j, channel, texSize);
    TextureAt(ByteOffset(i, j, channel, texSize), texSize, numRows, numCols);
  }

  /** Every texel is gray: its red, green and blue bytes are equal, and its alpha byte is
      255. */
  lemma TexelGray(i: nat, j: nat, texSize: nat, numRows: nat, numCols: nat)
    requires i < texSize && j < texSize
    ensures var texture := Texture(texSize, numRows, numCols);
            && ByteOffset(i, j, 3, texSize) < |texture|
            && texture[ByteOffset(i, j, 0, texSize)] == texture[ByteOffset(i, j, 1, texSize)]
               == texture[ByteOffset(i, j, 2, texSize)]
            && texture[ByteOffset(i, j, 3, texSize)] == Opaque
  {
    TexelLayout(i, j, 0, texSize, numRows, numCols);
    TexelLayout(i, j, 1, texSize, numRows, numCols);
    TexelLayout(i, j, 2, texSize, numRows, numCols);
    TexelLayout(i, j, 3, texSize, numRows, numCols);
  }

  /** The color byte of texel (i, j) is 255 exactly when its patches differ in parity, and
      0 otherwise. */
  lemma TexelWhiteIff(i: nat, j: nat, texSize: nat, numRows: nat, numCols: nat)
    requires i < texSize && j < texSize
    ensures ByteOffset(i, j, 0, texSize) < |Texture(texSize, numRows, numCols)|
            && var c := Texture(texSize, numRows, numCols)[ByteOffset(i, j, 0, texSize)];
               && (c == White <==> Patch(i, texSize, numRows) % 2 != Patch(j, texSize, numCols) % 2)
               && (c == White || c == Black)
  {
    TexelLayout(i, j, 0, texSize, numRows, numCols);
  }

  /** When texSize is a multiple w of the patch count, the patches are runs of w texels:
      patch p covers texels p * w to p * w + w - 1. */
  lemma PatchOfEvenSplit(i: nat, texSize: nat, count: nat, w: nat)
    requires i < texSize && count > 0 && texSize == count * w
    ensures Patch(i, texSize, count) == i / w
  {
    ScaledDiv(i, count, w);
  }

  /** Scaling both sides of a division by the same positive factor does not change the
      quotient: (i * count) / (count * w) == i / w. */
  lemma ScaledDiv(i: nat, count: nat, w: nat)
    requires count > 0 && w > 0
    ensures (i * count) / (count * w) == i / w
  {
    var q, r := i / w, i % w;
    assert i == q * w + r;
    ScaleSplit(q, w, r, count);
    MulMonotone(count, r + 1, w);
    DivModOf(q, count * w, r * count);
  }

  /** (q * w + r) * count == q * (count * w) + r * count. */
  lemma ScaleSplit(q: nat, w: nat, r: nat, count: nat)
    ensures (q * w + r) * count == q * (count * w) + r * count
  {
  }

  /** The texture the page builds: 64 x 64 texels in 8 x 8 patches of 8 x 8 texels. */
  lemma PageTexture(i: nat, j: nat)
    requires i < 64 && j < 64
    ensures ByteOffset(i, j, 0, 64) < |Texture(64, 8, 8)|
            && Texture(64, 8, 8)[ByteOffset(i, j, 0, 64)] == if (i / 8) % 2 != (j / 8) % 2 then White else Black
  {
    TexelLayout(i, j, 0, 64, 8, 8);
    PatchOfEvenSplit(i, 64, 8, 8);
    PatchOfEvenSplit(j, 64, 8, 8);
  }

  /** Row i of the texture ends within it, where row i + 1 begins. */
  lemma RowEnd(i: nat, texSize: nat)
    requires i < texSize
    ensures i * texSize + texSize == (i + 1) * texSize
    ensures TexelBytes * (i * texSize + texSize) <= TexelBytes * texSize * texSize
  {
    MulMonotone(texSize, i + 1, texSize);
  }

  /** The four bytes written for texel (i, j), where `row` = i * texSize texels lie in the
      rows above it, are those of the texture. */
  lemma TexelWritten(i: nat, j: nat, row: nat, texSize: nat, numRows: nat, numCols: nat)
    requires i < texSize && j < texSize && row == i * texSize
    ensures var idx, texture := TexelBytes * (row + j), Texture(texSize, numRows, numCols);
            var c := TexelColor(i, j, texSize, numRows, numCols);
            && idx + 3 < |texture|
            && texture[idx] == c && texture[idx + 1] == c && texture[idx + 2] == c && texture[idx + 3] == Opaque
  {
    TexelGray(i, j, texSize, numRows, numCols);
    TexelLayout(i, j, 0, texSize, numRows, numCols);
  }

  /** Fills a fresh byte array texel by texel, row by row. */
  method CreateCheckerboardTexture(texSize: nat, numRows: nat, numCols: nat) returns (texels: array<byte>)
    ensures fresh(texels)
    ensures texels[..] == Texture(texSize, numRows, numCols)
  {
    texels := new byte[TexelBytes * texSize * texSize];
    ghost var texture := Texture(texSize, numRows, numCols);
    ghost var row, done := 0, 0;
    for i := 0 to texSize
      invariant row == i * texSize && done == TexelBytes * row
      invariant done <= texels.Length == |texture|
      invariant forall k :: 0 <= k < done ==> texels[k] == texture[k]
    {
      RowEnd(i, texSize);
      FillRow(texels, i, row, texSize, numRows, numCols);
      row, done := row + texSize, done + TexelBytes * texSize;
    }
    assert done == texels.Length by {
      assert row == texSize * texSize;
      assert TexelBytes * texSize * texSize == TexelBytes * (texSize * texSize);
    }
    assert texels[..] == texture;
  }

  /** The inner loop over the texels of row `i`, left to right; `row` = i * texSize
      texels lie in the rows above it. It writes only the bytes of row i: the bytes of
      the rows below keep their values. */
  method FillRow(texels: array<byte>, i: nat, ghost row: nat, texSize: nat, numRows: nat, numCols: nat)
    requires i < texSize && row == i * texSize
    requires texels.Length == |Texture(texSize, numRows, numCols)| && TexelBytes * (row + texSize) <= texels.Length
    requires forall k :: 0 <= k < TexelBytes * row ==> texels[k] == Texture(texSize, numRows, numCols)[k]
    modifies texels
    ensures forall k :: 0 <= k < TexelBytes * (row + texSize) ==> texels[k] == Texture(texSize, numRows, numCols)[k]
    ensures forall k :: TexelBytes * (row + texSize) <= k < texels.Length ==> texels[k] == old(texels[k])
  {
    ghost var texture := Texture(texSize, numRows, numCols);
    for j := 0 to texSize
      invariant forall k :: 0 <= k < TexelBytes * (row + j) ==> texels[k] == texture[k]
      invariant forall k :: TexelBytes * (row + texSize) <= k < texels.Length ==> texels[k] == old(texels[k])
    {
      var c := TexelColor(i, j, texSize, numRows, numCols);
      var idx := TexelBytes * (i * texSize + j);
      assert idx == TexelBytes * (row + j);
      TexelWritten(i, j, row, texSize, numRows, numCols);
      WriteTexel(texels, idx, c);
      assert TexelBytes * (row + (j + 1)) == idx + TexelBytes;
    }
  }

  /** The four byte stores of one texel at offset `idx`: the color into red, green and
      blue, then 255 into alpha. No other byte changes. */
  method WriteTexel(texels: array<byte>, idx: nat, c: byte)
    requires idx + 3 < texels.Length
    modifies texels
    ensures forall k :: 0 <= k < texels.Length ==>
              texels[k] == if idx <= k < idx + TexelBytes then (if k == idx + 3 then Opaque else c) else old(texels[k])
  {
    texels[idx + 2] := c;
    texels[idx + 1] := c;
    texels[idx] := c;
    texels[idx + 3] := Opaque;
  }
}
