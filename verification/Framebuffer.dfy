/** The linear framebuffer as bytes, and glyph drawing into it. */
module Framebuffer {
  import opened Bits

  /** `depth` is bytes per pixel. */
  datatype Geometry = Geometry(width: nat, height: nat, pitch: nat, depth: nat)

  /** Pixels hold at least three bytes and rows do not overlap; offsets stay within 32 bits. */
  predicate GeometryOk(g: Geometry, bytes: nat) {
    g.depth >= 3 && g.width * g.depth <= g.pitch && g.height * g.pitch <= bytes < U32
  }

  function Offset(g: Geometry, x: nat, y: nat): (o: nat) { y * g.pitch + x * g.depth }

  datatype Rgb = Rgb(b: byte, g: byte, r: byte)

  /** The three bytes stored for a 32-bit colour. */
  function Shade(color: nat): (p: Rgb) { Rgb(color % 256, color / 256 % 256, color / 65536 % 256) }

  lemma OffsetInside(g: Geometry, bytes: nat, x: nat, y: nat)
    requires GeometryOk(g, bytes) && x < g.width && y < g.height
    ensures Offset(g, x, y) + 3 <= (y + 1) * g.pitch <= bytes
    ensures y * g.pitch <= Offset(g, x, y)
  {
    MulMono(x + 1, g.width, g.depth);
    MulMono(y + 1, g.height, g.pitch);
    assert (x + 1) * g.depth == x * g.depth + g.depth;
    assert (y + 1) * g.pitch == y * g.pitch + g.pitch;
  }

  /** Distinct pixels occupy disjoint bytes. */
  lemma PixelsApart(g: Geometry, bytes: nat, x: nat, y: nat, x': nat, y': nat)
    requires GeometryOk(g, bytes) && x < g.width && y < g.height && x' < g.width && y' < g.height
    requires (x, y) != (x', y')
    ensures Offset(g, x, y) + 3 <= Offset(g, x', y') || Offset(g, x', y') + 3 <= Offset(g, x, y)
  {
    OffsetInside(g, bytes, x, y);
    OffsetInside(g, bytes, x', y');
    if y < y' {
      MulMono(y + 1, y', g.pitch);
    } else if y' < y {
      MulMono(y' + 1, y, g.pitch);
    } else if x < x' {
      MulMono(x + 1, x', g.depth);
      assert (x + 1) * g.depth == x * g.depth + g.depth;
    } else {
      MulMono(x' + 1, x, g.depth);
      assert (x' + 1) * g.depth == x' * g.depth + g.depth;
    }
  }

  /** The pixel at (x, y) in a memory image. */
  function PixelAt(g: Geometry, m: seq<byte>, x: nat, y: nat): (p: Rgb)
    requires GeometryOk(g, |m|) && x < g.width && y < g.height
  {
    OffsetInside(g, |m|, x, y);
    var o := Offset(g, x, y);
    Rgb(m[o], m[o + 1], m[o + 2])
  }

  /** Three bytes stored at one pixel, seen from any pixel. */
  lemma StoredPixel(g: Geometry, m: seq<byte>, m': seq<byte>, x: nat, y: nat, color: nat, px: nat, py: nat)
    requires GeometryOk(g, |m|) && |m'| == |m| && x < g.width && y < g.height && px < g.width && py < g.height
    requires var o := Offset(g, x, y);
             && o + 3 <= |m|
             && m'[o] == color % 256 && m'[o + 1] == color / 256 % 256 && m'[o + 2] == color / 65536 % 256
             && forall k :: 0 <= k < |m| && !(o <= k < o + 3) ==> m'[k] == m[k]
    ensures PixelAt(g, m', px, py) == if px == x && py == y then Shade(color) else PixelAt(g, m, px, py)
  {
    hide Offset, GeometryOk;
    OffsetInside(g, |m|, px, py);
    if !(px == x && py == y) {
      PixelsApart(g, |m|, x, y, px, py);
    }
  }

  /** A bitmap font: `glyphSize` bytes per glyph, rows padded to whole bytes, most significant bit first. */
  datatype Font = Font(glyphs: seq<byte>, width: nat, height: nat, glyphSize: nat)

  function BytesPerRow(f: Font): (n: nat) { (f.width + 7) / 8 }

  predicate FontOk(f: Font) {
    && f.width > 0 && f.height > 0
    && f.height * BytesPerRow(f) <= f.glyphSize
    && 256 * f.glyphSize <= |f.glyphs|
  }

  /** Position of the byte that holds a dot of glyph `c`. */
  function GlyphIndex(f: Font, c: nat, row: nat, col: nat): (i: nat) { c * f.glyphSize + row * BytesPerRow(f) + col / 8 }

  lemma GlyphByteInside(f: Font, c: nat, row: nat, col: nat)
    requires FontOk(f) && c < 256 && row < f.height && col < f.width
    ensures GlyphIndex(f, c, row, col) < |f.glyphs|
  {
    MulMono(row + 1, f.height, BytesPerRow(f));
    assert (row + 1) * BytesPerRow(f) == row * BytesPerRow(f) + BytesPerRow(f);
    MulMono(c + 1, 256, f.glyphSize);
    assert (c + 1) * f.glyphSize == c * f.glyphSize + f.glyphSize;
  }

  /** `(byte >> (7 - col % 8)) & 1`. */
  function GlyphBit(f: Font, c: byte, row: nat, col: nat): (on: bool)
    requires FontOk(f) && row < f.height && col < f.width
  {
    GlyphByteInside(f, c, row, col);
    var bits: nat := f.glyphs[GlyphIndex(f, c, row, col)];
    Shr(bits, 7 - col % 8) % 2 == 1
  }

  lemma {:induction false} BitTest(a: nat, k: nat)
    ensures And(a, Pow2(k)) != 0 <==> Shr(a, k) % 2 == 1
  {
    AndDouble(a, Pow2(k));
    if k > 0 {
      BitTest(a / 2, k - 1);
      assert Pow2(k) % 2 == 0 && Pow2(k) / 2 == Pow2(k - 1);
    } else {
      AndNothing(a / 2);
    }
  }

  lemma AndNothing(a: nat)
    ensures And(a, 0) == 0
  {
  }

  /** Columns run from the most significant bit of a byte to the least: the dot is on exactly when its byte
      has the bit of the mask for its column. */
  lemma GlyphBitIsMask(f: Font, c: byte, row: nat, col: nat)
    requires FontOk(f) && row < f.height && col < f.width
    ensures GlyphIndex(f, c, row, col) == c * f.glyphSize + row * ((f.width + 7) / 8) + col / 8
    ensures var i := GlyphIndex(f, c, row, col);
            && i < |f.glyphs|
            && (GlyphBit(f, c, row, col) <==> And(f.glyphs[i], [0x80, 0x40, 0x20, 0x10, 8, 4, 2, 1][col % 8]) != 0)
  {
    hide And, FontOk;
    GlyphByteInside(f, c, row, col);
    var bits := f.glyphs[GlyphIndex(f, c, row, col)];
    BitTest(bits, 7 - col % 8);
    Masks(col % 8);
  }

  lemma Masks(k: nat)
    requires k < 8
    ensures Pow2(7 - k) == [0x80, 0x40, 0x20, 0x10, 8, 4, 2, 1][k]
  {
    assert Pow2(1) == 2 && Pow2(2) == 4 && Pow2(3) == 8 && Pow2(4) == 16 && Pow2(5) == 32 && Pow2(6) == 64 && Pow2(7) == 128;
  }

  /** The colour of one dot of a glyph. */
  function Dot(f: Font, c: byte, fg: nat, bg: nat, row: nat, col: nat): (p: Rgb)
    requires FontOk(f) && row < f.height && col < f.width
  {
    Shade(if GlyphBit(f, c, row, col) then fg else bg)
  }

  class Display {
    const geometry: Geometry
    const mem: array<byte>

    ghost predicate Valid() { GeometryOk(geometry, mem.Length) }

    constructor (g: Geometry, bytes: nat)
      requires GeometryOk(g, bytes)
      ensures Valid() && geometry == g && fresh(mem)
    {
      geometry := g;
      mem := new byte[bytes];
    }

    /** `fb_put_pixel`: one pixel changes, and only if it is on the screen. */
    method PutPixel(x: nat, y: nat, color: nat)
      requires Valid()
      modifies mem
      ensures forall px: nat, py: nat :: px < geometry.width && py < geometry.height ==>
                PixelAt(geometry, mem[..], px, py) == if px == x && py == y then Shade(color) else PixelAt(geometry, old(mem[..]), px, py)
      ensures var o := Offset(geometry, x, y);
              if x < geometry.width && y < geometry.height then
                && o + 3 <= mem.Length
                && mem[o] == color % 256 && mem[o + 1] == color / 0x100 % 256 && mem[o + 2] == color / 0x1_0000 % 256
                && forall k :: 0 <= k < mem.Length && !(o <= k < o + 3) ==> mem[k] == old(mem[k])
              else mem[..] == old(mem[..])
    {
      hide GeometryOk, PixelAt, Shade;
      if x >= geometry.width || y >= geometry.height {
        return;
      }
      ghost var m := mem[..];
      OffsetInside(geometry, mem.Length, x, y);
      var o := Offset(geometry, x, y);
      mem[o] := color % 256;
      mem[o + 1] := color / 256 % 256;
      mem[o + 2] := color / 65536 % 256;
      forall px: nat, py: nat | px < geometry.width && py < geometry.height
        ensures PixelAt(geometry, mem[..], px, py) == if px == x && py == y then Shade(color) else PixelAt(geometry, m, px, py)
      {
        StoredPixel(geometry, m, mem[..], x, y, color, px, py);
      }
    }

    /** `fb_clear`. */
    method Clear(color: nat)
      requires Valid()
      modifies mem
      ensures forall px: nat, py: nat :: px < geometry.width && py < geometry.height ==> PixelAt(geometry, mem[..], px, py) == Shade(color)
    {
      hide GeometryOk, PixelAt, Shade;
      var y: nat := 0;
      while y < geometry.height
        invariant y <= geometry.height && Valid()
        invariant forall px: nat, py: nat :: px < geometry.width && py < y ==> PixelAt(geometry, mem[..], px, py) == Shade(color)
      {
        var x: nat := 0;
        while x < geometry.width
          invariant x <= geometry.width && Valid()
          invariant forall px: nat, py: nat :: px < geometry.width && py < geometry.height && (py < y || (py == y && px < x)) ==>
                      PixelAt(geometry, mem[..], px, py) == Shade(color)
        {
          PutPixel(x, y, color);
          x := x + 1;
        }
        y := y + 1;
      }
    }

    /** `font_draw_char`: the glyph's rectangle shows its dots, clipped to the screen, and no other pixel changes. */
    method DrawChar(f: Font, c: byte, x: nat, y: nat, fg: nat, bg: nat)
      requires Valid() && FontOk(f)
      modifies mem
      ensures forall px: nat, py: nat :: px < geometry.width && py < geometry.height ==>
                PixelAt(geometry, mem[..], px, py) == if x <= px < x + f.width && y <= py < y + f.height then Dot(f, c, fg, bg, py - y, px - x)
                                 else PixelAt(geometry, old(mem[..]), px, py)
    {
      hide GeometryOk, PixelAt, Shade, Dot, GlyphBit, FontOk;
      var row: nat := 0;
      while row < f.height
        invariant row <= f.height && Valid() && FontOk(f)
        invariant forall px: nat, py: nat :: px < geometry.width && py < geometry.height ==>
                    PixelAt(geometry, mem[..], px, py) == if x <= px < x + f.width && y <= py < y + row then Dot(f, c, fg, bg, py - y, px - x)
                                     else PixelAt(geometry, old(mem[..]), px, py)
      {
        var col: nat := 0;
        while col < f.width
          invariant col <= f.width && Valid() && FontOk(f)
          invariant forall px: nat, py: nat :: px < geometry.width && py < geometry.height ==>
                      PixelAt(geometry, mem[..], px, py) ==
                      if x <= px < x + f.width && y <= py < y + row then Dot(f, c, fg, bg, py - y, px - x)
                      else if x <= px < x + col && py == y + row then Dot(f, c, fg, bg, row, px - x)
                      else PixelAt(geometry, old(mem[..]), px, py)
        {
          var color := if GlyphBit(f, c, row, col) then fg else bg;
          DotIs(f, c, fg, bg, row, col);
          PutPixel(x + col, y + row, color);
          col := col + 1;
        }
        row := row + 1;
      }
    }
  }

  lemma DotIs(f: Font, c: byte, fg: nat, bg: nat, row: nat, col: nat)
    requires FontOk(f) && row < f.height && col < f.width
    ensures Dot(f, c, fg, bg, row, col) == Shade(if GlyphBit(f, c, row, col) then fg else bg)
  {
  }
}
