/**
 * The pixel routines of balloons/balloons.go over an 800 x 600 screen held
 * as a byte buffer of four bytes (red, green, blue, alpha) per pixel, row
 * after row: `setPixel` writes one pixel's colour, `draw` copies a texture
 * into the buffer at an integer offset, clipping at the window's edges.
 */
module Balloons {

  newtype byte = x: int | 0 <= x < 256

  const WinWidth: int := 800
  const WinHeight: int := 600
  /** Length of the screen buffer that `main` allocates. */
  const ScreenBytes: int := WinWidth * WinHeight * 4

  datatype Rgba = Rgba(r: byte, g: byte, b: byte)

  /** Offset of the first byte of pixel (x, y). */
  function Index(x: int, y: int): int
  {
    (y * WinWidth + x) * 4
  }

  /** The buffer with the colour bytes of the pixel at `i` set; its alpha byte is left as it was. */
  function Plot(s: seq<byte>, i: int, c: Rgba): (t: seq<byte>)
    requires 0 <= i && i + 3 <= |s|
    ensures |t| == |s| && t[i] == c.r && t[i + 1] == c.g && t[i + 2] == c.b
    ensures forall j :: 0 <= j < |s| && j != i && j != i + 1 && j != i + 2 ==> t[j] == s[j]
  {
    s[i := c.r][i + 1 := c.g][i + 2 := c.b]
  }

  // ---------------------------------------------------------------------
  // setPixel

  /** The bounds test of `setPixel` as the source writes it. */
  predicate GuardAsWritten(index: int, len: int)
  {
    index < len - 4 && index >= 0
  }

  /** The bounds test it evidently means: the whole pixel lies in the buffer. */
  predicate Guard(index: int, len: int)
  {
    0 <= index && index <= len - 4
  }

  /** `setPixel` as written: a pixel whose first byte is the fourth-last byte of the buffer is refused. */
  method SetPixelAsWritten(x: int, y: int, c: Rgba, pixels: array<byte>)
    modifies pixels
    ensures pixels[..] == if GuardAsWritten(Index(x, y), pixels.Length) then Plot(old(pixels[..]), Index(x, y), c) else old(pixels[..])
  {
    var index := (y * WinWidth + x) * 4;
    if index < pixels.Length - 4 && index >= 0 {
      pixels[index] := c.r;
      pixels[index + 1] := c.g;
      pixels[index + 2] := c.b;
    }
  }

  /** `setPixel` with the corrected bounds test: every pixel that fits the buffer is written. */
  method SetPixel(x: int, y: int, c: Rgba, pixels: array<byte>)
    modifies pixels
    ensures pixels[..] == if Guard(Index(x, y), pixels.Length) then Plot(old(pixels[..]), Index(x, y), c) else old(pixels[..])
  {
    var index := (y * WinWidth + x) * 4;
    if index <= pixels.Length - 4 && index >= 0 {
      pixels[index] := c.r;
      pixels[index + 1] := c.g;
      pixels[index + 2] := c.b;
    }
  }

  /** On-screen pixels in row-major order: pixel (x, y) starts at a multiple of four below the screen's length. */
  lemma IndexOnScreen(x: int, y: int)
    requires 0 <= x < WinWidth && 0 <= y < WinHeight
    ensures 0 <= Index(x, y) <= ScreenBytes - 4 && Index(x, y) % 4 == 0
    ensures Index(x, y) == ScreenBytes - 4 <==> x == WinWidth - 1 && y == WinHeight - 1
  {
    assert Index(x, y) == 4 * (y * WinWidth + x);
    assert y * WinWidth <= (WinHeight - 1) * WinWidth;
  }

  /**
   * As written, `setPixel` on the screen buffer writes every on-screen pixel
   * except the bottom-right one, whose first byte is exactly `len - 4`.
   */
  lemma LastPixelSkipped(x: int, y: int)
    requires 0 <= x < WinWidth && 0 <= y < WinHeight
    ensures GuardAsWritten(Index(x, y), ScreenBytes) <==> !(x == WinWidth - 1 && y == WinHeight - 1)
  {
    IndexOnScreen(x, y);
  }

  /**
   * With the corrected test every on-screen pixel is written, and a written
   * pixel never reaches past the buffer, in any buffer.
   */
  lemma EveryPixelWritten(x: int, y: int, len: int)
    ensures 0 <= x < WinWidth && 0 <= y < WinHeight ==> Guard(Index(x, y), ScreenBytes)
    ensures Guard(Index(x, y), len) ==> 0 <= Index(x, y) && Index(x, y) + 3 < len
  {
    if 0 <= x < WinWidth && 0 <= y < WinHeight {
      IndexOnScreen(x, y);
    }
  }

  // ---------------------------------------------------------------------
  // draw

  /** A texture: `w` x `h` texels of four bytes, rows `pitch` bytes apart. */
  class Texture {
    const pixels: array<byte>
    const w: int
    const h: int
    const pitch: int

    /** The shape `loadBalloons` gives a texture: rows of `4 * w` bytes, nothing after the last. */
    ghost predicate Valid()
    {
      0 <= w && 0 <= h && 4 * w <= pitch && h * pitch <= pixels.Length
    }

    constructor (pixels: array<byte>, w: int, h: int)
      requires 0 <= w && 0 <= h && pixels.Length == w * h * 4
      ensures Valid() && this.pixels == pixels && this.w == w && this.h == h && pitch == w * 4
    {
      this.pixels := pixels;
      this.w := w;
      this.h := h;
      pitch := w * 4;
    }

    /** Byte `c` of texel (tx, ty). */
    function Texel(tx: int, ty: int, c: int): byte
      reads pixels
    {
      var i := ty * pitch + tx * 4 + c;
      if 0 <= i < pixels.Length then pixels[i] else 0
    }

    /** Every byte of every texel lies in the texture's buffer. */
    lemma TexelInRange(tx: int, ty: int)
      requires Valid() && 0 <= tx < w && 0 <= ty < h
      ensures 0 <= ty * pitch + tx * 4 && ty * pitch + tx * 4 + 3 < pixels.Length
    {
      var rest := h - 1 - ty;
      assert rest * pitch >= 0 && ty * pitch >= 0;
      assert h * pitch == ty * pitch + pitch + rest * pitch;
    }

    /**
     * `draw(p, pixels)` with the offset already truncated to (px, py): texel
     * (tx, ty) lands, all four of its bytes, on pixel (tx + px, ty + py) when
     * that pixel is on screen; every other byte of the buffer is left alone.
     */
    method Draw(px: int, py: int, screen: array<byte>)
      requires Valid() && screen.Length == ScreenBytes && screen != pixels
      modifies screen
      ensures forall k :: 0 <= k < screen.Length ==>
        screen[k] == if Painted(px, py, k, h, 0) then Texel(ScreenX(k) - px, ScreenY(k) - py, k % 4) else old(screen[k])
    {
      ghost var orig := screen[..];
      var y := 0;
      while y < h
        invariant 0 <= y <= h
        invariant forall k :: 0 <= k < screen.Length ==>
          screen[k] == if Painted(px, py, k, y, 0) then Texel(ScreenX(k) - px, ScreenY(k) - py, k % 4) else orig[k]
      {
        var x := 0;
        while x < w
          invariant 0 <= x <= w
          invariant forall k :: 0 <= k < screen.Length ==>
            screen[k] == if Painted(px, py, k, y, x) then Texel(ScreenX(k) - px, ScreenY(k) - py, k % 4) else orig[k]
        {
          DrawTexel(px, py, screen, x, y, orig);
          x := x + 1;
        }
        assert forall k :: Painted(px, py, k, y, w) == Painted(px, py, k, y + 1, 0);
        y := y + 1;
      }
    }

    /** Byte `k` of the screen has been drawn from a texel at offset (px, py) once `draw` has reached texel (x, y) in row order. */
    ghost predicate Painted(px: int, py: int, k: int, y: int, x: int)
    {
      0 <= k < ScreenBytes &&
      var tx := ScreenX(k) - px;
      var ty := ScreenY(k) - py;
      0 <= tx < w && 0 <= ty < h && (ty < y || (ty == y && tx < x))
    }

    /** One iteration of the inner loop of `draw`: texel (x, y), when it lands on screen. */
    method DrawTexel(px: int, py: int, screen: array<byte>, x: int, y: int, ghost orig: seq<byte>)
      requires Valid() && screen.Length == ScreenBytes && screen != pixels && |orig| == ScreenBytes
      requires 0 <= x < w && 0 <= y < h
      requires forall k :: 0 <= k < screen.Length ==>
        screen[k] == if Painted(px, py, k, y, x) then Texel(ScreenX(k) - px, ScreenY(k) - py, k % 4) else orig[k]
      modifies screen
      ensures forall k :: 0 <= k < screen.Length ==>
        screen[k] == if Painted(px, py, k, y, x + 1) then Texel(ScreenX(k) - px, ScreenY(k) - py, k % 4) else orig[k]
    {
      var screenY := y + py;
      var screenX := x + px;
      if screenX >= 0 && screenX < WinWidth && screenY >= 0 && screenY < WinHeight {
        TexelInRange(x, y);
        var texIndex := y * pitch + x * 4;
        var screenIndex := screenY * WinWidth * 4 + screenX * 4;
        IndexOnScreen(screenX, screenY);
        CopyPixel(screen, screenIndex, texIndex);
        forall k | 0 <= k < screen.Length
          ensures screen[k] == if Painted(px, py, k, y, x + 1) then Texel(ScreenX(k) - px, ScreenY(k) - py, k % 4) else orig[k]
        {
          ScreenPosOf(k);
          if screenIndex <= k < screenIndex + 4 {
            ScreenIndexOf(screenX, screenY, k - screenIndex);
          }
        }
      } else {
        forall k | 0 <= k < screen.Length
          ensures Painted(px, py, k, y, x + 1) == Painted(px, py, k, y, x)
        {
          ScreenPosOf(k);
        }
      }
    }

    /** The four assignments of `draw`'s loop body: the texel's bytes from `texIndex` on go to the screen from `screenIndex` on. */
    method CopyPixel(screen: array<byte>, screenIndex: int, texIndex: int)
      requires screen != pixels
      requires 0 <= screenIndex && screenIndex + 3 < screen.Length && 0 <= texIndex && texIndex + 3 < pixels.Length
      modifies screen
      ensures forall k :: 0 <= k < screen.Length ==>
        screen[k] == if screenIndex <= k < screenIndex + 4 then pixels[texIndex + (k - screenIndex)] else old(screen[k])
    {
      screen[screenIndex] := pixels[texIndex];
      screen[screenIndex + 1] := pixels[texIndex + 1];
      screen[screenIndex + 2] := pixels[texIndex + 2];
      screen[screenIndex + 3] := pixels[texIndex + 3];
    }

    /**
     * Where a texel goes: for an on-screen target, each byte `c` of texel
     * (tx, ty) is byte `c` of pixel (tx + px, ty + py), and that byte counts as drawn.
     */
    lemma DrawPlacement(px: int, py: int, tx: int, ty: int, c: int)
      requires 0 <= tx < w && 0 <= ty < h && 0 <= c < 4
      requires 0 <= tx + px < WinWidth && 0 <= ty + py < WinHeight
      ensures var k := Index(tx + px, ty + py) + c;
        Painted(px, py, k, h, 0) && ScreenX(k) - px == tx && ScreenY(k) - py == ty && k % 4 == c
    {
      ScreenIndexOf(tx + px, ty + py, c);
    }

    /** Only on-screen pixels are drawn, each from the texel the offset puts there. */
    lemma DrawClips(px: int, py: int, k: int)
      requires Painted(px, py, k, h, 0)
      ensures 0 <= ScreenX(k) < WinWidth && 0 <= ScreenY(k) < WinHeight
      ensures k == Index(ScreenX(k), ScreenY(k)) + k % 4
      ensures 0 <= ScreenX(k) - px < w && 0 <= ScreenY(k) - py < h
    {
      ScreenPosOf(k);
    }
  }

  /** Column of the pixel that byte `k` belongs to. */
  function ScreenX(k: int): int
  {
    (k / 4) % WinWidth
  }

  /** Row of the pixel that byte `k` belongs to. */
  function ScreenY(k: int): int
  {
    (k / 4) / WinWidth
  }

  /** Every byte of the screen belongs to one on-screen pixel. */
  lemma ScreenPosOf(k: int)
    requires 0 <= k < ScreenBytes
    ensures 0 <= ScreenX(k) < WinWidth && 0 <= ScreenY(k) < WinHeight
    ensures k == (ScreenY(k) * WinWidth + ScreenX(k)) * 4 + k % 4
  {
  }

  /** The four bytes of an on-screen pixel belong to that pixel. */
  lemma ScreenIndexOf(sx: int, sy: int, c: int)
    requires 0 <= sx < WinWidth && 0 <= sy < WinHeight && 0 <= c < 4
    ensures var k := Index(sx, sy) + c;
      0 <= k < ScreenBytes && ScreenX(k) == sx && ScreenY(k) == sy && k % 4 == c
  {
    IndexOnScreen(sx, sy);
  }
}
