/** The `Dxyn` sprite blit of emulator.c on its own: the display is a flat
    sequence of 64 * 32 byte cells, row-major, and a sprite of `n` bytes is XORed
    into it one pixel at a time. Pixel `p` of a sprite is row `p / 8`, column
    `p % 8`, which is the order of the two nested loops of the source. */
module Sprite {
  import opened Bits

  const Width: nat := 64
  const Height: nat := 32
  const Cells: nat := 2048

  /** The display index that pixel `p` of a sprite drawn from column `sx`, row `sy`
      lands on: both coordinates wrap around the screen edges. */
  function PixelCell(sx: nat, sy: nat, p: nat): (c: nat)
    ensures c < Cells
  {
    ((sy + p / 8) % Height) * Width + (sx + p % 8) % Width
  }

  /** Pixel `p` of the sprite is set. */
  predicate PixelSet(sprite: seq<byte>, p: nat)
    requires p < 8 * |sprite|
  {
    BitAt(sprite[p / 8], p % 8)
  }

  /** The display after the first `k` pixels of the sprite are drawn: every set
      pixel XORs 1 into the cell it lands on, a clear pixel changes nothing. */
  function Blit(d: seq<byte>, sprite: seq<byte>, sx: nat, sy: nat, k: nat): (r: seq<byte>)
    requires |d| == Cells && k <= 8 * |sprite|
    ensures |r| == Cells
  {
    if k == 0 then d
    else
      var e := Blit(d, sprite, sx, sy, k - 1);
      var c := PixelCell(sx, sy, k - 1);
      if PixelSet(sprite, k - 1) then e[c := Xor8(e[c], 1)] else e
  }

  /** The collision flag after the first `k` pixels: some set pixel found its
      cell lit (non-zero) at the moment it was drawn. */
  predicate Collides(d: seq<byte>, sprite: seq<byte>, sx: nat, sy: nat, k: nat)
    requires |d| == Cells && k <= 8 * |sprite|
  {
    k > 0 &&
    (Collides(d, sprite, sx, sy, k - 1) ||
     (PixelSet(sprite, k - 1) && Blit(d, sprite, sx, sy, k - 1)[PixelCell(sx, sy, k - 1)] != 0))
  }

  /** What a single draw may take for granted: the start is on screen, the sprite
      has at most 32 rows (a `Dxyn` sprite has at most 15). */
  predicate Placed(sprite: seq<byte>, sx: nat, sy: nat)
  {
    |sprite| <= Height && sx < Width && sy < Height
  }

  /** Some set pixel among the first `k` lands on cell `c`. */
  ghost predicate Covered(sprite: seq<byte>, sx: nat, sy: nat, k: nat, c: nat)
    requires k <= 8 * |sprite|
  {
    exists p: nat :: p < k && PixelCell(sx, sy, p) == c && PixelSet(sprite, p)
  }

  /** Every display cell holds 0 or 1. */
  ghost predicate Binary(d: seq<byte>)
  {
    forall c :: 0 <= c < |d| ==> d[c] <= 1
  }

  /** Within one sprite, two different pixels never land on the same cell,
      though the sprite may wrap around an edge. */
  lemma PixelCellInjective(sx: nat, sy: nat, p: nat, q: nat)
    requires sx < Width && sy < Height && p < 8 * Height && q < 8 * Height && p != q
    ensures PixelCell(sx, sy, p) != PixelCell(sx, sy, q)
  {
    PixelCellDetermines(sx, sy, p, q);
  }

  /** The cell a pixel lands on gives back the pixel. */
  lemma PixelCellDetermines(sx: nat, sy: nat, p: nat, q: nat)
    requires sx < Width && sy < Height && p < 8 * Height && q < 8 * Height
    ensures PixelCell(sx, sy, p) == PixelCell(sx, sy, q) ==> p == q
  {
    var rp, rq := (sy + p / 8) % Height, (sy + q / 8) % Height;
    var cp, cq := (sx + p % 8) % Width, (sx + q % 8) % Width;
    RowMajor(rp, cp);
    RowMajor(rq, cq);
    WrapApart(sy, p / 8, q / 8, Height);
    WrapApart(sx, p % 8, q % 8, Width);
    assert p == 8 * (p / 8) + p % 8;
    assert q == 8 * (q / 8) + q % 8;
  }

  /** Row and column of a row-major cell index. */
  lemma RowMajor(row: nat, col: nat)
    requires col < Width
    ensures (row * Width + col) / Width == row && (row * Width + col) % Width == col
  {
  }

  /** Two offsets below `m` from the same start below `m` wrap to the same place
      only when they are equal. */
  lemma WrapApart(start: nat, a: nat, b: nat, m: nat)
    requires m == Width || m == Height
    requires start < m && a < m && b < m
    ensures (start + a) % m == (start + b) % m ==> a == b
  {
    var u, w := start + a, start + b;
    assert u % m == if u < m then u else u - m;
    assert w % m == if w < m then w else w - m;
  }

  /** Pixel `q` lands on a cell no earlier pixel reached. */
  lemma NotCoveredBefore(sprite: seq<byte>, sx: nat, sy: nat, q: nat)
    requires Placed(sprite, sx, sy) && q < 8 * |sprite|
    ensures !Covered(sprite, sx, sy, q, PixelCell(sx, sy, q))
  {
    forall p: nat | p < q
      ensures PixelCell(sx, sy, p) != PixelCell(sx, sy, q)
    {
      PixelCellInjective(sx, sy, p, q);
    }
  }

  /** Covering by the first `k` pixels is covering by the first `k - 1` or by pixel `k - 1`. */
  lemma CoveredStep(sprite: seq<byte>, sx: nat, sy: nat, k: nat, c: nat)
    requires 0 < k <= 8 * |sprite|
    ensures Covered(sprite, sx, sy, k, c) <==>
      Covered(sprite, sx, sy, k - 1, c) || (PixelCell(sx, sy, k - 1) == c && PixelSet(sprite, k - 1))
  {
    if Covered(sprite, sx, sy, k, c) {
      var p: nat :| p < k && PixelCell(sx, sy, p) == c && PixelSet(sprite, p);
      if p < k - 1 {
        assert Covered(sprite, sx, sy, k - 1, c);
      }
    }
    if Covered(sprite, sx, sy, k - 1, c) {
      var p: nat :| p < k - 1 && PixelCell(sx, sy, p) == c && PixelSet(sprite, p);
      assert p < k;
    }
    if PixelCell(sx, sy, k - 1) == c && PixelSet(sprite, k - 1) {
      assert k - 1 < k;
    }
  }

  /** Closed form of the blit: a cell is toggled exactly when a set pixel of the
      sprite lands on it, and every other cell keeps its value. */
  lemma {:induction false} BlitCell(d: seq<byte>, sprite: seq<byte>, sx: nat, sy: nat, k: nat, c: nat)
    requires |d| == Cells && k <= 8 * |sprite| && Placed(sprite, sx, sy) && c < Cells
    ensures Blit(d, sprite, sx, sy, k)[c] == if Covered(sprite, sx, sy, k, c) then Xor8(d[c], 1) else d[c]
  {
    if k > 0 {
      var q := k - 1;
      BlitCell(d, sprite, sx, sy, q, c);
      CoveredStep(sprite, sx, sy, k, c);
      if PixelCell(sx, sy, q) == c {
        NotCoveredBefore(sprite, sx, sy, q);
      }
    }
  }

  /** What the blit does to the cell under pixel `p`: toggled when the pixel is
      set, unchanged when it is clear. */
  lemma BlitPixel(d: seq<byte>, sprite: seq<byte>, sx: nat, sy: nat, k: nat, p: nat)
    requires |d| == Cells && k <= 8 * |sprite| && Placed(sprite, sx, sy) && p < k
    ensures var c := PixelCell(sx, sy, p);
      Blit(d, sprite, sx, sy, k)[c] == if PixelSet(sprite, p) then Xor8(d[c], 1) else d[c]
  {
    var c := PixelCell(sx, sy, p);
    BlitCell(d, sprite, sx, sy, k, c);
    if Covered(sprite, sx, sy, k, c) {
      var p': nat :| p' < k && PixelCell(sx, sy, p') == c && PixelSet(sprite, p');
      if p' != p {
        PixelCellInjective(sx, sy, p, p');
      }
    }
  }

  /** The collision flag is set exactly when some set pixel of the sprite lands
      on a cell that was lit before the draw. */
  lemma {:induction false} CollidesIff(d: seq<byte>, sprite: seq<byte>, sx: nat, sy: nat, k: nat)
    requires |d| == Cells && k <= 8 * |sprite| && Placed(sprite, sx, sy)
    ensures Collides(d, sprite, sx, sy, k) <==>
      exists p: nat :: p < k && PixelSet(sprite, p) && d[PixelCell(sx, sy, p)] != 0
  {
    if k > 0 {
      var q := k - 1;
      CollidesIff(d, sprite, sx, sy, q);
      var c := PixelCell(sx, sy, q);
      NotCoveredBefore(sprite, sx, sy, q);
      BlitCell(d, sprite, sx, sy, q, c);
      assert Blit(d, sprite, sx, sy, q)[c] == d[c];
      if exists p: nat :: p < k && PixelSet(sprite, p) && d[PixelCell(sx, sy, p)] != 0 {
        var p: nat :| p < k && PixelSet(sprite, p) && d[PixelCell(sx, sy, p)] != 0;
        if p < q {
          assert Collides(d, sprite, sx, sy, q);
        }
      }
    }
  }

  /** Drawing the same sprite twice at the same place restores the display. */
  lemma BlitTwice(d: seq<byte>, sprite: seq<byte>, sx: nat, sy: nat)
    requires |d| == Cells && Placed(sprite, sx, sy)
    ensures var k := 8 * |sprite|;
      Blit(Blit(d, sprite, sx, sy, k), sprite, sx, sy, k) == d
  {
    var k := 8 * |sprite|;
    var once := Blit(d, sprite, sx, sy, k);
    var twice := Blit(once, sprite, sx, sy, k);
    forall c | 0 <= c < Cells
      ensures twice[c] == d[c]
    {
      BlitCell(d, sprite, sx, sy, k, c);
      BlitCell(once, sprite, sx, sy, k, c);
      XorOneTwice(d[c]);
    }
  }

  /** A display of 0/1 cells stays one: the blit toggles, it never adds. */
  lemma BlitKeepsBinary(d: seq<byte>, sprite: seq<byte>, sx: nat, sy: nat, k: nat)
    requires |d| == Cells && k <= 8 * |sprite| && Placed(sprite, sx, sy) && Binary(d)
    ensures Binary(Blit(d, sprite, sx, sy, k))
  {
    forall c | 0 <= c < Cells
      ensures Blit(d, sprite, sx, sy, k)[c] <= 1
    {
      BlitCell(d, sprite, sx, sy, k, c);
      XorOneOnPixel(d[c]);
    }
  }

  /** The display index of column `col`, row `row` of a sprite drawn from
      (`sx`, `sy`): ((sx + col) mod 64, (sy + row) mod 32), row-major. */
  function ScreenCell(sx: nat, sy: nat, row: nat, col: nat): (c: nat)
    ensures c < Cells
  {
    ((sy + row) % Height) * Width + (sx + col) % Width
  }

  /** Pixel `8 * row + col` of a sprite is column `col` of row `row`. */
  lemma PixelRowCol(sprite: seq<byte>, sx: nat, sy: nat, row: nat, col: nat)
    requires row < |sprite| && col < 8
    ensures PixelCell(sx, sy, 8 * row + col) == ScreenCell(sx, sy, row, col)
    ensures PixelSet(sprite, 8 * row + col) == BitAt(sprite[row], col)
  {
    assert (8 * row + col) / 8 == row;
    assert (8 * row + col) % 8 == col;
  }

  /** The whole blit by rows and columns: each set bit of row `row`, column `col`
      toggles `ScreenCell(sx, sy, row, col)`, a clear bit leaves it alone, and a
      cell changes only under some set bit. */
  lemma BlitRows(d: seq<byte>, sprite: seq<byte>, sx: nat, sy: nat)
    requires |d| == Cells && Placed(sprite, sx, sy)
    ensures var r := Blit(d, sprite, sx, sy, 8 * |sprite|);
      && (forall row, col :: 0 <= row < |sprite| && 0 <= col < 8 ==>
            r[ScreenCell(sx, sy, row, col)] ==
              if BitAt(sprite[row], col) then Xor8(d[ScreenCell(sx, sy, row, col)], 1)
              else d[ScreenCell(sx, sy, row, col)])
      && (forall c :: 0 <= c < Cells && r[c] != d[c] ==>
            exists row, col :: 0 <= row < |sprite| && 0 <= col < 8 && BitAt(sprite[row], col) &&
              c == ScreenCell(sx, sy, row, col))
  {
    var k := 8 * |sprite|;
    var r := Blit(d, sprite, sx, sy, k);
    forall row, col | 0 <= row < |sprite| && 0 <= col < 8
      ensures r[ScreenCell(sx, sy, row, col)] ==
              if BitAt(sprite[row], col) then Xor8(d[ScreenCell(sx, sy, row, col)], 1)
              else d[ScreenCell(sx, sy, row, col)]
    {
      PixelRowCol(sprite, sx, sy, row, col);
      BlitPixel(d, sprite, sx, sy, k, 8 * row + col);
    }
    forall c | 0 <= c < Cells && r[c] != d[c]
      ensures exists row, col :: 0 <= row < |sprite| && 0 <= col < 8 && BitAt(sprite[row], col) &&
                c == ScreenCell(sx, sy, row, col)
    {
      BlitCell(d, sprite, sx, sy, k, c);
      var p: nat :| p < k && PixelCell(sx, sy, p) == c && PixelSet(sprite, p);
      PixelRowCol(sprite, sx, sy, p / 8, p % 8);
      assert 8 * (p / 8) + p % 8 == p;
    }
  }

  /** The collision flag by rows and columns: some set bit of the sprite lands on
      a lit cell of the display as it was before the draw. */
  lemma CollidesRows(d: seq<byte>, sprite: seq<byte>, sx: nat, sy: nat)
    requires |d| == Cells && Placed(sprite, sx, sy)
    ensures Collides(d, sprite, sx, sy, 8 * |sprite|) <==>
      exists row, col :: 0 <= row < |sprite| && 0 <= col < 8 && BitAt(sprite[row], col) &&
        d[ScreenCell(sx, sy, row, col)] != 0
  {
    var k := 8 * |sprite|;
    CollidesIff(d, sprite, sx, sy, k);
    if exists row, col :: 0 <= row < |sprite| && 0 <= col < 8 && BitAt(sprite[row], col) &&
         d[ScreenCell(sx, sy, row, col)] != 0 {
      var row, col :| 0 <= row < |sprite| && 0 <= col < 8 && BitAt(sprite[row], col) &&
        d[ScreenCell(sx, sy, row, col)] != 0;
      PixelRowCol(sprite, sx, sy, row, col);
    }
    if Collides(d, sprite, sx, sy, k) {
      var p: nat :| p < k && PixelSet(sprite, p) && d[PixelCell(sx, sy, p)] != 0;
      PixelRowCol(sprite, sx, sy, p / 8, p % 8);
      assert 8 * (p / 8) + p % 8 == p;
    }
  }
}
