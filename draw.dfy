/**
 * What DXYN does, in closed form.
 *
 * `Chip8.Draw` follows the source's nested loops step by step. Here the
 * result is characterised pixel by pixel: the sprite row that lands on
 * display row `r` is `(r - Vy) mod 32` and the sprite column that lands on
 * display column `c` is `(c - Vx) mod 64`; a pixel is flipped exactly when
 * that row is one of the N rows drawn and that column's bit is set. VF ends
 * at 1 exactly when a flipped pixel was on before.
 *
 * The loops re-read Vx and Vy after writing VF, so with X or Y equal to F
 * a collision moves the rest of the sprite. The closed form therefore
 * holds when X and Y differ from F, or when the sprite hits no lit pixel;
 * the collision flag is characterised for every X and Y, and
 * DrawTwiceAliased exhibits a sprite that two draws with X = F do not
 * erase.
 */
module Drawing {

  import opened Wrappers
  import opened Display
  import opened Chip8

  // ------------------------------------------------------------------
  // Wrap-around coordinates

  /** Display column `c` is sprite column `k` of a sprite at `vx` exactly
      when `c` is `(vx + k) mod 64`. */
  lemma {:induction false} ColumnInverse(vx: int, k: int, c: int)
    requires 0 <= k < W && 0 <= c < W
    ensures (c - vx) % W == k <==> c == (vx + k) % W
  {
    var q := (vx + k) / W;
    assert vx + k == q * W + (vx + k) % W;
    if (c - vx) % W == k {
      var p := (c - vx) / W;
      assert c - vx == p * W + k;
      assert c == (q + p) * W + (vx + k) % W;
    }
    if c == (vx + k) % W {
      assert c - vx == k - q * W;
    }
  }

  lemma {:induction false} RowInverse(vy: int, k: int, r: int)
    requires 0 <= k < H && 0 <= r < H
    ensures (r - vy) % H == k <==> r == (vy + k) % H
  {
    var q := (vy + k) / H;
    assert vy + k == q * H + (vy + k) % H;
    if (r - vy) % H == k {
      var p := (r - vy) / H;
      assert r - vy == p * H + k;
      assert r == (q + p) * H + (vy + k) % H;
    }
    if r == (vy + k) % H {
      assert r - vy == k - q * H;
    }
  }

  // ------------------------------------------------------------------
  // Sets of pixels

  // A mask is a frame read as the set of its pixels that are on.

  /** `f` with every pixel of `mask` flipped. */
  function Xor(f: Frame, mask: Frame): (g: Frame)
    requires IsFrame(f) && IsFrame(mask)
    ensures IsFrame(g)
  {
    seq(W, c requires 0 <= c < W => seq(H, r requires 0 <= r < H => f[c][r] != mask[c][r]))
  }

  /** `u` is the disjoint union of `a` and `b`. */
  predicate Partition(u: Frame, a: Frame, b: Frame)
    requires IsFrame(u) && IsFrame(a) && IsFrame(b)
  {
    forall c, r :: 0 <= c < W && 0 <= r < H ==> u[c][r] == (a[c][r] || b[c][r]) && !(a[c][r] && b[c][r])
  }

  /** Some pixel of `mask` is on in `f`. */
  predicate Overlaps(f: Frame, mask: Frame)
    requires IsFrame(f) && IsFrame(mask)
  {
    exists c, r :: 0 <= c < W && 0 <= r < H && mask[c][r] && f[c][r]
  }

  /** Some pixel of `mask` is on. */
  predicate NonEmpty(mask: Frame)
    requires IsFrame(mask)
  {
    exists c, r :: 0 <= c < W && 0 <= r < H && mask[c][r]
  }

  /** The mask holding pixel (row, col) if `on`, and nothing else. */
  function Single(row: int, col: int, on: bool): (s: Frame)
    ensures IsFrame(s)
  {
    seq(W, c => seq(H, r => on && c == col && r == row))
  }

  /** Flipping `a` and then `b` flips their union `u`, and `u` overlaps
      `f` exactly when `a` does or `b` overlaps the frame after `a`. */
  lemma XorPartition(f: Frame, g: Frame, h: Frame, u: Frame, a: Frame, b: Frame)
    requires IsFrame(f) && IsFrame(u) && IsFrame(a) && IsFrame(b) && Partition(u, a, b)
    requires g == Xor(f, a) && h == Xor(g, b)
    ensures h == Xor(f, u)
    ensures Overlaps(f, u) == (Overlaps(f, a) || Overlaps(g, b))
  {
    FrameExt(h, Xor(f, u));
    if Overlaps(f, u) {
      var c, r :| 0 <= c < W && 0 <= r < H && u[c][r] && f[c][r];
      if !a[c][r] { assert b[c][r] && g[c][r]; }
    }
    if Overlaps(f, a) {
      var c, r :| 0 <= c < W && 0 <= r < H && a[c][r] && f[c][r];
      assert u[c][r];
    }
    if Overlaps(g, b) {
      var c, r :| 0 <= c < W && 0 <= r < H && b[c][r] && g[c][r];
      assert u[c][r] && f[c][r];
    }
  }

  /** `after` is `before` with the pixels of `mask` flipped, and with VF
      raised if one of them was on; no other register differs. */
  predicate Drawn(before: Canvas, after: Canvas, mask: Frame)
    requires CanvasOk(before) && IsFrame(mask)
  {
    && after.frame == Xor(before.frame, mask)
    && after.v == (if Overlaps(before.frame, mask) then before.v[VF := 1] else before.v)
  }

  /** Drawing changes no register but VF. */
  lemma DrawnKeeps(before: Canvas, after: Canvas, mask: Frame, k: int)
    requires CanvasOk(before) && IsFrame(mask) && Drawn(before, after, mask) && 0 <= k < RegisterCount && k != VF
    ensures |after.v| == RegisterCount && after.v[k] == before.v[k]
  {
  }

  /** Drawing `a` and then `b` is drawing their disjoint union. */
  lemma DrawnCompose(c0: Canvas, c1: Canvas, c2: Canvas, u: Frame, a: Frame, b: Frame)
    requires CanvasOk(c0) && CanvasOk(c1) && IsFrame(u) && IsFrame(a) && IsFrame(b) && Partition(u, a, b)
    requires Drawn(c0, c1, a) && Drawn(c1, c2, b)
    ensures Drawn(c0, c2, u)
  {
    XorPartition(c0.frame, c1.frame, c2.frame, u, a, b);
    var raised := c0.v[VF := 1];
    if Overlaps(c0.frame, a) && Overlaps(c1.frame, b) {
      assert raised[VF := 1] == raised;
    }
  }

  /** Drawing nothing changes nothing. */
  lemma DrawnBlank(c: Canvas)
    requires CanvasOk(c)
    ensures Drawn(c, c, Blank())
  {
    XorBlank(c.frame);
    NoOverlapBlank(c.frame);
  }

  /** Flipping the same pixels twice restores the frame. */
  lemma XorTwice(f: Frame, a: Frame)
    requires IsFrame(f) && IsFrame(a)
    ensures Xor(Xor(f, a), a) == f
  {
    FrameExt(Xor(Xor(f, a), a), f);
  }

  lemma XorBlank(f: Frame)
    requires IsFrame(f)
    ensures Xor(f, Blank()) == f
  {
    FrameExt(Xor(f, Blank()), f);
  }

  lemma XorAt(f: Frame, mask: Frame, r: int, c: int)
    requires IsFrame(f) && IsFrame(mask) && 0 <= r < H && 0 <= c < W
    ensures GetPixel(Xor(f, mask), r, c) == (GetPixel(f, r, c) != mask[c][r])
  {
  }

  lemma BlankXor(a: Frame)
    requires IsFrame(a)
    ensures Xor(Blank(), a) == a
  {
    FrameExt(Xor(Blank(), a), a);
  }

  /** A mask overlaps itself exactly when it has a pixel. */
  lemma OverlapsSelf(a: Frame)
    requires IsFrame(a)
    ensures Overlaps(a, a) <==> NonEmpty(a)
  {
  }

  lemma NoOverlapBlank(f: Frame)
    requires IsFrame(f)
    ensures !Overlaps(f, Blank()) && !Overlaps(Blank(), f)
  {
  }

  /** Writing the complement of one pixel flips exactly that pixel. */
  lemma SetPixelIsXor(f: Frame, row: int, col: int)
    requires IsFrame(f) && 0 <= row < H && 0 <= col < W
    ensures SetPixel(f, row, col, !GetPixel(f, row, col)) == Xor(f, Single(row, col, true))
    ensures Overlaps(f, Single(row, col, true)) == GetPixel(f, row, col)
    ensures Single(row, col, false) == Blank()
  {
    FrameExt(SetPixel(f, row, col, !GetPixel(f, row, col)), Xor(f, Single(row, col, true)));
    FrameExt(Single(row, col, false), Blank());
    if GetPixel(f, row, col) {
      assert Single(row, col, true)[col][row] && f[col][row];
    }
  }

  // ------------------------------------------------------------------
  // One sprite row

  /** Display column `c` is under a set pixel among sprite columns
      `col0..7` of the row `pixels` drawn at `vx`. */
  predicate RowHit(pixels: seq<bool>, vx: int, col0: int, c: int)
    requires |pixels| == SpriteWidth
  {
    var k := (c - vx) % W;
    col0 <= k < SpriteWidth && pixels[k]
  }

  /** The pixels that columns `col0..7` of a sprite row flip on display
      row `yS`. */
  function RowMask(pixels: seq<bool>, vx: int, yS: int, col0: int): (mask: Frame)
    requires |pixels| == SpriteWidth
    ensures IsFrame(mask)
  {
    seq(W, c => seq(H, r => r == yS && RowHit(pixels, vx, col0, c)))
  }

  /** Column `col0` comes first; the remaining columns land elsewhere. */
  lemma RowMaskStep(pixels: seq<bool>, vx: int, yS: int, col0: int)
    requires |pixels| == SpriteWidth && 0 <= yS < H && 0 <= col0 < SpriteWidth
    ensures Partition(RowMask(pixels, vx, yS, col0), Single(yS, (vx + col0) % W, pixels[col0]),
                      RowMask(pixels, vx, yS, col0 + 1))
  {
    forall c | 0 <= c < W
      ensures RowHit(pixels, vx, col0, c) <==> (c == (vx + col0) % W && pixels[col0]) || RowHit(pixels, vx, col0 + 1, c)
      ensures c == (vx + col0) % W ==> !RowHit(pixels, vx, col0 + 1, c)
    {
      ColumnInverse(vx, col0, c);
    }
  }

  lemma RowMaskEnd(pixels: seq<bool>, vx: int, yS: int)
    requires |pixels| == SpriteWidth
    ensures RowMask(pixels, vx, yS, SpriteWidth) == Blank()
  {
    FrameExt(RowMask(pixels, vx, yS, SpriteWidth), Blank());
  }

  /** One column flips the pixel under a set sprite pixel, and raises VF
      when that pixel was on. */
  lemma PlotColumnSpec(cv: Canvas, x: int, yS: int, pixels: seq<bool>, col: int)
    requires CanvasOk(cv) && 0 <= x < 16 && 0 <= yS < H && |pixels| == SpriteWidth && 0 <= col < SpriteWidth
    ensures Drawn(cv, PlotColumn(cv, x, yS, pixels, col), Single(yS, (cv.v[x] + col) % W, pixels[col]))
  {
    var c0 := (cv.v[x] + col) % W;
    SetPixelIsXor(cv.frame, yS, c0);
    if !pixels[col] {
      DrawnBlank(cv);
    }
  }

  /** A row that hits no lit pixel from column `col0` on leaves the
      registers alone at that column and still hits none after it. */
  lemma QuietColumn(cv: Canvas, x: int, yS: int, pixels: seq<bool>, col0: int)
    requires CanvasOk(cv) && 0 <= x < 16 && 0 <= yS < H && |pixels| == SpriteWidth && 0 <= col0 < SpriteWidth
    requires !Overlaps(cv.frame, RowMask(pixels, cv.v[x], yS, col0))
    ensures var next := PlotColumn(cv, x, yS, pixels, col0);
      next.v == cv.v && !Overlaps(next.frame, RowMask(pixels, cv.v[x], yS, col0 + 1))
  {
    var vx := cv.v[x];
    var next := PlotColumn(cv, x, yS, pixels, col0);
    var one := Single(yS, (vx + col0) % W, pixels[col0]);
    PlotColumnSpec(cv, x, yS, pixels, col0);
    RowMaskStep(pixels, vx, yS, col0);
    XorPartition(cv.frame, next.frame, Xor(next.frame, RowMask(pixels, vx, yS, col0 + 1)),
                 RowMask(pixels, vx, yS, col0), one, RowMask(pixels, vx, yS, col0 + 1));
  }

  /** The column loop flips exactly the pixels of the row's mask and raises
      VF exactly when one of them was on; no other register changes. With
      X = F this needs the row to hit no lit pixel, since a collision
      moves the rest of the row. */
  lemma {:induction false} DrawRowFromSpec(cv: Canvas, x: int, yS: int, pixels: seq<bool>, col0: int)
    requires CanvasOk(cv) && 0 <= x < 16 && 0 <= yS < H && |pixels| == SpriteWidth && 0 <= col0 <= SpriteWidth
    requires x != VF || !Overlaps(cv.frame, RowMask(pixels, cv.v[x], yS, col0))
    ensures Drawn(cv, DrawRowFrom(cv, x, yS, pixels, col0), RowMask(pixels, cv.v[x], yS, col0))
    decreases SpriteWidth - col0
  {
    var vx := cv.v[x];
    if col0 == SpriteWidth {
      RowMaskEnd(pixels, vx, yS);
      DrawnBlank(cv);
    } else {
      var next := PlotColumn(cv, x, yS, pixels, col0);
      var one := Single(yS, (vx + col0) % W, pixels[col0]);
      PlotColumnSpec(cv, x, yS, pixels, col0);
      RowMaskStep(pixels, vx, yS, col0);
      if x != VF {
        DrawnKeeps(cv, next, one, x);
      } else {
        QuietColumn(cv, x, yS, pixels, col0);
      }
      DrawRowFromSpec(next, x, yS, pixels, col0 + 1);
      assert DrawRowFrom(cv, x, yS, pixels, col0) == DrawRowFrom(next, x, yS, pixels, col0 + 1);
      DrawnCompose(cv, next, DrawRowFrom(next, x, yS, pixels, col0 + 1), RowMask(pixels, vx, yS, col0),
                   one, RowMask(pixels, vx, yS, col0 + 1));
    }
  }

  // ------------------------------------------------------------------
  // The whole sprite

  /** Display pixel (r, c) is under a set pixel of sprite rows `row0..n-1`
      read from `mem` at `addr`, drawn at (vx, vy). */
  predicate Hit(mem: seq<Byte>, addr: int, n: int, vx: int, vy: int, row0: int, r: int, c: int)
    requires 0 <= addr && addr + n <= |mem|
  {
    var k := (r - vy) % H;
    row0 <= k < n && RowHit(SpriteRow(mem, addr, k), vx, 0, c)
  }

  /** The bits of sprite byte `k`, most significant first. */
  function SpriteRow(mem: seq<Byte>, addr: int, k: int): (p: seq<bool>)
    requires 0 <= addr && 0 <= k && addr + k < |mem|
    ensures |p| == SpriteWidth
  {
    SpriteBits(mem[addr + k])
  }

  /** Some bit of the `n` sprite bytes at `addr` is set. */
  predicate SpriteSet(mem: seq<Byte>, addr: int, n: int)
    requires 0 <= addr && 0 <= n && addr + n <= |mem|
  {
    exists k, b :: 0 <= k < n && 0 <= b < SpriteWidth && SpriteRow(mem, addr, k)[b]
  }

  /** The pixels that sprite rows `row0..n-1` flip. */
  function SpriteMask(mem: seq<Byte>, addr: int, n: int, vx: int, vy: int, row0: int): (mask: Frame)
    requires 0 <= addr && addr + n <= |mem|
    ensures IsFrame(mask)
  {
    seq(W, c => seq(H, r => Hit(mem, addr, n, vx, vy, row0, r, c)))
  }

  /** Row `row0` comes first; the remaining rows land on other display
      rows, because fewer than 32 rows are drawn. */
  lemma SpriteMaskStep(mem: seq<Byte>, addr: int, n: int, vx: int, vy: int, row0: int)
    requires 0 <= row0 < n < 16 && 0 <= addr && addr + n <= |mem|
    ensures Partition(SpriteMask(mem, addr, n, vx, vy, row0),
                      RowMask(SpriteBits(mem[addr + row0]), vx, (vy + row0) % H, 0),
                      SpriteMask(mem, addr, n, vx, vy, row0 + 1))
  {
    var u := SpriteMask(mem, addr, n, vx, vy, row0);
    var a := RowMask(SpriteBits(mem[addr + row0]), vx, (vy + row0) % H, 0);
    var b := SpriteMask(mem, addr, n, vx, vy, row0 + 1);
    forall c, r | 0 <= c < W && 0 <= r < H
      ensures u[c][r] == (a[c][r] || b[c][r]) && !(a[c][r] && b[c][r])
    {
      RowInverse(vy, row0, r);
    }
  }

  /** Sprite pixel (row, col) lands on display pixel
      ((vy + row) mod 32, (vx + col) mod 64). */
  lemma SpriteMaskAt(mem: seq<Byte>, addr: int, n: int, vx: int, vy: int, row: int, col: int)
    requires 0 <= row < n < 16 && 0 <= col < SpriteWidth && 0 <= addr && addr + n <= |mem|
    ensures SpriteMask(mem, addr, n, vx, vy, 0)[(vx + col) % W][(vy + row) % H] == SpriteRow(mem, addr, row)[col]
  {
    RowInverse(vy, row, (vy + row) % H);
    ColumnInverse(vx, col, (vx + col) % W);
  }

  /** A display pixel whose sprite row is past N, or whose sprite column is
      past 7, is not in the mask. */
  lemma SpriteMaskOutside(mem: seq<Byte>, addr: int, n: int, vx: int, vy: int, r: int, c: int)
    requires 0 <= n < 16 && 0 <= addr && addr + n <= |mem| && 0 <= r < H && 0 <= c < W
    requires (r - vy) % H >= n || (c - vx) % W >= SpriteWidth
    ensures !SpriteMask(mem, addr, n, vx, vy, 0)[c][r]
  {
  }

  /** The mask has a pixel exactly when some sprite byte has a set bit. */
  lemma SpriteMaskNonEmpty(mem: seq<Byte>, addr: int, n: int, vx: int, vy: int)
    requires 0 <= n < 16 && 0 <= addr && addr + n <= |mem|
    ensures NonEmpty(SpriteMask(mem, addr, n, vx, vy, 0)) <==> SpriteSet(mem, addr, n)
  {
    var mask := SpriteMask(mem, addr, n, vx, vy, 0);
    if SpriteSet(mem, addr, n) {
      var k, b :| 0 <= k < n && 0 <= b < SpriteWidth && SpriteRow(mem, addr, k)[b];
      SpriteMaskAt(mem, addr, n, vx, vy, k, b);
      assert mask[(vx + b) % W][(vy + k) % H];
    }
    if NonEmpty(mask) {
      var c, r :| 0 <= c < W && 0 <= r < H && mask[c][r];
      assert Hit(mem, addr, n, vx, vy, 0, r, c);
      var k := (r - vy) % H;
      var b := (c - vx) % W;
      assert 0 <= k < n && 0 <= b < SpriteWidth && SpriteRow(mem, addr, k)[b];
    }
  }

  lemma SpriteMaskEnd(mem: seq<Byte>, addr: int, n: int, vx: int, vy: int)
    requires 0 <= addr && addr + n <= |mem|
    ensures SpriteMask(mem, addr, n, vx, vy, n) == Blank()
  {
    FrameExt(SpriteMask(mem, addr, n, vx, vy, n), Blank());
  }

  /** One row flips the pixels of its row mask; Vx and Vy stay as they
      were. With X or Y = F this needs the row to hit no lit pixel. */
  lemma PlotRowSpec(mem: seq<Byte>, addr: int, cv: Canvas, x: int, y: int, row: int)
    requires CanvasOk(cv) && 0 <= x < 16 && 0 <= y < 16
    requires 0 <= row && 0 <= addr && addr + row < |mem|
    requires (x != VF && y != VF)
          || !Overlaps(cv.frame, RowMask(SpriteBits(mem[addr + row]), cv.v[x], (cv.v[y] + row) % H, 0))
    ensures var r := PlotRow(mem, addr, cv, x, y, row);
      && Drawn(cv, r, RowMask(SpriteBits(mem[addr + row]), cv.v[x], (cv.v[y] + row) % H, 0))
      && r.v[x] == cv.v[x] && r.v[y] == cv.v[y]
  {
    var yS := (cv.v[y] + row) % H;
    var pixels := SpriteBits(mem[addr + row]);
    var r := DrawRowFrom(cv, x, yS, pixels, 0);
    assert PlotRow(mem, addr, cv, x, y, row) == r;
    DrawRowFromSpec(cv, x, yS, pixels, 0);
    if x != VF && y != VF {
      DrawnKeeps(cv, r, RowMask(pixels, cv.v[x], yS, 0), x);
      DrawnKeeps(cv, r, RowMask(pixels, cv.v[x], yS, 0), y);
    }
  }

  /** A row that hits no lit pixel leaves the registers alone, and the
      rows after it still hit none. */
  lemma QuietRow(mem: seq<Byte>, addr: int, cv: Canvas, x: int, y: int, n: int, row0: int)
    requires CanvasOk(cv) && 0 <= x < 16 && 0 <= y < 16
    requires 0 <= row0 < n < 16 && 0 <= addr && addr + n <= |mem|
    requires !Overlaps(cv.frame, SpriteMask(mem, addr, n, cv.v[x], cv.v[y], row0))
    ensures !Overlaps(cv.frame, RowMask(SpriteBits(mem[addr + row0]), cv.v[x], (cv.v[y] + row0) % H, 0))
    ensures var next := PlotRow(mem, addr, cv, x, y, row0);
      next.v == cv.v && !Overlaps(next.frame, SpriteMask(mem, addr, n, cv.v[x], cv.v[y], row0 + 1))
  {
    var a := RowMask(SpriteBits(mem[addr + row0]), cv.v[x], (cv.v[y] + row0) % H, 0);
    var b := SpriteMask(mem, addr, n, cv.v[x], cv.v[y], row0 + 1);
    SpriteMaskStep(mem, addr, n, cv.v[x], cv.v[y], row0);
    XorPartition(cv.frame, Xor(cv.frame, a), Xor(Xor(cv.frame, a), b), SpriteMask(mem, addr, n, cv.v[x], cv.v[y], row0), a, b);
    PlotRowSpec(mem, addr, cv, x, y, row0);
  }

  /** The row loop flips exactly the pixels of the sprite's mask and raises
      VF exactly when one of them was on; no other register changes. With
      X or Y = F this needs the sprite to hit no lit pixel. */
  lemma {:induction false} DrawRowsFromSpec(mem: seq<Byte>, addr: int, cv: Canvas, x: int, y: int, n: int, row0: int)
    requires CanvasOk(cv) && 0 <= x < 16 && 0 <= y < 16
    requires 0 <= row0 <= n < 16 && 0 <= addr && addr + n <= |mem|
    requires (x != VF && y != VF) || !Overlaps(cv.frame, SpriteMask(mem, addr, n, cv.v[x], cv.v[y], row0))
    ensures Drawn(cv, DrawRowsFrom(mem, addr, cv, x, y, n, row0),
                  SpriteMask(mem, addr, n, cv.v[x], cv.v[y], row0))
    decreases n - row0
  {
    if row0 == n {
      SpriteMaskEnd(mem, addr, n, cv.v[x], cv.v[y]);
      DrawnBlank(cv);
    } else {
      var next := PlotRow(mem, addr, cv, x, y, row0);
      if !(x != VF && y != VF) {
        QuietRow(mem, addr, cv, x, y, n, row0);
      }
      DrawRowsFromSpec(mem, addr, next, x, y, n, row0 + 1);
      DrawRowsStep(mem, addr, cv, x, y, n, row0);
    }
  }

  /** The inductive step of DrawRowsFromSpec: the first row, then the
      rest. */
  lemma DrawRowsStep(mem: seq<Byte>, addr: int, cv: Canvas, x: int, y: int, n: int, row0: int)
    requires CanvasOk(cv) && 0 <= x < 16 && 0 <= y < 16
    requires 0 <= row0 < n < 16 && 0 <= addr && addr + n <= |mem|
    requires (x != VF && y != VF) || !Overlaps(cv.frame, SpriteMask(mem, addr, n, cv.v[x], cv.v[y], row0))
    requires var next := PlotRow(mem, addr, cv, x, y, row0);
      Drawn(next, DrawRowsFrom(mem, addr, next, x, y, n, row0 + 1),
            SpriteMask(mem, addr, n, next.v[x], next.v[y], row0 + 1))
    ensures Drawn(cv, DrawRowsFrom(mem, addr, cv, x, y, n, row0),
                  SpriteMask(mem, addr, n, cv.v[x], cv.v[y], row0))
  {
    var vx := cv.v[x];
    var vy := cv.v[y];
    var next := PlotRow(mem, addr, cv, x, y, row0);
    if !(x != VF && y != VF) {
      QuietRow(mem, addr, cv, x, y, n, row0);
    }
    PlotRowSpec(mem, addr, cv, x, y, row0);
    assert DrawRowsFrom(mem, addr, cv, x, y, n, row0) == DrawRowsFrom(mem, addr, next, x, y, n, row0 + 1);
    SpriteMaskStep(mem, addr, n, vx, vy, row0);
    DrawnCompose(cv, next, DrawRowsFrom(mem, addr, next, x, y, n, row0 + 1), SpriteMask(mem, addr, n, vx, vy, row0),
                 RowMask(SpriteBits(mem[addr + row0]), vx, (vy + row0) % H, 0), SpriteMask(mem, addr, n, vx, vy, row0 + 1));
  }

  /** The column loop raises VF exactly when the row, where the loop first
      sees it, hits a lit pixel, for any X: until the first collision Vx
      stays put, and after it VF stays 1. */
  lemma {:induction false} RowFlag(cv: Canvas, x: int, yS: int, pixels: seq<bool>, col0: int)
    requires CanvasOk(cv) && 0 <= x < 16 && 0 <= yS < H && |pixels| == SpriteWidth && 0 <= col0 <= SpriteWidth
    ensures DrawRowFrom(cv, x, yS, pixels, col0).v[VF]
         == if Overlaps(cv.frame, RowMask(pixels, cv.v[x], yS, col0)) then 1 else cv.v[VF]
    decreases SpriteWidth - col0
  {
    var vx := cv.v[x];
    if col0 == SpriteWidth {
      RowMaskEnd(pixels, vx, yS);
      NoOverlapBlank(cv.frame);
    } else {
      var next := PlotColumn(cv, x, yS, pixels, col0);
      var one := Single(yS, (vx + col0) % W, pixels[col0]);
      PlotColumnSpec(cv, x, yS, pixels, col0);
      RowMaskStep(pixels, vx, yS, col0);
      XorPartition(cv.frame, next.frame, Xor(next.frame, RowMask(pixels, vx, yS, col0 + 1)),
                   RowMask(pixels, vx, yS, col0), one, RowMask(pixels, vx, yS, col0 + 1));
      RowFlag(next, x, yS, pixels, col0 + 1);
      assert DrawRowFrom(cv, x, yS, pixels, col0) == DrawRowFrom(next, x, yS, pixels, col0 + 1);
    }
  }

  /** The row loop ends with VF = 1 if VF is 1 already or the sprite,
      where the loop first sees it, hits a lit pixel, for any X and Y: until
      the first collision Vx and Vy stay put, and after it VF stays 1. */
  lemma {:induction false} RowsRaise(mem: seq<Byte>, addr: int, cv: Canvas, x: int, y: int, n: int, row0: int)
    requires CanvasOk(cv) && 0 <= x < 16 && 0 <= y < 16
    requires 0 <= row0 <= n < 16 && 0 <= addr && addr + n <= |mem|
    requires cv.v[VF] == 1 || Overlaps(cv.frame, SpriteMask(mem, addr, n, cv.v[x], cv.v[y], row0))
    ensures DrawRowsFrom(mem, addr, cv, x, y, n, row0).v[VF] == 1
    decreases n - row0
  {
    if row0 == n {
      PastLastRow(mem, addr, cv.frame, n, cv.v[x], cv.v[y]);
    } else {
      RaiseStep(mem, addr, cv, x, y, n, row0);
      RowsRaise(mem, addr, PlotRow(mem, addr, cv, x, y, row0), x, y, n, row0 + 1);
    }
  }

  /** Past the last row the sprite hits nothing. */
  lemma PastLastRow(mem: seq<Byte>, addr: int, f: Frame, n: int, vx: int, vy: int)
    requires IsFrame(f) && 0 <= addr && addr + n <= |mem|
    ensures !Overlaps(f, SpriteMask(mem, addr, n, vx, vy, n))
  {
    SpriteMaskEnd(mem, addr, n, vx, vy);
    NoOverlapBlank(f);
  }

  /** The step of RowsRaise: after the first row VF is 1, or the rest of
      the sprite hits a lit pixel where the loop then sees it. */
  lemma RaiseStep(mem: seq<Byte>, addr: int, cv: Canvas, x: int, y: int, n: int, row0: int)
    requires CanvasOk(cv) && 0 <= x < 16 && 0 <= y < 16
    requires 0 <= row0 < n < 16 && 0 <= addr && addr + n <= |mem|
    requires cv.v[VF] == 1 || Overlaps(cv.frame, SpriteMask(mem, addr, n, cv.v[x], cv.v[y], row0))
    ensures var next := PlotRow(mem, addr, cv, x, y, row0);
      next.v[VF] == 1 || Overlaps(next.frame, SpriteMask(mem, addr, n, next.v[x], next.v[y], row0 + 1))
  {
    var next := PlotRow(mem, addr, cv, x, y, row0);
    FirstRowFlag(mem, addr, cv, x, y, row0);
    SplitSprite(mem, addr, cv.frame, n, cv.v[x], cv.v[y], row0);
    RaiseCombine(cv, next, SpriteMask(mem, addr, n, cv.v[x], cv.v[y], row0),
                 RowMask(SpriteBits(mem[addr + row0]), cv.v[x], (cv.v[y] + row0) % H, 0),
                 SpriteMask(mem, addr, n, cv.v[x], cv.v[y], row0 + 1),
                 SpriteMask(mem, addr, n, next.v[x], next.v[y], row0 + 1));
  }

  /** The reasoning of RaiseStep on its own: `next` is `cv` after a row
      with mask `a`, and the sprite's mask `u` is `a` followed by `b`. */
  lemma RaiseCombine(cv: Canvas, next: Canvas, u: Frame, a: Frame, b: Frame, b': Frame)
    requires CanvasOk(cv) && CanvasOk(next) && IsFrame(u) && IsFrame(a) && IsFrame(b) && IsFrame(b')
    requires cv.v[VF] == 1 || Overlaps(cv.frame, u)
    requires Overlaps(cv.frame, u) <==> Overlaps(cv.frame, a) || Overlaps(Xor(cv.frame, a), b)
    requires Overlaps(cv.frame, a) ==> next.v[VF] == 1
    requires !Overlaps(cv.frame, a) ==> next.v == cv.v && next.frame == Xor(cv.frame, a) && b' == b
    ensures next.v[VF] == 1 || Overlaps(next.frame, b')
  {
  }

  /** The first row raises VF if it collides; otherwise it changes no
      register and flips its row mask. */
  lemma FirstRowFlag(mem: seq<Byte>, addr: int, cv: Canvas, x: int, y: int, row0: int)
    requires CanvasOk(cv) && 0 <= x < 16 && 0 <= y < 16
    requires 0 <= row0 && 0 <= addr && addr + row0 < |mem|
    ensures var next := PlotRow(mem, addr, cv, x, y, row0);
      var a := RowMask(SpriteBits(mem[addr + row0]), cv.v[x], (cv.v[y] + row0) % H, 0);
      && (Overlaps(cv.frame, a) ==> next.v[VF] == 1)
      && (!Overlaps(cv.frame, a) ==> next.v == cv.v && next.frame == Xor(cv.frame, a))
  {
    var yS := (cv.v[y] + row0) % H;
    RowFlag(cv, x, yS, SpriteBits(mem[addr + row0]), 0);
    if !Overlaps(cv.frame, RowMask(SpriteBits(mem[addr + row0]), cv.v[x], yS, 0)) {
      PlotRowSpec(mem, addr, cv, x, y, row0);
    }
  }

  /** The sprite from row `row0` on hits a lit pixel of `f` exactly when
      row `row0` does or the rest hits one after row `row0` is drawn. */
  lemma SplitSprite(mem: seq<Byte>, addr: int, f: Frame, n: int, vx: int, vy: int, row0: int)
    requires IsFrame(f) && 0 <= row0 < n < 16 && 0 <= addr && addr + n <= |mem|
    ensures var a := RowMask(SpriteBits(mem[addr + row0]), vx, (vy + row0) % H, 0);
      (Overlaps(f, SpriteMask(mem, addr, n, vx, vy, row0)) <==>
       Overlaps(f, a) || Overlaps(Xor(f, a), SpriteMask(mem, addr, n, vx, vy, row0 + 1)))
  {
    var a := RowMask(SpriteBits(mem[addr + row0]), vx, (vy + row0) % H, 0);
    var b := SpriteMask(mem, addr, n, vx, vy, row0 + 1);
    SpriteMaskStep(mem, addr, n, vx, vy, row0);
    XorPartition(f, Xor(f, a), Xor(Xor(f, a), b), SpriteMask(mem, addr, n, vx, vy, row0), a, b);
  }

  // ------------------------------------------------------------------
  // DXYN

  /** Vx and Vy as the loops of DXYN first read them, after VF := 0; for X
      and Y other than F these are the registers before the instruction. */
  function Anchor(m: Machine, k: int): (b: Byte)
    requires WellFormed(m) && 0 <= k < 16
    ensures k != VF ==> b == m.v[k]
  {
    m.v[VF := 0][k]
  }

  /** The pixels DXYN flips when no collision moves the sprite. */
  function DrawMask(m: Machine, n: int, y: int, x: int): (mask: Frame)
    requires WellFormed(m) && 0 <= n < 16 && 0 <= x < 16 && 0 <= y < 16
    requires m.i + n <= MemorySize
    ensures IsFrame(mask)
  {
    SpriteMask(m.mem, m.i, n, Anchor(m, x), Anchor(m, y), 0)
  }

  /** The sprite of DXYN, where the loops first see it, hits no lit
      pixel. */
  predicate Quiet(m: Machine, n: int, y: int, x: int)
    requires WellFormed(m) && 0 <= n < 16 && 0 <= x < 16 && 0 <= y < 16
  {
    n > 0 && m.i + n <= MemorySize ==> !Overlaps(m.frame, DrawMask(m, n, y, x))
  }

  /** DXYN in closed form: VF is reset, the pixels of the sprite's mask are
      flipped, and VF ends at 1 exactly when one of them was on; nothing
      else changes. */
  function DrawClosed(m: Machine, n: int, y: int, x: int): (r: Machine)
    requires WellFormed(m) && 0 <= n < 16 && 0 <= x < 16 && 0 <= y < 16
    requires m.i + n <= MemorySize
  {
    var mask := DrawMask(m, n, y, x);
    m.(frame := Xor(m.frame, mask), v := m.v[VF := if Overlaps(m.frame, mask) then 1 else 0])
  }

  /** The loops of DXYN compute the closed form when X, Y != F, or when
      the sprite hits no lit pixel; the only error is a sprite reaching
      past memory. */
  lemma DrawSpec(m: Machine, n: int, y: int, x: int)
    requires WellFormed(m) && 0 <= n < 16 && 0 <= x < 16 && 0 <= y < 16
    requires (x != VF && y != VF) || Quiet(m, n, y, x)
    ensures Draw(m, n, y, x).Err? <==> n > 0 && m.i + n > MemorySize
    ensures n == 0 ==> Draw(m, n, y, x) == Ok(m.(v := m.v[VF := 0]))
    ensures n > 0 && m.i + n <= MemorySize ==> Draw(m, n, y, x) == Ok(DrawClosed(m, n, y, x))
  {
    if n > 0 && m.i + n <= MemorySize {
      var cv := Canvas(m.frame, m.v[VF := 0]);
      DrawRowsFromSpec(m.mem, m.i, cv, x, y, n, 0);
      assert m.v[VF := 0][VF := 1] == m.v[VF := 1];
    }
  }

  /** For any X and Y, DXYN ends with VF = 1 exactly when the sprite, where
      the loops first see it, hits a lit pixel: until the first collision
      the sprite stays put, and after it VF stays 1. */
  lemma DrawCollision(m: Machine, n: int, y: int, x: int)
    requires WellFormed(m) && 0 <= n < 16 && 0 <= x < 16 && 0 <= y < 16
    requires Draw(m, n, y, x).Ok?
    ensures Draw(m, n, y, x).value.v[VF]
         == if n > 0 && m.i + n <= MemorySize && Overlaps(m.frame, DrawMask(m, n, y, x)) then 1 else 0
  {
    if n > 0 {
      var cv := Canvas(m.frame, m.v[VF := 0]);
      if Overlaps(m.frame, DrawMask(m, n, y, x)) {
        RowsRaise(m.mem, m.i, cv, x, y, n, 0);
      } else {
        DrawRowsFromSpec(m.mem, m.i, cv, x, y, n, 0);
      }
    }
  }

  /** Flipping the sprite's mask flips display pixel
      ((vy + row) mod 32, (vx + col) mod 64) exactly when sprite pixel
      (row, col) is set. */
  lemma XorSpriteAt(f: Frame, mem: seq<Byte>, addr: int, n: int, vx: int, vy: int, row: int, col: int)
    requires IsFrame(f) && 0 <= row < n < 16 && 0 <= col < SpriteWidth && 0 <= addr && addr + n <= |mem|
    ensures GetPixel(Xor(f, SpriteMask(mem, addr, n, vx, vy, 0)), (vy + row) % H, (vx + col) % W)
         == (GetPixel(f, (vy + row) % H, (vx + col) % W) != SpriteRow(mem, addr, row)[col])
  {
    SpriteMaskAt(mem, addr, n, vx, vy, row, col);
    XorAt(f, SpriteMask(mem, addr, n, vx, vy, 0), (vy + row) % H, (vx + col) % W);
  }

  /** A pixel outside the sprite's footprint keeps its value. */
  lemma ClosedOutside(m: Machine, n: int, y: int, x: int, rr: int, c: int)
    requires WellFormed(m) && 0 < n < 16 && 0 <= x < 16 && 0 <= y < 16 && m.i + n <= MemorySize
    requires 0 <= rr < H && 0 <= c < W
    requires ((rr - Anchor(m, y)) % H >= n || (c - Anchor(m, x)) % W >= SpriteWidth)
    ensures GetPixel(DrawClosed(m, n, y, x).frame, rr, c) == GetPixel(m.frame, rr, c)
  {
    SpriteMaskOutside(m.mem, m.i, n, Anchor(m, x), Anchor(m, y), rr, c);
    XorAt(m.frame, DrawMask(m, n, y, x), rr, c);
  }

  /** The closed form flips display pixel ((Vy + row) mod 32,
      (Vx + col) mod 64) exactly when sprite pixel (row, col) is set. */
  lemma ClosedPixel(m: Machine, n: int, y: int, x: int, row: int, col: int)
    requires WellFormed(m) && 0 < n < 16 && 0 <= x < 16 && 0 <= y < 16
    requires m.i + n <= MemorySize && 0 <= row < n && 0 <= col < SpriteWidth
    ensures var rr := (Anchor(m, y) + row) % H;
      var c := (Anchor(m, x) + col) % W;
      GetPixel(DrawClosed(m, n, y, x).frame, rr, c) == (GetPixel(m.frame, rr, c) != SpriteRow(m.mem, m.i, row)[col])
  {
    XorSpriteAt(m.frame, m.mem, m.i, n, Anchor(m, x), Anchor(m, y), row, col);
  }

  /** Where DXYN's sprite lands: sprite pixel (row, col) flips display
      pixel ((Vy + row) mod 32, (Vx + col) mod 64) if it is set, with Vx
      and Vy read after VF := 0. This needs X, Y != F or a sprite that hits
      no lit pixel. */
  lemma DrawPixel(m: Machine, n: int, y: int, x: int, row: int, col: int)
    requires WellFormed(m) && 0 < n < 16 && 0 <= x < 16 && 0 <= y < 16
    requires (x != VF && y != VF) || Quiet(m, n, y, x)
    requires m.i + n <= MemorySize && 0 <= row < n && 0 <= col < SpriteWidth
    ensures Draw(m, n, y, x).Ok?
    ensures var rr := (Anchor(m, y) + row) % H;
      var c := (Anchor(m, x) + col) % W;
      GetPixel(Draw(m, n, y, x).value.frame, rr, c) == (GetPixel(m.frame, rr, c) != SpriteRow(m.mem, m.i, row)[col])
  {
    DrawSpec(m, n, y, x);
    ClosedPixel(m, n, y, x, row, col);
  }

  /** DXYN leaves every pixel outside the sprite's footprint as it was.
      This needs X, Y != F or a sprite that hits no lit pixel. */
  lemma DrawOutside(m: Machine, n: int, y: int, x: int, rr: int, c: int)
    requires WellFormed(m) && 0 < n < 16 && 0 <= x < 16 && 0 <= y < 16
    requires (x != VF && y != VF) || Quiet(m, n, y, x)
    requires m.i + n <= MemorySize && 0 <= rr < H && 0 <= c < W
    requires ((rr - Anchor(m, y)) % H >= n || (c - Anchor(m, x)) % W >= SpriteWidth)
    ensures Draw(m, n, y, x).Ok?
    ensures GetPixel(Draw(m, n, y, x).value.frame, rr, c) == GetPixel(m.frame, rr, c)
  {
    DrawSpec(m, n, y, x);
    ClosedOutside(m, n, y, x, rr, c);
  }

  /** Drawing the same sprite twice at the same place restores the
      display, when X, Y != F; DrawTwiceAliased shows a case with X = F
      where it does not. */
  lemma DrawTwiceRestores(m: Machine, n: int, y: int, x: int)
    requires WellFormed(m) && 0 <= n < 16 && 0 <= x < 16 && 0 <= y < 16 && x != VF && y != VF
    requires Draw(m, n, y, x).Ok?
    ensures Draw(Draw(m, n, y, x).value, n, y, x).Ok?
    ensures Draw(Draw(m, n, y, x).value, n, y, x).value.frame == m.frame
  {
    var m1 := Draw(m, n, y, x).value;
    DrawSpec(m, n, y, x);
    DrawSpec(m1, n, y, x);
    if n > 0 {
      XorTwice(m.frame, DrawMask(m, n, y, x));
    }
  }

  /** With X = F a collision moves the rest of the row, so drawing twice
      need not restore the display. On a blank display, with every
      register 0 and the row byte 0xC0 at I = 0, the first DF01 lights
      columns 0 and 1 of row 0. The second collides at column 0, which
      sets VF and so moves its second pixel to column 2: columns 1 and 2
      stay lit. */
  lemma DrawTwiceAliased()
    ensures var m := Machine(Repeat<Byte>(0, RegisterCount), [0xC0] + Repeat<Byte>(0, MemorySize - 1),
                             Repeat<Word>(0, StackSize), 0, 0, StartAddr, 0, 0, Blank());
      && Draw(m, 1, 0, VF).Ok?
      && Draw(Draw(m, 1, 0, VF).value, 1, 0, VF).Ok?
      && Draw(Draw(m, 1, 0, VF).value, 1, 0, VF).value.frame != m.frame
  {
    var m := Machine(Repeat<Byte>(0, RegisterCount), [0xC0] + Repeat<Byte>(0, MemorySize - 1),
                     Repeat<Word>(0, StackSize), 0, 0, StartAddr, 0, 0, Blank());
    var mask := DrawMask(m, 1, 0, VF);
    var m1 := Draw(m, 1, 0, VF).value;
    assert Draw(m, 1, 0, VF).Ok? && m1.frame == mask && m1.v == m.v[VF := 0] by {
      NoOverlapBlank(mask);
      DrawSpec(m, 1, 0, VF);
      BlankXor(mask);
    }
    var bits := SpriteBits(m.mem[0]);
    assert bits[0] && bits[1] && !bits[2] && !bits[3] && !bits[4] && !bits[5] && !bits[6] && !bits[7] by {
      assert m.mem[0] == 0xC0;
    }
    assert mask[0][0] && mask[1][0] && !mask[2][0] by {
      assert Anchor(m, VF) == 0 && Anchor(m, 0) == 0;
      assert Hit(m.mem, 0, 1, 0, 0, 0, 0, 0) && Hit(m.mem, 0, 1, 0, 0, 0, 0, 1);
      assert !Hit(m.mem, 0, 1, 0, 0, 0, 0, 2);
    }
    // The second draw, column by column.
    var c0 := Canvas(mask, m1.v[VF := 0]);
    var c1 := PlotColumn(c0, VF, 0, bits, 0);
    var c2 := PlotColumn(c1, VF, 0, bits, 1);
    assert c1.v[VF] == 1 && !GetPixel(c1.frame, 0, 2) && GetPixel(c1.frame, 0, 1);
    assert GetPixel(c2.frame, 0, 1);
    assert DrawRowFrom(c2, VF, 0, bits, 2) == c2;
    assert DrawRowsFrom(m1.mem, m1.i, c0, VF, 0, 1, 0) == DrawRowFrom(c0, VF, 0, bits, 0);
    assert Draw(m1, 1, 0, VF).value.frame == c2.frame;
    assert !GetPixel(m.frame, 0, 1);
  }

  /** On a blank display nothing collides, for any X and Y. */
  lemma DrawOnBlank(m: Machine, n: int, y: int, x: int)
    requires WellFormed(m) && 0 <= n < 16 && 0 <= x < 16 && 0 <= y < 16
    requires m.frame == Blank() && Draw(m, n, y, x).Ok?
    ensures Draw(m, n, y, x).value.v[VF] == 0
  {
    DrawCollision(m, n, y, x);
    if n > 0 && m.i + n <= MemorySize {
      NoOverlapBlank(DrawMask(m, n, y, x));
    }
  }

  /** Drawing a sprite a second time on an otherwise blank display reports
      a collision exactly when the sprite has a set pixel, for any X and
      Y. */
  lemma RedrawCollides(m: Machine, n: int, y: int, x: int)
    requires WellFormed(m) && 0 <= n < 16 && 0 <= x < 16 && 0 <= y < 16
    requires m.frame == Blank() && (n == 0 || m.i + n <= MemorySize)
    ensures Draw(m, n, y, x).Ok?
    ensures var m2 := Draw(Draw(m, n, y, x).value, n, y, x);
      m2.Ok? && (m2.value.v[VF] == 1 <==> n > 0 && SpriteSet(m.mem, m.i, n))
  {
    DrawSpec(m, n, y, x);
    var m1 := Draw(m, n, y, x).value;
    DrawCollision(m1, n, y, x);
    if n > 0 {
      var mask := DrawMask(m, n, y, x);
      NoOverlapBlank(mask);
      BlankXor(mask);
      assert m1.v[VF := 0] == m.v[VF := 0];
      assert DrawMask(m1, n, y, x) == mask;
      OverlapsSelf(mask);
      SpriteMaskNonEmpty(m.mem, m.i, n, Anchor(m, x), Anchor(m, y));
    }
  }
}
