/**
 * The 64x32 monochrome pixel matrix the CPU draws into.
 *
 * The matrix is stored column-major, `pixelMatrix[col][row]`, while every
 * accessor takes its arguments in the order (row, col). `Frame` is the value
 * view of the matrix used by the machine semantics; `Screen` is the mutable
 * object the emulator owns.
 */
module Display {

  /** Width and height of the display, and width of one sprite row. */
  const W: int := 64
  const H: int := 32
  const SpriteWidth: int := 8

  /** A frame is indexed `[col][row]`, like the source's matrix. */
  type Frame = seq<seq<bool>>

  predicate IsFrame(f: Frame) {
    |f| == W && forall c :: 0 <= c < W ==> |f[c]| == H
  }

  function GetPixel(f: Frame, row: int, col: int): bool
    requires IsFrame(f) && 0 <= row < H && 0 <= col < W
  {
    f[col][row]
  }

  /** The frame with exactly the cell (row, col) replaced by `val`. */
  function SetPixel(f: Frame, row: int, col: int, val: bool): (g: Frame)
    requires IsFrame(f) && 0 <= row < H && 0 <= col < W
    ensures IsFrame(g)
    ensures GetPixel(g, row, col) == val
    ensures forall c, r :: 0 <= c < W && 0 <= r < H && (c != col || r != row) ==>
              GetPixel(g, r, c) == GetPixel(f, r, c)
  {
    f[col := f[col][row := val]]
  }

  /** The blank frame: every pixel off. */
  function Blank(): (f: Frame)
    ensures IsFrame(f)
    ensures forall c, r :: 0 <= c < W && 0 <= r < H ==> !GetPixel(f, r, c)
  {
    seq(W, _ => seq(H, _ => false))
  }

  /** Two frames are equal exactly when they agree on every pixel. */
  lemma {:induction false} FrameExt(f: Frame, g: Frame)
    requires IsFrame(f) && IsFrame(g)
    requires forall c, r :: 0 <= c < W && 0 <= r < H ==> GetPixel(f, r, c) == GetPixel(g, r, c)
    ensures f == g
  {
    forall c | 0 <= c < W
      ensures f[c] == g[c]
    {
      assert forall r :: 0 <= r < H ==> f[c][r] == GetPixel(f, r, c);
      assert forall r :: 0 <= r < H ==> g[c][r] == GetPixel(g, r, c);
    }
  }

  class Screen {
    /** `std::array<std::array<bool, 32>, 64>`: first index column, second row. */
    const pixelMatrix: array2<bool>

    predicate Valid() {
      pixelMatrix.Length0 == W && pixelMatrix.Length1 == H
    }

    /** The current contents of the matrix as a frame. */
    ghost function Pixels(): (f: Frame)
      reads pixelMatrix
      requires Valid()
      ensures IsFrame(f)
      ensures forall c, r :: 0 <= c < W && 0 <= r < H ==> GetPixel(f, r, c) == pixelMatrix[c, r]
    {
      seq(W, c reads pixelMatrix requires 0 <= c < W =>
        seq(H, r reads pixelMatrix requires 0 <= r < H => pixelMatrix[c, r]))
    }

    /** A new screen is cleared by its constructor. */
    constructor ()
      ensures Valid() && fresh(pixelMatrix)
      ensures Pixels() == Blank()
    {
      pixelMatrix := new bool[W, H];
      new;
      Cls();
    }

    /** Clears every pixel. The result does not depend on the previous
        contents, so clearing twice is the same as clearing once. */
    method Cls()
      requires Valid()
      modifies pixelMatrix
      ensures Pixels() == Blank()
    {
      var col := 0;
      while col < W
        invariant 0 <= col <= W
        invariant forall c, r :: 0 <= c < col && 0 <= r < H ==> !pixelMatrix[c, r]
      {
        var row := 0;
        while row < H
          invariant 0 <= row <= H
          invariant forall c, r :: 0 <= c < col && 0 <= r < H ==> !pixelMatrix[c, r]
          invariant forall r :: 0 <= r < row ==> !pixelMatrix[col, r]
        {
          pixelMatrix[col, row] := false;
          row := row + 1;
        }
        col := col + 1;
      }
      FrameExt(Pixels(), Blank());
    }

    /** Overwrites exactly the cell (row, col). */
    method UpdatePixelsMatrix(row: int, col: int, isActive: bool)
      requires Valid() && 0 <= row < H && 0 <= col < W
      modifies pixelMatrix
      ensures Pixels() == SetPixel(old(Pixels()), row, col, isActive)
    {
      pixelMatrix[col, row] := isActive;
      FrameExt(Pixels(), SetPixel(old(Pixels()), row, col, isActive));
    }

    /** A read of one cell; it changes nothing. */
    function GetMatrixPixel(row: int, col: int): (b: bool)
      reads pixelMatrix
      requires Valid() && 0 <= row < H && 0 <= col < W
      ensures b == GetPixel(Pixels(), row, col)
    {
      pixelMatrix[col, row]
    }
  }
}
