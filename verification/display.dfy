/**
 The bitmap display of the emulator: two bit planes select one of four
 palette colours per cell, and every cell is drawn as a square on a canvas
 whose size depends only on the configured scale factor.

 Drawing is modelled as data: rendering yields the list of filled
 rectangles, in drawing order, instead of touching a canvas.
 */
module Display {
  import opened IntArith

  /** A colour as the page's style sheet spells it, e.g. "#FFCC00". */
  type Color = string

  /** The four colours of the emulator options that `getColor` chooses from. */
  datatype Palette = Palette(back: Color, fill: Color, fill2: Color, blend: Color)

  /** The only failure of this component: a palette index outside 0..3. */
  datatype Error = InvalidColor(id: int)

  datatype Result<T> = Ok(value: T) | Err(error: Error)

  /** An optional value. */
  datatype Option<T> = None | Some(value: T)

  /** Standard (64x32) or high-resolution (128x64) display mode. */
  datatype Mode = LowRes | HiRes

  /** The canvas as `setRenderTarget` leaves it. */
  datatype Target = Target(scale: nat, width: nat, height: nat)

  /** A filled rectangle, the model of one `fillRect` call. */
  datatype Rect = Rect(x: int, y: int, w: int, h: int)

  datatype Fill = Fill(color: Color, rect: Rect)

  /** Grid position of a cell. */
  datatype Cell = Cell(col: nat, row: nat)

  // ---------------------------------------------------------------------------
  // Canvas and grid geometry
  // ---------------------------------------------------------------------------

  /** Sizing part of `setRenderTarget`: the canvas is always 128x64 scaled. */
  function SetRenderTarget(scale: nat): Target
  {
    Target(scale, scale * 128, scale * 64)
  }

  function Stride(mode: Mode): nat
  {
    if mode.HiRes? then 128 else 64
  }

  function Rows(mode: Mode): nat
  {
    if mode.HiRes? then 64 else 32
  }

  /** Number of cells drawn, `max` in `renderDisplay`. */
  function CellCount(mode: Mode): nat
  {
    if mode.HiRes? then 128 * 64 else 64 * 32
  }

  /** Side of one cell's square in canvas pixels. */
  function CellSize(mode: Mode, scale: nat): nat
  {
    if mode.HiRes? then scale else scale * 2
  }

  predicate InGrid(mode: Mode, c: Cell)
  {
    c.col < Stride(mode) && c.row < Rows(mode)
  }

  /** Row-major position of cell index `z`. */
  function CellOf(mode: Mode, z: nat): Cell
  {
    Cell(z % Stride(mode), z / Stride(mode))
  }

  /** Inverse of `CellOf`: the cell index of a grid position. */
  function IndexOf(mode: Mode, c: Cell): nat
  {
    c.row * Stride(mode) + c.col
  }

  /** The square drawn for cell `z`. */
  function CellRect(mode: Mode, scale: nat, z: nat): Rect
  {
    var c := CellOf(mode, z);
    var size := CellSize(mode, scale);
    Rect(c.col * size, c.row * size, size, size)
  }

  predicate Contains(r: Rect, px: int, py: int)
  {
    r.x <= px < r.x + r.w && r.y <= py < r.y + r.h
  }

  predicate WithinTarget(r: Rect, t: Target)
  {
    0 <= r.x && 0 <= r.y && r.x + r.w <= t.width && r.y + r.h <= t.height
  }

  /** The grid fills the canvas exactly in both modes: low resolution
      doubles the cell size so that 64 columns span the same 128*scale
      pixels as 128 high-resolution columns. */
  lemma GridFillsTarget(mode: Mode, scale: nat)
    ensures var t := SetRenderTarget(scale);
      && Stride(mode) * CellSize(mode, scale) == t.width
      && Rows(mode) * CellSize(mode, scale) == t.height
      && CellCount(mode) == Stride(mode) * Rows(mode)
  {
  }

  /** Every index below `max` lands inside the grid. */
  lemma CellOfInGrid(mode: Mode, z: nat)
    requires z < CellCount(mode)
    ensures InGrid(mode, CellOf(mode, z))
  {
  }

  /** Reading a cell index's position back gives the index again. */
  lemma IndexOfCellOf(mode: Mode, z: nat)
    ensures IndexOf(mode, CellOf(mode, z)) == z
  {
  }

  /** Every grid position has an index below `max`, whose position is that cell:
      with `IndexOfCellOf`, `CellOf` and `IndexOf` are inverse bijections
      between [0, max) and the grid. */
  lemma CellOfIndexOf(mode: Mode, c: Cell)
    requires InGrid(mode, c)
    ensures IndexOf(mode, c) < CellCount(mode)
    ensures CellOf(mode, IndexOf(mode, c)) == c
  {
    var s := Stride(mode);
    var z := c.row * s + c.col;
    DivModUnique(z, s, c.row, c.col);
    MulMono(c.row, Rows(mode) - 1, s);
  }

  /** Distinct cell indices are drawn at distinct grid positions. */
  lemma CellOfInjective(mode: Mode, z1: nat, z2: nat)
    requires CellOf(mode, z1) == CellOf(mode, z2)
    ensures z1 == z2
  {
    IndexOfCellOf(mode, z1);
    IndexOfCellOf(mode, z2);
  }

  /** Every grid position is drawn by some cell index below `max`. */
  lemma CellOfOnto(mode: Mode, c: Cell)
    requires InGrid(mode, c)
    ensures exists z: nat :: z < CellCount(mode) && CellOf(mode, z) == c
  {
    CellOfIndexOf(mode, c);
    var z := IndexOf(mode, c);
    assert z < CellCount(mode) && CellOf(mode, z) == c;
  }

  /** A pixel lies in the square of cell `z` exactly when dividing its
      coordinates by the cell size gives the cell's column and row. */
  lemma ContainsIff(mode: Mode, scale: nat, z: nat, px: int, py: int)
    requires scale > 0
    requires 0 <= px && 0 <= py
    ensures Contains(CellRect(mode, scale, z), px, py)
      <==> px / CellSize(mode, scale) == CellOf(mode, z).col && py / CellSize(mode, scale) == CellOf(mode, z).row
  {
    var size := CellSize(mode, scale);
    var c := CellOf(mode, z);
    if Contains(CellRect(mode, scale, z), px, py) {
      DivModUnique(px, size, c.col, px - c.col * size);
      DivModUnique(py, size, c.row, py - c.row * size);
    }
    if px / size == c.col && py / size == c.row {
      assert px == c.col * size + px % size;
      assert py == c.row * size + py % size;
    }
  }

  /** The squares of two different cells share no pixel. */
  lemma RectsDisjoint(mode: Mode, scale: nat, z1: nat, z2: nat, px: int, py: int)
    requires scale > 0
    requires z1 != z2
    ensures !(Contains(CellRect(mode, scale, z1), px, py) && Contains(CellRect(mode, scale, z2), px, py))
  {
    if Contains(CellRect(mode, scale, z1), px, py) && Contains(CellRect(mode, scale, z2), px, py) {
      assert 0 <= px && 0 <= py;
      ContainsIff(mode, scale, z1, px, py);
      ContainsIff(mode, scale, z2, px, py);
      CellOfInjective(mode, z1, z2);
      assert false;
    }
  }

  /** Every canvas pixel lies in the square of some cell below `max`. */
  lemma RectsCoverTarget(mode: Mode, scale: nat, px: nat, py: nat)
    requires scale > 0
    requires px < SetRenderTarget(scale).width && py < SetRenderTarget(scale).height
    ensures exists z: nat :: z < CellCount(mode) && Contains(CellRect(mode, scale, z), px, py)
  {
    var size := CellSize(mode, scale);
    DivNonNegative(px, size);
    DivNonNegative(py, size);
    var c := Cell(px / size, py / size);
    assert InGrid(mode, c) by {
      GridFillsTarget(mode, scale);
      DivBelow(px, size, Stride(mode));
      DivBelow(py, size, Rows(mode));
    }
    CellOfIndexOf(mode, c);
    var z := IndexOf(mode, c);
    assert Contains(CellRect(mode, scale, z), px, py) by {
      ContainsIff(mode, scale, z, px, py);
    }
  }

  /** Every cell's square lies inside the canvas sized by `setRenderTarget`. */
  lemma RectWithinTarget(mode: Mode, scale: nat, z: nat)
    requires z < CellCount(mode)
    ensures WithinTarget(CellRect(mode, scale, z), SetRenderTarget(scale))
  {
    var c := CellOf(mode, z);
    var size := CellSize(mode, scale);
    CellOfInGrid(mode, z);
    GridFillsTarget(mode, scale);
    assert (c.col + 1) * size <= Stride(mode) * size by { MulMono(c.col + 1, Stride(mode), size); }
    assert (c.row + 1) * size <= Rows(mode) * size by { MulMono(c.row + 1, Rows(mode), size); }
  }

  // ---------------------------------------------------------------------------
  // Colours
  // ---------------------------------------------------------------------------

  /** The palette index of a cell: plane 0 is the low bit, plane 1 the high bit. */
  function ColorIndex(bit0: int, bit1: int): int
  {
    bit0 + bit1 * 2
  }

  predicate IsBit(b: int)
  {
    b == 0 || b == 1
  }

  /** Two plane bits give an index in 0..3, and the bits can be read back from it. */
  lemma ColorIndexOfBits(bit0: int, bit1: int)
    requires IsBit(bit0) && IsBit(bit1)
    ensures 0 <= ColorIndex(bit0, bit1) <= 3
    ensures ColorIndex(bit0, bit1) % 2 == bit0 && ColorIndex(bit0, bit1) / 2 == bit1
  {
  }

  /** `getColor`: total on 0..3, a failure for every other index. */
  function GetColor(pal: Palette, id: int): (r: Result<Color>)
    ensures r.Ok? <==> 0 <= id <= 3
    ensures id == 0 ==> r == Ok(pal.back)
    ensures id == 1 ==> r == Ok(pal.fill)
    ensures id == 2 ==> r == Ok(pal.fill2)
    ensures id == 3 ==> r == Ok(pal.blend)
    ensures r.Err? ==> r.error == InvalidColor(id)
  {
    if id == 0 then Ok(pal.back)
    else if id == 1 then Ok(pal.fill)
    else if id == 2 then Ok(pal.fill2)
    else if id == 3 then Ok(pal.blend)
    else Err(InvalidColor(id))
  }

  /** All cells of the planes have a valid palette index. */
  predicate AllValid(mode: Mode, p0: seq<int>, p1: seq<int>)
    requires |p0| >= CellCount(mode) && |p1| >= CellCount(mode)
  {
    forall z :: 0 <= z < CellCount(mode) ==> 0 <= ColorIndex(p0[z], p1[z]) <= 3
  }

  /** Planes holding only bits always pass the palette guard. */
  lemma BitPlanesAllValid(mode: Mode, p0: seq<int>, p1: seq<int>)
    requires |p0| >= CellCount(mode) && |p1| >= CellCount(mode)
    requires forall z :: 0 <= z < CellCount(mode) ==> IsBit(p0[z]) && IsBit(p1[z])
    ensures AllValid(mode, p0, p1)
  {
    forall z | 0 <= z < CellCount(mode)
      ensures 0 <= ColorIndex(p0[z], p1[z]) <= 3
    {
      ColorIndexOfBits(p0[z], p1[z]);
    }
  }

  /** `z` is the first cell whose palette index is out of range. */
  predicate FirstInvalid(mode: Mode, p0: seq<int>, p1: seq<int>, z: int)
    requires |p0| >= CellCount(mode) && |p1| >= CellCount(mode)
  {
    && 0 <= z < CellCount(mode)
    && !(0 <= ColorIndex(p0[z], p1[z]) <= 3)
    && forall k :: 0 <= k < z ==> 0 <= ColorIndex(p0[k], p1[k]) <= 3
  }

  /** The fill `renderDisplay` issues for cell `z`, when its index is valid. */
  function CellFill(mode: Mode, t: Target, pal: Palette, p0: seq<int>, p1: seq<int>, z: nat): Fill
    requires z < |p0| && z < |p1|
    requires 0 <= ColorIndex(p0[z], p1[z]) <= 3
  {
    Fill(GetColor(pal, ColorIndex(p0[z], p1[z])).value, CellRect(mode, t.scale, z))
  }

  /** `renderDisplay`: clear the canvas to `back`, the background colour of
      the emulator passed in, then fill every cell in row-major order with
      the colour `getColor` picks from `pal`, the palette of the global
      emulator it reads. The two coincide when the argument is the global
      emulator, but the model keeps them apart. `failure` is the error the render
      stopped on, if any: an invalid index makes `getColor` throw;
      the fills issued before it stay on the canvas, so they are returned
      together with the error. */
  method RenderDisplay(mode: Mode, t: Target, back: Color, pal: Palette, p0: seq<int>, p1: seq<int>)
    returns (fills: seq<Fill>, failure: Option<Error>)
    requires |p0| >= CellCount(mode) && |p1| >= CellCount(mode)
    ensures failure.None? <==> AllValid(mode, p0, p1)
    ensures 1 <= |fills| <= CellCount(mode) + 1
    ensures fills[0] == Fill(back, Rect(0, 0, t.width, t.height))
    ensures forall z :: 0 <= z < |fills| - 1 ==>
      0 <= ColorIndex(p0[z], p1[z]) <= 3 && fills[z + 1] == CellFill(mode, t, pal, p0, p1, z)
    ensures failure.None? ==> |fills| == CellCount(mode) + 1
    ensures failure.Some? ==>
      && FirstInvalid(mode, p0, p1, |fills| - 1)
      && failure.value == InvalidColor(ColorIndex(p0[|fills| - 1], p1[|fills| - 1]))
  {
    fills := [Fill(back, Rect(0, 0, t.width, t.height))];
    var max := CellCount(mode);
    var z := 0;
    while z < max
      invariant 0 <= z <= max
      invariant |fills| == z + 1
      invariant fills[0] == Fill(back, Rect(0, 0, t.width, t.height))
      invariant forall k :: 0 <= k < z ==> 0 <= ColorIndex(p0[k], p1[k]) <= 3
      invariant forall k :: 0 <= k < z ==> fills[k + 1] == CellFill(mode, t, pal, p0, p1, k)
    {
      var color := GetColor(pal, ColorIndex(p0[z], p1[z]));
      if color.Err? {
        return fills, Some(color.error);
      }
      fills := fills + [Fill(color.value, CellRect(mode, t.scale, z))];
      z := z + 1;
    }
    failure := None;
  }
}
