/** The index arithmetic of the image writers built on `ffpcluj`: a primary
    array is a binary table whose row `group` holds the image in its second
    column, so writing pixels means choosing a row and a 1-based first pixel
    in that column. `ffp3duj` and `ffp2duj` write a (possibly larger) C array
    row by row; `ffpssuj` writes a rectangular subsection of an image with up
    to seven axes. Each writer is modelled as the list of `ffpcluj` calls it
    makes. */
module FitsImage {
  import opened IntArith

  const BadDimen: int := 320

  /** `maxvalue(1, group)`: the table row of a group; groups below 1 write
      the first row. */
  function GroupRow(group: int): (row: int)
    ensures row >= 1 && row >= group
    ensures row == group || row == 1
  {
    if 1 > group then 1 else group
  }

  /** A call `ffpcluj(fptr, colnum, row, fpixel, count, &array[offset])`. */
  datatype PixelWrite = PixelWrite(colnum: int, row: int, fpixel: int, count: int, offset: int)

  /** `ffppruj` and `ffppnuj` on an uncompressed image: the pixels go to column
      2 of the group's row (with nulls, through `ffpcnuj` rather than
      `ffpcluj`; the row and first element are the same). */
  function PrimaryWrite(group: int, firstelem: int, nelem: int): (w: PixelWrite)
    ensures w.colnum == 2 && w.fpixel == firstelem && w.count == nelem && w.offset == 0
    ensures w.row == GroupRow(group)
  {
    PixelWrite(2, GroupRow(group), firstelem, nelem, 0)
  }

  /** The writes of an image writer, or the status it rejects its arguments
      with. */
  datatype ImagePlan = Writes(writes: seq<PixelWrite>) | Rejected(status: int)

  function Pos(x: int): nat {
    if x > 0 then x else 0
  }

  /** Write k of `ffp3duj` in the strided case: image row k % naxis2 of plane
      k / naxis2 goes to FITS pixel 1 + k*naxis1, from the array position of
      that row and plane in an array of nrows rows of ncols pixels. */
  function CubeWrite(row: int, ncols: int, nrows: int, naxis1: int, naxis2: int, k: int): PixelWrite
    requires naxis2 > 0
  {
    PixelWrite(2, row, 1 + k * naxis1, naxis1, (k / naxis2) * nrows * ncols + (k % naxis2) * ncols)
  }

  /** `ffp3duj` on an uncompressed image: one write when the array has the
      image's shape, BAD_DIMEN when the array is smaller than the image, and
      otherwise one write per image row. `ffp3duj` does not test the incoming
      status itself: the first `ffpcluj` call hands an error back untouched
      and writes nothing, so the error is returned, except that the size
      check overwrites it with BAD_DIMEN. */
  method CubePlan(status: int, group: int, ncols: int, nrows: int, naxis1: int, naxis2: int, naxis3: int)
    returns (p: ImagePlan)
    ensures ncols == naxis1 && nrows == naxis2 ==>
      p == if status > 0 then Rejected(status)
           else Writes([PixelWrite(2, GroupRow(group), 1, naxis1 * naxis2 * naxis3, 0)])
    ensures !(ncols == naxis1 && nrows == naxis2) && (ncols < naxis1 || nrows < naxis2) ==>
      p == Rejected(BadDimen)
    ensures !(ncols == naxis1 && nrows == naxis2) && ncols >= naxis1 && nrows >= naxis2 && status > 0 ==>
      p == Rejected(status)
    ensures !(ncols == naxis1 && nrows == naxis2) && ncols >= naxis1 && nrows >= naxis2 && status <= 0 ==>
      p.Writes? && |p.writes| == Pos(naxis3) * Pos(naxis2) &&
      forall k :: 0 <= k < |p.writes| && naxis2 > 0 ==>
        p.writes[k] == CubeWrite(GroupRow(group), ncols, nrows, naxis1, naxis2, k)
  {
    var tablerow := GroupRow(group);
    if ncols == naxis1 && nrows == naxis2 {
      if status > 0 {
        return Rejected(status);
      }
      return Writes([PixelWrite(2, tablerow, 1, naxis1 * naxis2 * naxis3, 0)]);
    }
    if ncols < naxis1 || nrows < naxis2 {
      return Rejected(BadDimen);
    }
    if status > 0 {
      return Rejected(status);
    }
    var writes := [];
    if naxis2 <= 0 {
      // The row loop never runs, so no plane contributes a write.
      return Writes(writes);
    }
    var nfits := 1;
    var narray := 0;
    var jj := 0;
    while jj < naxis3
      invariant 0 <= jj && (naxis3 > 0 ==> jj <= naxis3) && (naxis3 <= 0 ==> jj == 0)
      invariant |writes| == jj * naxis2
      invariant nfits == 1 + |writes| * naxis1
      invariant narray == jj * nrows * ncols
      invariant forall k :: 0 <= k < |writes| ==> writes[k] == CubeWrite(tablerow, ncols, nrows, naxis1, naxis2, k)
    {
      writes, nfits, narray := Plane(tablerow, ncols, nrows, naxis1, naxis2, jj, writes, nfits, narray);
      narray := narray + (nrows - naxis2) * ncols;
      PlaneEnd(jj, nrows, ncols, naxis2);
      MulSucc(jj, naxis2);
      jj := jj + 1;
    }
    return Writes(writes);
  }

  /** The row loop over one plane jj of `ffp3duj`. */
  method Plane(tablerow: int, ncols: int, nrows: int, naxis1: int, naxis2: int, jj: nat,
               writes0: seq<PixelWrite>, nfits0: int, narray0: int)
    returns (writes: seq<PixelWrite>, nfits: int, narray: int)
    requires naxis2 > 0
    requires |writes0| == jj * naxis2 && nfits0 == 1 + |writes0| * naxis1 && narray0 == jj * nrows * ncols
    requires forall k :: 0 <= k < |writes0| ==> writes0[k] == CubeWrite(tablerow, ncols, nrows, naxis1, naxis2, k)
    ensures |writes| == jj * naxis2 + naxis2 && nfits == 1 + |writes| * naxis1
    ensures narray == jj * nrows * ncols + naxis2 * ncols
    ensures forall k :: 0 <= k < |writes| ==> writes[k] == CubeWrite(tablerow, ncols, nrows, naxis1, naxis2, k)
  {
    writes, nfits, narray := writes0, nfits0, narray0;
    var ii := 0;
    while ii < naxis2
      invariant 0 <= ii <= naxis2
      invariant |writes| == jj * naxis2 + ii && nfits == 1 + |writes| * naxis1
      invariant narray == jj * nrows * ncols + ii * ncols
      invariant forall k :: 0 <= k < |writes| ==> writes[k] == CubeWrite(tablerow, ncols, nrows, naxis1, naxis2, k)
    {
      RowWrite(tablerow, ncols, nrows, naxis1, naxis2, jj, ii);
      writes := writes + [PixelWrite(2, tablerow, nfits, naxis1, narray)];
      MulSucc(|writes| - 1, naxis1);
      MulSucc(ii, ncols);
      nfits := nfits + naxis1;
      narray := narray + ncols;
      ii := ii + 1;
    }
  }

  /** The write for row ii of plane jj is write number jj*naxis2 + ii. */
  lemma RowWrite(tablerow: int, ncols: int, nrows: int, naxis1: int, naxis2: int, jj: nat, ii: nat)
    requires 0 <= ii < naxis2
    ensures CubeWrite(tablerow, ncols, nrows, naxis1, naxis2, jj * naxis2 + ii) ==
      PixelWrite(2, tablerow, 1 + (jj * naxis2 + ii) * naxis1, naxis1, jj * nrows * ncols + ii * ncols)
  {
    DivModOf(jj, naxis2, ii);
  }

  /** Skipping the array rows beyond the image reaches the next plane. */
  lemma PlaneEnd(jj: int, nrows: int, ncols: int, naxis2: int)
    ensures jj * nrows * ncols + naxis2 * ncols + (nrows - naxis2) * ncols == (jj + 1) * nrows * ncols
  {
    assert naxis2 * ncols + (nrows - naxis2) * ncols == nrows * ncols;
    assert (jj + 1) * nrows * ncols == jj * nrows * ncols + nrows * ncols;
  }

  /** `ffp2duj`: `ffp3duj` with one plane and as many array rows as image
      rows. A same-width array goes out in one write; a wider one row by
      row, each image row from its own array row. */
  method SquarePlan(status: int, group: int, ncols: int, naxis1: int, naxis2: int) returns (p: ImagePlan)
    ensures ncols == naxis1 ==>
      p == if status > 0 then Rejected(status) else Writes([PixelWrite(2, GroupRow(group), 1, naxis1 * naxis2, 0)])
    ensures ncols < naxis1 ==> p == Rejected(BadDimen)
    ensures ncols > naxis1 && status > 0 ==> p == Rejected(status)
    ensures ncols > naxis1 && status <= 0 ==>
      p.Writes? && |p.writes| == Pos(naxis2) &&
      forall k :: 0 <= k < |p.writes| ==>
        p.writes[k] == PixelWrite(2, GroupRow(group), 1 + k * naxis1, naxis1, k * ncols)
  {
    p := CubePlan(status, group, ncols, naxis2, naxis1, naxis2, 1);
    if ncols > naxis1 && status <= 0 && naxis2 > 0 {
      forall k | 0 <= k < |p.writes|
        ensures p.writes[k] == PixelWrite(2, GroupRow(group), 1 + k * naxis1, naxis1, k * ncols)
      {
        assert p.writes[k] == CubeWrite(GroupRow(group), ncols, naxis2, naxis1, naxis2, k);
        DivModOf(0, naxis2, k);
      }
    }
  }

  /** The geometry `ffpssuj` works with, over all seven axes: the first pixel
      to write, the number of pixels to write and the image length. */
  datatype Box = Box(fpix: seq<int>, irange: seq<int>, dimen: seq<int>)

  predicate Padded(b: Box) {
    |b.fpix| == 7 && |b.irange| == 7 && |b.dimen| == 7
  }

  /** The first naxis axes come from the arguments, the rest are padded with a
      first pixel, a range and a length of 1. */
  function PadAxes(naxis: int, naxes: seq<int>, fpixel: seq<int>, lpixel: seq<int>): (b: Box)
    requires 1 <= naxis <= 7 && |naxes| >= naxis && |fpixel| >= naxis && |lpixel| >= naxis
    ensures Padded(b)
    ensures forall d :: 0 <= d < naxis ==>
      b.fpix[d] == fpixel[d] && b.irange[d] == lpixel[d] - fpixel[d] + 1 && b.dimen[d] == naxes[d]
    ensures forall d :: naxis <= d < 7 ==> b.fpix[d] == 1 && b.irange[d] == 1 && b.dimen[d] == 1
  {
    Box(seq(7, d requires 0 <= d < 7 => if d < naxis then fpixel[d] else 1),
        seq(7, d requires 0 <= d < 7 => if d < naxis then lpixel[d] - fpixel[d] + 1 else 1),
        seq(7, d requires 0 <= d < 7 => if d < naxis then naxes[d] else 1))
  }

  /** Pixels between neighbours along axis d: the product of the lengths of
      the axes before it (`off2` ... `off7`, and 1 for the first axis). */
  function Stride(b: Box, d: nat): int
    requires Padded(b) && d < 7
  {
    if d == 0 then 1 else Stride(b, d - 1) * b.dimen[d - 1]
  }

  /** The loop over axis d (1..6) of `ffpssuj` from counter value i on, with
      the contributions of the outer axes summed in `base` and `astart` the
      next array position. */
  function Sweep(b: Box, row: int, d: nat, i: int, base: int, astart: int): seq<PixelWrite>
    requires Padded(b) && 1 <= d < 7
    decreases d, 1, b.irange[d] - i
  {
    if i >= b.irange[d] then []
    else
      var here := Pass(b, row, d, i, base, astart);
      here + Sweep(b, row, d, i + 1, base, astart + |here| * b.irange[0])
  }

  /** One pass of the loop over axis d with counter i. Axis 1 is the innermost
      loop: each pass writes one image row segment of irange[0] pixels, one
      stride further on; an outer axis adds its counter's offset and runs the
      next loop inwards. */
  function Pass(b: Box, row: int, d: nat, i: int, base: int, astart: int): seq<PixelWrite>
    requires Padded(b) && 1 <= d < 7
    decreases d, 0, 0
  {
    if d == 1 then [PixelWrite(2, row, base + i * Stride(b, 1), b.irange[0], astart)]
    else Sweep(b, row, d - 1, 0, base + (b.fpix[d] - 1 + i) * Stride(b, d), astart)
  }

  /** How many row segments the loops over axes 1..d write. */
  function Cells(b: Box, d: nat): nat
    requires Padded(b) && d < 7
  {
    if d == 0 then 1 else Pos(b.irange[d]) * Cells(b, d - 1)
  }

  /** `ffpssuj` on an uncompressed image. */
  function SubsectionPlan(status: int, group: int, naxis: int, naxes: seq<int>, fpixel: seq<int>, lpixel: seq<int>): (p: ImagePlan)
    requires 1 <= naxis <= 7 ==> |naxes| >= naxis && |fpixel| >= naxis && |lpixel| >= naxis
    ensures status > 0 ==> p == Rejected(status)
    ensures status <= 0 && !(1 <= naxis <= 7) ==> p == Rejected(BadDimen)
    ensures p.Writes? <==> status <= 0 && 1 <= naxis <= 7
  {
    if status > 0 then Rejected(status)
    else if naxis < 1 || naxis > 7 then Rejected(BadDimen)
    else
      var b := PadAxes(naxis, naxes, fpixel, lpixel);
      Writes(Sweep(b, GroupRow(group), 6, 0, b.fpix[0] + (b.fpix[1] - 1) * Stride(b, 1), 0))
  }

  /** The loops write one row segment per combination of counters, every
      segment of irange[0] pixels into the group's row, and they read the
      array contiguously from the start. */
  /** Writes into one table row, `count` pixels each, reading the array
      contiguously from position `astart`. */
  ghost predicate Contiguous(ws: seq<PixelWrite>, row: int, count: int, astart: int) {
    forall k :: 0 <= k < |ws| ==>
      ws[k].row == row && ws[k].count == count && ws[k].offset == astart + k * count
  }

  /** A contiguous run followed by one that starts where it ends is one
      contiguous run. */
  lemma JoinContiguous(here: seq<PixelWrite>, rest: seq<PixelWrite>, row: int, count: int, astart: int)
    requires Contiguous(here, row, count, astart)
    requires Contiguous(rest, row, count, astart + |here| * count)
    ensures Contiguous(here + rest, row, count, astart)
  {
    forall k | |here| <= k < |here| + |rest|
      ensures (here + rest)[k].offset == astart + k * count
    {
      assert (here + rest)[k] == rest[k - |here|];
      assert (k - |here|) * count + |here| * count == k * count;
    }
  }

  /** The loops over axes 1..d write Cells segments per pass of axis d. */
  lemma {:induction false} SweepLength(b: Box, row: int, d: nat, i: int, base: int, astart: int)
    requires Padded(b) && 1 <= d < 7
    ensures |Sweep(b, row, d, i, base, astart)| == Pos(b.irange[d] - i) * Cells(b, d - 1)
    decreases d, 1, b.irange[d] - i
  {
    if i < b.irange[d] {
      var here := Pass(b, row, d, i, base, astart);
      PassLength(b, row, d, i, base, astart);
      SweepLength(b, row, d, i + 1, base, astart + |here| * b.irange[0]);
      MulSucc(b.irange[d] - i - 1, Cells(b, d - 1));
    }
  }

  lemma {:induction false} PassLength(b: Box, row: int, d: nat, i: int, base: int, astart: int)
    requires Padded(b) && 1 <= d < 7
    ensures |Pass(b, row, d, i, base, astart)| == Cells(b, d - 1)
    decreases d, 0, 0
  {
    if d > 1 {
      SweepLength(b, row, d - 1, 0, base + (b.fpix[d] - 1 + i) * Stride(b, d), astart);
    }
  }

  /** The loops read the array contiguously: the k-th segment takes the k-th
      block of irange[0] values. */
  lemma {:induction false} SweepContiguous(b: Box, row: int, d: nat, i: int, base: int, astart: int)
    requires Padded(b) && 1 <= d < 7
    ensures Contiguous(Sweep(b, row, d, i, base, astart), row, b.irange[0], astart)
    decreases d, 1, b.irange[d] - i
  {
    if i < b.irange[d] {
      var here := Pass(b, row, d, i, base, astart);
      var a' := astart + |here| * b.irange[0];
      PassContiguous(b, row, d, i, base, astart);
      SweepContiguous(b, row, d, i + 1, base, a');
      JoinContiguous(here, Sweep(b, row, d, i + 1, base, a'), row, b.irange[0], astart);
    }
  }

  lemma {:induction false} PassContiguous(b: Box, row: int, d: nat, i: int, base: int, astart: int)
    requires Padded(b) && 1 <= d < 7
    ensures Contiguous(Pass(b, row, d, i, base, astart), row, b.irange[0], astart)
    decreases d, 0, 0
  {
    if d > 1 {
      SweepContiguous(b, row, d - 1, 0, base + (b.fpix[d] - 1 + i) * Stride(b, d), astart);
    }
  }

  /** Every row segment of a subsection write holds the pixels of one image
      row: the write list and the array agree on how many pixels each takes,
      and together they consume the array from its start. */
  lemma SubsectionShape(group: int, naxis: int, naxes: seq<int>, fpixel: seq<int>, lpixel: seq<int>)
    requires 1 <= naxis <= 7 && |naxes| >= naxis && |fpixel| >= naxis && |lpixel| >= naxis
    ensures SubsectionPlan(0, group, naxis, naxes, fpixel, lpixel).Writes?
    ensures var b := PadAxes(naxis, naxes, fpixel, lpixel);
      var ws := SubsectionPlan(0, group, naxis, naxes, fpixel, lpixel).writes;
      |ws| == Cells(b, 6) &&
      forall k :: 0 <= k < |ws| ==>
        ws[k].row == GroupRow(group) && ws[k].count == b.irange[0] && ws[k].offset == k * b.irange[0]
  {
    var b := PadAxes(naxis, naxes, fpixel, lpixel);
    SweepLength(b, GroupRow(group), 6, 0, b.fpix[0] + (b.fpix[1] - 1) * Stride(b, 1), 0);
    SweepContiguous(b, GroupRow(group), 6, 0, b.fpix[0] + (b.fpix[1] - 1) * Stride(b, 1), 0);
  }

  /** The zero-based offset in the image of pixel p (1-based coordinates)
      counted over its first d axes. */
  function Flat(b: Box, p: seq<int>, d: nat): int
    requires Padded(b) && |p| == 7 && d <= 7
  {
    if d == 0 then 0 else Flat(b, p, d - 1) + (p[d - 1] - 1) * Stride(b, d - 1)
  }

  /** The first segment a non-empty sweep writes starts at the subsection's
      corner along the axes it loops over. */
  lemma {:induction false} SweepFirst(b: Box, row: int, d: nat, base: int, astart: int)
    requires Padded(b) && 1 <= d < 7
    requires forall e :: 1 <= e <= d ==> b.irange[e] >= 1
    ensures |Sweep(b, row, d, 0, base, astart)| > 0
    ensures Sweep(b, row, d, 0, base, astart)[0] ==
      PixelWrite(2, row, base + Flat(b, b.fpix, d + 1) - Flat(b, b.fpix, 2), b.irange[0], astart)
  {
    if d > 1 {
      SweepFirst(b, row, d - 1, base + (b.fpix[d] - 1) * Stride(b, d), astart);
    }
  }

  /** When every axis has pixels to write, the first segment starts at the
      FITS pixel of the subsection's first corner, `fpixel`, and takes the
      array from its first value. */
  lemma SubsectionCorner(group: int, naxis: int, naxes: seq<int>, fpixel: seq<int>, lpixel: seq<int>)
    requires 1 <= naxis <= 7 && |naxes| >= naxis && |fpixel| >= naxis && |lpixel| >= naxis
    requires forall d :: 0 <= d < naxis ==> lpixel[d] >= fpixel[d]
    ensures var b := PadAxes(naxis, naxes, fpixel, lpixel);
      var p := SubsectionPlan(0, group, naxis, naxes, fpixel, lpixel);
      p.Writes? && |p.writes| > 0 &&
      p.writes[0] == PixelWrite(2, GroupRow(group), 1 + Flat(b, b.fpix, 7), b.irange[0], 0)
  {
    var b := PadAxes(naxis, naxes, fpixel, lpixel);
    SweepFirst(b, GroupRow(group), 6, b.fpix[0] + (b.fpix[1] - 1) * Stride(b, 1), 0);
    assert Stride(b, 0) == 1;
    assert Flat(b, b.fpix, 1) == b.fpix[0] - 1;
  }
}
