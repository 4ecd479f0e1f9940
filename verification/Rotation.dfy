/** Rotating the screen: the coordinate maps of a device profile, and the loops that copy pixels. */
module Rotation {
  import opened Bytes

  datatype Point = Point(x: int, y: int)
  datatype Size = Size(width: int, height: int)
  datatype Transform = Transform(degrees: nat, offsetX: int, offsetY: int)

  const LIMIT: int := 8192

  predicate ValidSize(s: Size) { 0 < s.width <= LIMIT && 0 < s.height <= LIMIT }

  predicate ValidDegrees(d: nat) { d == 0 || d == 90 || d == 180 || d == 270 }

  predicate ValidTransform(t: Transform) {
    ValidDegrees(t.degrees) && -LIMIT <= t.offsetX <= LIMIT && -LIMIT <= t.offsetY <= LIMIT
  }

  function ClampAxis(v: int, length: int): (r: int)
    requires length > 0
    ensures 0 <= r < length && (0 <= v < length ==> r == v)
  {
    if v < 0 then 0 else if v > length - 1 then length - 1 else v
  }

  function Clamped(p: Point, s: Size): Point
    requires ValidSize(s)
  {
    Point(ClampAxis(p.x, s.width), ClampAxis(p.y, s.height))
  }

  predicate OnScreen(p: Point, s: Size) { 0 <= p.x < s.width && 0 <= p.y < s.height }

  function RotateLogical(p: Point, s: Size, t: Transform): Point
    requires ValidSize(s)
  {
    var (x, y) := (ClampAxis(p.x, s.width), ClampAxis(p.y, s.height));
    if t.degrees == 0 then Point(t.offsetX + x, t.offsetY + y)
    else if t.degrees == 90 then Point(t.offsetX + s.height - 1 - y, t.offsetY + x)
    else if t.degrees == 180 then Point(t.offsetX + s.width - 1 - x, t.offsetY + s.height - 1 - y)
    else if t.degrees == 270 then Point(t.offsetX + y, t.offsetY + s.width - 1 - x)
    else Point(0, 0)
  }

  function InverseRotate(p: Point, s: Size, t: Transform): Point
    requires ValidSize(s)
  {
    var (x, y) := (p.x - t.offsetX, p.y - t.offsetY);
    if t.degrees == 0 then Clamped(Point(x, y), s)
    else if t.degrees == 90 then Clamped(Point(y, s.height - 1 - x), s)
    else if t.degrees == 180 then Clamped(Point(s.width - 1 - x, s.height - 1 - y), s)
    else if t.degrees == 270 then Clamped(Point(s.width - 1 - y, x), s)
    else Point(0, 0)
  }

  /** The size of the rotated screen. */
  function Turned(s: Size, degrees: nat): Size {
    if degrees == 90 || degrees == 270 then Size(s.height, s.width) else s
  }

  /** The place the rotated screen takes. */
  predicate Covered(p: Point, s: Size, t: Transform) {
    OnScreen(Point(p.x - t.offsetX, p.y - t.offsetY), Turned(s, t.degrees))
  }

  /** Touching where a point is shown gives back the point, moved onto the screen if it was off it. */
  lemma InverseUndoesRotation(p: Point, s: Size, t: Transform)
    requires ValidSize(s) && ValidDegrees(t.degrees)
    ensures InverseRotate(RotateLogical(p, s, t), s, t) == Clamped(p, s)
    ensures Covered(RotateLogical(p, s, t), s, t)
  {
  }

  /** And showing what was touched gives back the place touched exactly when the rotated screen
      covers it. */
  lemma RotationUndoesInverse(p: Point, s: Size, t: Transform)
    requires ValidSize(s) && ValidDegrees(t.degrees)
    ensures OnScreen(InverseRotate(p, s, t), s)
    ensures RotateLogical(InverseRotate(p, s, t), s, t) == p <==> Covered(p, s, t)
  {
  }

  /** Inside the limits a profile may use, no coordinate leaves 16 bits. */
  lemma CoordinatesAreSmall(p: Point, s: Size, t: Transform)
    requires ValidSize(s) && ValidTransform(t)
    ensures
      var q := RotateLogical(p, s, t);
      -0x8000 <= q.x < 0x8000 && -0x8000 <= q.y < 0x8000
  {
  }

  function Corners(s: Size): seq<Point> {
    [Point(0, 0), Point(s.width - 1, 0), Point(0, s.height - 1), Point(s.width - 1, s.height - 1)]
  }

  predicate ShownInside(p: Point, s: Size, t: Transform, physical: Size)
    requires ValidSize(s)
  {
    OnScreen(RotateLogical(p, s, t), physical)
  }

  /** The corner check of the profile parser. */
  method CheckCorners(s: Size, t: Transform, physical: Size) returns (ok: bool)
    requires ValidSize(s) && ValidDegrees(t.degrees)
    ensures ok <==> forall p :: OnScreen(p, s) ==> ShownInside(p, s, t, physical)
  {
    var corners := Corners(s);
    for i := 0 to 4
      invariant forall k :: 0 <= k < i ==> ShownInside(corners[k], s, t, physical)
    {
      var corner := RotateLogical(corners[i], s, t);
      if corner.x < 0 || corner.y < 0 || corner.x >= physical.width || corner.y >= physical.height {
        assert OnScreen(corners[i], s) && !ShownInside(corners[i], s, t, physical);
        return false;
      }
    }
    forall p | OnScreen(p, s)
      ensures ShownInside(p, s, t, physical)
    {
      CornersSuffice(p, s, t, physical);
    }
    ok := true;
  }

  /** If the four corners are shown inside the physical screen, so is every point. */
  lemma CornersSuffice(p: Point, s: Size, t: Transform, physical: Size)
    requires ValidSize(s) && ValidDegrees(t.degrees)
    requires forall k :: 0 <= k < 4 ==> ShownInside(Corners(s)[k], s, t, physical)
    ensures ShownInside(p, s, t, physical)
  {
    assert ShownInside(Corners(s)[0], s, t, physical);
    assert ShownInside(Corners(s)[1], s, t, physical);
    assert ShownInside(Corners(s)[2], s, t, physical);
    assert ShownInside(Corners(s)[3], s, t, physical);
  }

  /** The profile of the one built-in device, with its own two maps. */
  datatype Panel = Panel(physicalHeight: int, logical: Size, displayOffset: int, touchOffset: int)

  function LogicalToPhysical(p: Point, panel: Panel): Point
    requires ValidSize(panel.logical)
  {
    var c := Clamped(p, panel.logical);
    Point(panel.displayOffset + c.y, panel.logical.width - 1 - c.x)
  }

  function RawTouchToLogical(raw: Point, panel: Panel): Point
    requires ValidSize(panel.logical)
  {
    Point(ClampAxis(panel.physicalHeight - 1 - raw.y, panel.logical.width),
          ClampAxis(raw.x - panel.touchOffset, panel.logical.height))
  }

  /** The built-in maps are the general ones turned by 270 degrees. */
  lemma PanelMapsAreRotations(p: Point, panel: Panel)
    requires ValidSize(panel.logical)
    ensures LogicalToPhysical(p, panel) == RotateLogical(p, panel.logical, Transform(270, panel.displayOffset, 0))
    ensures RawTouchToLogical(p, panel) ==
      InverseRotate(p, panel.logical, Transform(270, panel.touchOffset, panel.physicalHeight - panel.logical.width))
  {
  }

  /** So on a panel whose offsets agree a touch lands on the point shown there, and on one whose
      offsets differ it is off by the difference, up to the edge. */
  lemma TouchFindsPoint(p: Point, panel: Panel)
    requires ValidSize(panel.logical) && OnScreen(p, panel.logical) && panel.physicalHeight == panel.logical.width
    ensures RawTouchToLogical(LogicalToPhysical(p, panel), panel) ==
      Clamped(Point(p.x, p.y + panel.displayOffset - panel.touchOffset), panel.logical)
  {
  }

  /** A frame buffer row and column of a cell. */
  function Row(i: nat, stride: nat): nat
    requires stride > 0
  {
    i / stride
  }

  function Column(i: nat, stride: nat): nat
    requires stride > 0
  {
    i % stride
  }

  /** What the cell at a row and column shows: the pixel whose rotation it is, or nothing. */
  function Shown(pixels: seq<u32>, s: Size, t: Transform, at: Point): u32
    requires ValidSize(s) && ValidDegrees(t.degrees) && |pixels| == s.width * s.height
  {
    if !Covered(at, s, t) then 0
    else
      var p := InverseRotate(at, s, t);
      RotationUndoesInverse(at, s, t);
      PixelInRange(p, s);
      pixels[p.y * s.width + p.x]
  }

  lemma RowMajor(x: nat, y: nat, width: nat, height: nat)
    requires x < width && y < height
    ensures 0 <= y * width + x < height * width
  {
    ProductGap(width, y, height);
    assert y * width >= 0;
  }

  lemma PixelInRange(p: Point, s: Size)
    requires ValidSize(s) && OnScreen(p, s)
    ensures 0 <= p.y * s.width + p.x < s.width * s.height
  {
    RowMajor(p.x, p.y, s.width, s.height);
  }

  /** `Shown` puts pixel (x, y) at its rotation, for every pixel. */
  lemma PixelIsShownAtItsRotation(pixels: seq<u32>, s: Size, t: Transform, p: Point)
    requires ValidSize(s) && ValidDegrees(t.degrees) && |pixels| == s.width * s.height && OnScreen(p, s)
    ensures 0 <= p.y * s.width + p.x < |pixels|
    ensures Shown(pixels, s, t, RotateLogical(p, s, t)) == pixels[p.y * s.width + p.x]
  {
    InverseUndoesRotation(p, s, t);
    PixelInRange(p, s);
  }

  /** No pixel overwrites another. */
  lemma RotationIsInjective(p: Point, q: Point, s: Size, t: Transform)
    requires ValidSize(s) && ValidDegrees(t.degrees) && OnScreen(p, s) && OnScreen(q, s)
    ensures RotateLogical(p, s, t) == RotateLogical(q, s, t) ==> p == q
  {
  }

  /** The buffer has a cell for every place the rotated screen takes. */
  predicate Roomy(length: nat, stride: nat, s: Size, t: Transform) {
    var turned := Turned(s, t.degrees);
    && t.offsetX >= 0 && t.offsetY >= 0 && stride >= t.offsetX + turned.width
    && length >= (t.offsetY + turned.height) * stride
  }

  lemma CellIdentity(i: nat, x: nat, y: nat, stride: nat)
    requires x < stride
    ensures Row(i, stride) == y && Column(i, stride) == x <==> i == y * stride + x
  {
    if i == y * stride + x {
      ModulusUnique(i, stride, y, x);
    }
  }

  lemma CellOf(at: Point, length: nat, stride: nat, s: Size, t: Transform)
    requires ValidSize(s) && ValidDegrees(t.degrees) && Roomy(length, stride, s, t) && Covered(at, s, t)
    ensures 0 <= at.x < stride && 0 <= at.y && 0 <= at.y * stride + at.x < length
  {
    RowMajor(at.x, at.y, stride, t.offsetY + Turned(s, t.degrees).height);
  }

  /** Pixels before (x, y) in the order the loops visit them. */
  predicate Before(p: Point, x: int, y: int) { p.y < y || (p.y == y && p.x < x) }

  /** The buffer once the pixels before (x, y) have been copied. */
  ghost predicate Copied(cells: seq<u32>, stride: nat, pixels: seq<u32>, s: Size, t: Transform, x: int, y: int)
    requires ValidSize(s) && ValidDegrees(t.degrees) && |pixels| == s.width * s.height && stride > 0
  {
    forall i :: 0 <= i < |cells| ==>
      cells[i] == CellAfter(pixels, s, t, Point(Column(i, stride), Row(i, stride)), x, y)
  }

  function CellAfter(pixels: seq<u32>, s: Size, t: Transform, at: Point, x: int, y: int): u32
    requires ValidSize(s) && ValidDegrees(t.degrees) && |pixels| == s.width * s.height
  {
    if Covered(at, s, t) && Before(InverseRotate(at, s, t), x, y) then Shown(pixels, s, t, at) else 0
  }

  lemma CopyStep(
    before: seq<u32>, after: seq<u32>, stride: nat, pixels: seq<u32>, s: Size, t: Transform, x: int, y: int)
    requires ValidSize(s) && ValidDegrees(t.degrees) && |pixels| == s.width * s.height
    requires Roomy(|before|, stride, s, t) && OnScreen(Point(x, y), s) && stride > 0
    requires Copied(before, stride, pixels, s, t, x, y)
    requires
      var to := RotateLogical(Point(x, y), s, t);
      && 0 <= to.y * stride + to.x < |before| && 0 <= y * s.width + x < |pixels|
      && after == before[to.y * stride + to.x := pixels[y * s.width + x]]
    ensures Copied(after, stride, pixels, s, t, x + 1, y)
  {
    hide Row, Column, RotateLogical, InverseRotate, Shown;
    var to := RotateLogical(Point(x, y), s, t);
    InverseUndoesRotation(Point(x, y), s, t);
    CellOf(to, |before|, stride, s, t);
    PixelIsShownAtItsRotation(pixels, s, t, Point(x, y));
    forall i | 0 <= i < |after|
      ensures after[i] == CellAfter(pixels, s, t, Point(Column(i, stride), Row(i, stride)), x + 1, y)
    {
      var at := Point(Column(i, stride), Row(i, stride));
      RotationUndoesInverse(at, s, t);
      CellIdentity(i, to.x, to.y, stride);
    }
  }

  lemma NextRow(cells: seq<u32>, stride: nat, pixels: seq<u32>, s: Size, t: Transform, y: int)
    requires ValidSize(s) && ValidDegrees(t.degrees) && |pixels| == s.width * s.height && stride > 0
    requires Copied(cells, stride, pixels, s, t, s.width, y)
    ensures Copied(cells, stride, pixels, s, t, 0, y + 1)
  {
    hide Row, Column, Shown, InverseRotate;
    forall i | 0 <= i < |cells|
      ensures cells[i] == CellAfter(pixels, s, t, Point(Column(i, stride), Row(i, stride)), 0, y + 1)
    {
      RotationUndoesInverse(Point(Column(i, stride), Row(i, stride)), s, t);
    }
  }

  /** The whole screen has been copied: every cell shows what it should. */
  ghost predicate Complete(cells: seq<u32>, stride: nat, pixels: seq<u32>, s: Size, t: Transform)
    requires ValidSize(s) && ValidDegrees(t.degrees) && |pixels| == s.width * s.height && stride > 0
  {
    forall i :: 0 <= i < |cells| ==> cells[i] == Shown(pixels, s, t, Point(Column(i, stride), Row(i, stride)))
  }

  lemma AllCopied(cells: seq<u32>, stride: nat, pixels: seq<u32>, s: Size, t: Transform)
    requires ValidSize(s) && ValidDegrees(t.degrees) && |pixels| == s.width * s.height && stride > 0
    requires Copied(cells, stride, pixels, s, t, 0, s.height)
    ensures Complete(cells, stride, pixels, s, t)
  {
    hide Row, Column, InverseRotate;
    forall i | 0 <= i < |cells|
      ensures cells[i] == Shown(pixels, s, t, Point(Column(i, stride), Row(i, stride)))
    {
      RotationUndoesInverse(Point(Column(i, stride), Row(i, stride)), s, t);
    }
  }

  lemma NothingCopied(cells: seq<u32>, stride: nat, pixels: seq<u32>, s: Size, t: Transform)
    requires ValidSize(s) && ValidDegrees(t.degrees) && |pixels| == s.width * s.height && stride > 0
    requires forall i :: 0 <= i < |cells| ==> cells[i] == 0
    ensures Copied(cells, stride, pixels, s, t, 0, 0)
  {
    hide Row, Column, InverseRotate, Shown;
    forall i | 0 <= i < |cells|
      ensures cells[i] == CellAfter(pixels, s, t, Point(Column(i, stride), Row(i, stride)), 0, 0)
    {
      RotationUndoesInverse(Point(Column(i, stride), Row(i, stride)), s, t);
    }
  }

  method Clear(output: array<u32>)
    modifies output
    ensures forall i :: 0 <= i < output.Length ==> output[i] == 0
  {
    for i := 0 to output.Length
      invariant forall k :: 0 <= k < i ==> output[k] == 0
    {
      output[i] := 0;
    }
  }

  /** The copy loops of the overlay plane, for all four rotations: afterwards every cell of the
      buffer shows the pixel whose rotation it is, and all other cells are zero. */
  method PresentOverlay(pixels: seq<u32>, s: Size, rotation: nat, output: array<u32>, stride: nat)
    requires ValidSize(s) && ValidDegrees(rotation) && |pixels| == s.width * s.height && stride > 0
    requires Roomy(output.Length, stride, s, Transform(rotation, 0, 0))
    modifies output
    ensures Complete(output[..], stride, pixels, s, Transform(rotation, 0, 0))
  {
    hide Copied, Complete, Covered, Roomy, Shown;
    ghost var t := Transform(rotation, 0, 0);
    Clear(output);
    NothingCopied(output[..], stride, pixels, s, t);
    for y := 0 to s.height
      invariant Copied(output[..], stride, pixels, s, t, 0, y)
    {
      for x := 0 to s.width
        invariant Copied(output[..], stride, pixels, s, t, x, y)
      {
        var targetX, targetY := x, y;
        if rotation == 90 {
          targetX, targetY := s.height - 1 - y, x;
        } else if rotation == 180 {
          targetX, targetY := s.width - 1 - x, s.height - 1 - y;
        } else if rotation == 270 {
          targetX, targetY := y, s.width - 1 - x;
        }
        assert Point(targetX, targetY) == RotateLogical(Point(x, y), s, t);
        InverseUndoesRotation(Point(x, y), s, t);
        CellOf(Point(targetX, targetY), output.Length, stride, s, t);
        PixelInRange(Point(x, y), s);
        ghost var before := output[..];
        output[targetY * stride + targetX] := pixels[y * s.width + x];
        assert output[..] == before[targetY * stride + targetX := pixels[y * s.width + x]];
        CopyStep(before, output[..], stride, pixels, s, t, x, y);
      }
      NextRow(output[..], stride, pixels, s, t, y);
    }
    AllCopied(output[..], stride, pixels, s, t);
  }

  /** The copy loops without an overlay: the built-in panel, turned and shifted. */
  method PresentPanel(pixels: seq<u32>, panel: Panel, output: array<u32>, stride: nat)
    requires ValidSize(panel.logical) && |pixels| == panel.logical.width * panel.logical.height && stride > 0
    requires Roomy(output.Length, stride, panel.logical, Transform(270, panel.displayOffset, 0))
    modifies output
    ensures Complete(output[..], stride, pixels, panel.logical, Transform(270, panel.displayOffset, 0))
  {
    hide Copied, Complete, Covered, Roomy, Shown;
    var s := panel.logical;
    ghost var t := Transform(270, panel.displayOffset, 0);
    Clear(output);
    NothingCopied(output[..], stride, pixels, s, t);
    for y := 0 to s.height
      invariant Copied(output[..], stride, pixels, s, t, 0, y)
    {
      var physicalX := panel.displayOffset + y;
      for x := 0 to s.width
        invariant Copied(output[..], stride, pixels, s, t, x, y)
      {
        var physicalY := s.width - 1 - x;
        assert Point(physicalX, physicalY) == RotateLogical(Point(x, y), s, t);
        InverseUndoesRotation(Point(x, y), s, t);
        CellOf(Point(physicalX, physicalY), output.Length, stride, s, t);
        PixelInRange(Point(x, y), s);
        ghost var before := output[..];
        output[physicalY * stride + physicalX] := pixels[y * s.width + x];
        assert output[..] == before[physicalY * stride + physicalX := pixels[y * s.width + x]];
        CopyStep(before, output[..], stride, pixels, s, t, x, y);
      }
      NextRow(output[..], stride, pixels, s, t, y);
    }
    AllCopied(output[..], stride, pixels, s, t);
  }

  /** The limits of a profile. */
  lemma LimitsMean(s: Size, t: Transform)
    ensures ValidSize(s) <==> 1 <= s.width <= 8192 && 1 <= s.height <= 8192
    ensures ValidTransform(t) <==>
      t.degrees in {0, 90, 180, 270} && -8192 <= t.offsetX <= 8192 && -8192 <= t.offsetY <= 8192
  {
  }
}
