/**
 * The legacy frame server (`RawSource::GetFrame`, src/rawsource26.cpp): seek
 * to the frame's indexed offset, then fill the destination frame row by row
 * through one reused scratch buffer, in one of four layouts chosen by the
 * pixel-type name and the registry's colour space.
 */
module GetFrame {
  import opened Common
  import opened PixelTypes
  import opened IndexBuilder
  import opened Checkpoints
  import opened Scanf
  import opened WriteFrame

  /** The four row loops `GetFrame` chooses between. */
  datatype Layout = SemiPlanar | PlaneByPlane | StraightCopy | ByteReorder

  /** `strnicmp(a, b, |b|) == 0` for a NUL-free `b`: `a` begins with `b`, without regard to case. */
  predicate StartsIEq(a: string, b: string)
  {
    |a| >= |b| && StrIEq(a[..|b|], b)
  }

  /** The branch `GetFrame` takes: NV12/NV21 by name, then planar colour spaces, then `BGR*`/`YUY*` names, then the rest. */
  function LayoutOf(pixType: string, format: PixelFormat): (r: Layout)
    ensures r == SemiPlanar <==> StrIEq(pixType, "NV12") || StrIEq(pixType, "NV21")
    ensures r == PlaneByPlane ==> IsPlanar(format.cs)
    ensures r == StraightCopy || r == ByteReorder ==> !IsPlanar(format.cs)
  {
    if StrIEq(pixType, "NV12") || StrIEq(pixType, "NV21") then SemiPlanar
    else if IsPlanar(format.cs) then PlaneByPlane
    else if StartsIEq(pixType, "BGR") || StartsIEq(pixType, "YUY") then StraightCopy
    else ByteReorder
  }

  /** The two semi-planar names are registered with a planar colour space and both chroma planes after the luma plane. */
  predicate SemiPlanarFormat(f: PixelFormat)
  {
    IsPlanar(f.cs) && ChromaOrder(f.mapping)
  }

  lemma SemiPlanarFormats()
    ensures SemiPlanarFormat(Format(20)) && SemiPlanarFormat(Format(21))
  {
  }

  lemma Nv12Lookup()
    ensures Lookup("NV12") == Ok(Format(20))
  {
    assert CascadeKey("nv12") == Some(20);
    KeyedLookup("NV12", "nv12");
  }

  lemma Nv21Lookup()
    ensures Lookup("NV21") == Ok(Format(21))
  {
    assert CascadeKey("nv21") == Some(21);
    KeyedLookup("NV21", "nv21");
  }

  lemma Nv12Format(pixType: string)
    requires StrIEq(pixType, "NV12") || StrIEq(pixType, "NV21")
    ensures Lookup(pixType).Ok? && SemiPlanarFormat(Lookup(pixType).value)
  {
    SemiPlanarFormats();
    if StrIEq(pixType, "NV12") {
      Nv12Lookup();
      LookupIsCaseInsensitive(pixType, "NV12");
    } else {
      Nv21Lookup();
      LookupIsCaseInsensitive(pixType, "NV21");
    }
  }

  /**
   * Whatever branch a registered name takes, the registry gave it what that
   * branch indexes: two chroma planes for NV12/NV21, distinct plane names
   * for the planar loop, a byte order within each pixel group otherwise.
   */
  lemma LayoutIsSupplied(pixType: string)
    requires Lookup(pixType).Ok?
    ensures var f := Lookup(pixType).value;
            match LayoutOf(pixType, f)
            case SemiPlanar => ChromaOrder(f.mapping)
            case PlaneByPlane => PlaneOrder(f.mapping, f.mapcnt)
            case _ => ByteOrder(f.mapping, f.mapcnt)
  {
    var f := Lookup(pixType).value;
    RegistryWellFormed(pixType);
    if StrIEq(pixType, "NV12") || StrIEq(pixType, "NV21") {
      Nv12Format(pixType);
    } else if IsPlanar(f.cs) {
      forall i | 0 <= i < f.mapcnt
        ensures IsPlaneId(f.mapping[i])
      {
        assert f.mapping[i] in {PLANAR_Y, PLANAR_U, PLANAR_V};
      }
    }
  }

  /** The lower-case key of a name that begins with `b` begins with the lower-case `b`. */
  lemma KeyStartsWith(name: string, b: string)
    requires StartsIEq(name, b)
    ensures LowerStr(name)[..|b|] == LowerStr(b)
  {
    StrIEqIsLowerEquality(name[..|b|], b);
    assert LowerStr(name)[..|b|] == LowerStr(name[..|b|]);
  }

  /** The registered keys that begin with `bgr` or `yuy` are those of branches 1, 5 and 6. */
  lemma StraightCopyKeys(key: string)
    requires |key| >= 3 && (key[..3] == "bgr" || key[..3] == "yuy") && CascadeKey(key).Some?
    ensures CascadeKey(key).value in {1, 5, 6}
  {
    assert key[0] == key[..3][0] && key[1] == key[..3][1] && key[2] == key[..3][2];
    if key[..3] == "bgr" {
      assert key[0] == 'b' && key[1] == 'g' && key[2] == 'r';
    } else {
      assert key[0] == 'y' && key[1] == 'u' && key[2] == 'y';
    }
  }

  /** Branches 1, 5 and 6 keep the file's byte order. */
  lemma IdentityFormats()
    ensures forall k :: 0 <= k < Format(1).mapcnt ==> Format(1).mapping[k] == k
    ensures forall k :: 0 <= k < Format(5).mapcnt ==> Format(5).mapping[k] == k
    ensures forall k :: 0 <= k < Format(6).mapcnt ==> Format(6).mapping[k] == k
  {
  }

  /**
   * The shortcut is sound: every registered name that begins with `BGR` or
   * `YUY` has the identity byte order, so copying its rows straight equals
   * reordering them (ReorderedByIdentity).
   */
  lemma StraightCopyNamesKeepByteOrder(pixType: string, f: PixelFormat)
    requires Lookup(pixType) == Ok(f) && LayoutOf(pixType, f) == StraightCopy
    ensures ByteOrder(f.mapping, f.mapcnt) && forall k :: 0 <= k < f.mapcnt ==> f.mapping[k] == k
  {
    LayoutIsSupplied(pixType);
    var key := LowerStr(pixType);
    if StartsIEq(pixType, "BGR") {
      KeyStartsWith(pixType, "BGR");
      assert key[..3] == "bgr";
    } else {
      KeyStartsWith(pixType, "YUY");
      assert key[..3] == "yuy";
    }
    StraightCopyKeys(key);
    IdentityFormats();
  }

  /** The direct branch and the reorder branch agree on every row of a `BGR*` or `YUY*` frame. */
  lemma StraightCopyIsReorder(pixType: string, f: PixelFormat, row: seq<byte>)
    requires Lookup(pixType) == Ok(f) && LayoutOf(pixType, f) == StraightCopy
    ensures 1 <= f.mapcnt && ByteOrder(f.mapping, f.mapcnt)
    ensures Reordered(row, f.mapping, f.mapcnt) == row[..|Reordered(row, f.mapping, f.mapcnt)|]
  {
    StraightCopyNamesKeepByteOrder(pixType, f);
    ReorderedByIdentity(row, f.mapping, f.mapcnt);
  }

  // ------------------------------------------------------------ the row loops

  /**
   * The `GetFrame` plane loop: clear the scratch buffer, read one row of
   * `rowSize` bytes, copy it in; row after row. It leaves the plane as the
   * one-read `BitBlt` of the newer writers does (ReadPlane).
   */
  method ReadRows(file: RawFile, p: Plane, buff: array<byte>, ghost from: int)
    requires p.Valid() && file.ReadsAt(from) && p.rowSize <= buff.Length
    modifies file, buff, p.pixels
    ensures file.ReadsAt(from + PlaneSize(p))
    ensures PlaneHolds(p, file.data, from) && PaddingKept(p)
  {
    var width, height := p.rowSize, p.Height();
    var i := 0;
    while i < height
      invariant i <= height && file.ReadsAt(from + RowStart(i, width))
      invariant forall r :: 0 <= r < i ==> RowHolds(p.pixels, r, FileRow(file.data, from, width, r))
      invariant KeptOutside(p.pixels, i, width)
    {
      file.ZeroAndRead(buff, width, from + RowStart(i, width));
      ghost var row := FileRow(file.data, from, width, i);
      forall c | 0 <= c < width
        ensures buff[c] == row[c]
      {
        assert buff[..width][c] == buff[c];
      }
      label before:
      CopyRow(p.pixels, i, buff, 0, width);
      forall r | 0 <= r < i
        ensures RowHolds(p.pixels, r, FileRow(file.data, from, width, r))
      {
        assert old@before(RowHolds(p.pixels, r, FileRow(file.data, from, width, r)));
      }
      i := i + 1;
    }
    RowStartIsProduct(height, width);
    forall r, c | 0 <= r < height && 0 <= c < width
      ensures p.pixels[r, c] == FileRow(file.data, from, width, r)[c]
    {
      assert RowHolds(p.pixels, r, FileRow(file.data, from, width, r));
    }
  }

  /** Plane `order[i]` read row by row after the planes before it; the planes already read keep what they hold. */
  method ReadNamedRows(file: RawFile, frame: Frame, buff: array<byte>, order: seq<int>, count: nat, i: nat, ghost at: int)
    requires frame.Valid() && PlaneOrder(order, count) && i < count && frame.PlaneOf(order[i]).rowSize <= buff.Length
    requires file.ReadsAt(at + PlanesBefore(frame, order, i)) && PlanesHold(frame, file.data, at, order, i)
    modifies file, buff, frame.PlaneOf(order[i]).pixels
    ensures file.ReadsAt(at + PlanesBefore(frame, order, i + 1)) && PlanesHold(frame, file.data, at, order, i + 1)
    ensures PaddingKept(frame.PlaneOf(order[i]))
  {
    var p := frame.PlaneOf(order[i]);
    ghost var from := at + PlanesBefore(frame, order, i);
    label before:
    ReadRows(file, p, buff, from);
    forall i' | 0 <= i' < i
      ensures PlaneAt(frame, file.data, at, order, i')
    {
      DistinctPlanes(frame, order[i'], order[i]);
      assert old@before(PlaneAt(frame, file.data, at, order, i'));
      assert old@before(PlaneHolds(frame.PlaneOf(order[i']), file.data, at + PlanesBefore(frame, order, i')));
      assert PlaneHolds(frame.PlaneOf(order[i']), file.data, at + PlanesBefore(frame, order, i'));
    }
    assert PlaneAt(frame, file.data, at, order, i);
  }

  /** The planar branch: planes `order[0..count)`, each row by row; the same result as `write_planar` (WritePlanar). */
  method ReadPlanes(file: RawFile, frame: Frame, buff: array<byte>, order: seq<int>, count: nat, ghost at: int)
    requires frame.Valid() && file.ReadsAt(at) && PlaneOrder(order, count)
    requires forall i :: 0 <= i < count ==> frame.PlaneOf(order[i]).rowSize <= buff.Length
    modifies file, buff, frame.y.pixels, frame.u.pixels, frame.v.pixels
    ensures file.ReadsAt(at + PlanesBefore(frame, order, count))
    ensures PlanesHold(frame, file.data, at, order, count)
    ensures PaddingKept(frame.y) && PaddingKept(frame.u) && PaddingKept(frame.v)
    ensures UnnamedKept(frame, order, count)
  {
    var i := 0;
    while i < count
      invariant i <= count && file.ReadsAt(at + PlanesBefore(frame, order, i))
      invariant PlanesHold(frame, file.data, at, order, i)
      invariant PaddingKept(frame.y) && PaddingKept(frame.u) && PaddingKept(frame.v)
      modifies file, buff, NamedPixels(frame, order, count)
    {
      assert frame.PlaneOf(order[i]).pixels in NamedPixels(frame, order, count);
      ReadNamedRows(file, frame, buff, order, count, i, at);
      i := i + 1;
    }
    if PLANAR_Y !in order[..count] { UnnamedOutside(frame, order, count, PLANAR_Y); }
    if PLANAR_U !in order[..count] { UnnamedOutside(frame, order, count, PLANAR_U); }
    if PLANAR_V !in order[..count] { UnnamedOutside(frame, order, count, PLANAR_V); }
  }

  /** One row of the interleaved chroma plane: cleared, read, and split between the two chroma planes. */
  method ReadChromaRow(file: RawFile, c1: array2<byte>, c2: array2<byte>, buff: array<byte>, width: nat, i: nat, ghost from: int)
    requires c1 != c2 && i < c1.Length0 && i < c2.Length0 && width / 2 <= c1.Length1 && width / 2 <= c2.Length1
    requires file.ReadsAt(from + RowStart(i, width)) && width <= buff.Length
    modifies file, buff, c1, c2
    ensures file.ReadsAt(from + RowStart(i + 1, width))
    ensures RowHolds(c1, i, Evens(ChromaRow(file.data, from, width, width / 2, i)))
    ensures RowHolds(c2, i, Odds(ChromaRow(file.data, from, width, width / 2, i)))
    ensures forall r, c :: 0 <= r < c1.Length0 && 0 <= c < c1.Length1 && (r != i || width / 2 <= c) ==> c1[r, c] == old(c1[r, c])
    ensures forall r, c :: 0 <= r < c2.Length0 && 0 <= c < c2.Length1 && (r != i || width / 2 <= c) ==> c2[r, c] == old(c2[r, c])
  {
    var pairs := width / 2;
    file.ZeroAndRead(buff, width, from + RowStart(i, width));
    ghost var row := ChromaRow(file.data, from, width, pairs, i);
    forall c | 0 <= c < 2 * pairs
      ensures buff[c] == row[c]
    {
      assert buff[..width][c] == buff[c];
    }
    DeinterleaveRow(c1, c2, i, buff, 0, pairs, row);
    assert RowStart(i + 1, width) == RowStart(i, width) + width;
  }

  /**
   * The NV12/NV21 chroma loop: `rows` reads of `width` bytes, each split
   * into `width / 2` pairs; chroma row `r` comes from `r * width` bytes
   * after `from`, the stride of the corrected writer (WriteNV420Corrected).
   */
  method ReadChromaRows(file: RawFile, c1: array2<byte>, c2: array2<byte>, buff: array<byte>, width: nat, rows: nat, ghost from: int)
    requires c1 != c2 && rows <= c1.Length0 && rows <= c2.Length0 && width / 2 <= c1.Length1 && width / 2 <= c2.Length1
    requires file.ReadsAt(from) && width <= buff.Length
    modifies file, buff, c1, c2
    ensures file.ReadsAt(from + RowStart(rows, width))
    ensures ChromaHolds(c1, c2, file.data, from, width, width / 2, rows)
    ensures KeptOutside(c1, rows, width / 2) && KeptOutside(c2, rows, width / 2)
  {
    ghost var data := file.data;
    var pairs := width / 2;
    var i := 0;
    while i < rows
      invariant i <= rows && file.ReadsAt(from + RowStart(i, width))
      invariant ChromaHolds(c1, c2, data, from, width, pairs, i)
      invariant KeptOutside(c1, i, pairs) && KeptOutside(c2, i, pairs)
    {
      ghost var row := ChromaRow(data, from, width, pairs, i);
      label before:
      ReadChromaRow(file, c1, c2, buff, width, i, from);
      forall r | 0 <= r < i
        ensures RowHolds(c1, r, Evens(ChromaRow(data, from, width, pairs, r)))
        ensures RowHolds(c2, r, Odds(ChromaRow(data, from, width, pairs, r)))
      {
        assert old@before(RowHolds(c1, r, Evens(ChromaRow(data, from, width, pairs, r))));
        assert old@before(RowHolds(c2, r, Odds(ChromaRow(data, from, width, pairs, r))));
      }
      assert RowHolds(c1, i, Evens(row)) && RowHolds(c2, i, Odds(row));
      i := i + 1;
    }
  }

  /** One row of the reorder branch: cleared, read, and its whole groups put in `order`. */
  method ReadReorderedRow(file: RawFile, dst: array2<byte>, buff: array<byte>, width: nat, i: nat, order: seq<int>, count: nat, ghost from: int)
    requires ByteOrder(order, count) && i < dst.Length0 && width <= dst.Length1
    requires file.ReadsAt(from + RowStart(i, width)) && width <= buff.Length
    modifies file, buff, dst
    ensures file.ReadsAt(from + RowStart(i + 1, width))
    ensures RowHolds(dst, i, Reordered(FileRow(file.data, from, width, i), order, count))
    ensures forall r, c :: 0 <= r < dst.Length0 && 0 <= c < dst.Length1 && (r != i || RowStart(width / count, count) <= c) ==>
              dst[r, c] == old(dst[r, c])
  {
    file.ZeroAndRead(buff, width, from + RowStart(i, width));
    ghost var row := FileRow(file.data, from, width, i);
    forall c | 0 <= c < width
      ensures buff[c] == row[c]
    {
      assert buff[..width][c] == buff[c];
    }
    ReorderRow(dst, i, buff, 0, width, order, count, row);
    assert RowStart(i + 1, width) == RowStart(i, width) + width;
  }

  /** The reorder branch: each row read on its own, its whole groups put in `order`; the same result as `write_packed_reorder`. */
  method ReadReorderedRows(file: RawFile, p: Plane, buff: array<byte>, order: seq<int>, count: nat, ghost from: int)
    requires p.Valid() && file.ReadsAt(from) && ByteOrder(order, count) && p.rowSize <= buff.Length
    modifies file, buff, p.pixels
    ensures file.ReadsAt(from + PlaneSize(p))
    ensures ReorderHolds(p, file.data, from, order, count)
    ensures KeptOutside(p.pixels, p.Height(), GroupedColumns(p, count))
  {
    ghost var data := file.data;
    var width, height := p.rowSize, p.Height();
    var i := 0;
    while i < height
      invariant i <= height && file.ReadsAt(from + RowStart(i, width))
      invariant forall r :: 0 <= r < i ==> RowHolds(p.pixels, r, Reordered(FileRow(data, from, width, r), order, count))
      invariant KeptOutside(p.pixels, i, GroupedColumns(p, count))
    {
      label before:
      ReadReorderedRow(file, p.pixels, buff, width, i, order, count, from);
      forall r | 0 <= r < i
        ensures RowHolds(p.pixels, r, Reordered(FileRow(data, from, width, r), order, count))
      {
        assert old@before(RowHolds(p.pixels, r, Reordered(FileRow(data, from, width, r), order, count)));
      }
      i := i + 1;
    }
    RowStartIsProduct(height, width);
    forall r, c | 0 <= r < height && 0 <= c < |Reordered(FileRow(data, from, width, r), order, count)|
      ensures p.pixels[r, c] == Reordered(FileRow(data, from, width, r), order, count)[c]
    {
      assert RowHolds(p.pixels, r, Reordered(FileRow(data, from, width, r), order, count));
    }
  }

  // ------------------------------------------------------------ the frame server

  /** The scratch buffer holds a row of each plane the layout reads: the first plane, or the planes `mapping` names. */
  predicate FitsBuffer(layout: Layout, format: PixelFormat, dst: Frame, buffLength: nat)
  {
    match layout
    case PlaneByPlane =>
      forall i :: 0 <= i < format.mapcnt && i < |format.mapping| ==> dst.PlaneOf(format.mapping[i]).rowSize <= buffLength
    case _ => dst.y.rowSize <= buffLength
  }

  /** The chroma planes hold the NV12 chroma rows: half as many rows as luma, each half a luma row wide. */
  predicate FitsNv12(dst: Frame)
  {
    && dst.y.Height() / 2 <= dst.u.Height() && dst.y.Height() / 2 <= dst.v.Height()
    && dst.y.rowSize / 2 <= dst.u.Pitch() && dst.y.rowSize / 2 <= dst.v.Pitch()
  }

  /** What a frame read from `at` holds in each layout. */
  predicate FrameHolds(layout: Layout, format: PixelFormat, dst: Frame, data: seq<byte>, at: int)
    requires dst.Valid()
    reads dst.y.pixels, dst.u.pixels, dst.v.pixels
  {
    match layout
    case SemiPlanar =>
      && PlaneHolds(dst.y, data, at)
      && ChromaOrder(format.mapping)
      && ChromaHolds(dst.PlaneOf(format.mapping[1]).pixels, dst.PlaneOf(format.mapping[2]).pixels, data, at + PlaneSize(dst.y),
                     dst.y.rowSize, dst.y.rowSize / 2, dst.y.Height() / 2)
    case PlaneByPlane =>
      PlaneOrder(format.mapping, format.mapcnt) && PlanesHold(dst, data, at, format.mapping, format.mapcnt)
    case StraightCopy =>
      PlaneHolds(dst.y, data, at)
    case ByteReorder =>
      ByteOrder(format.mapping, format.mapcnt) && ReorderHolds(dst.y, data, at, format.mapping, format.mapcnt)
  }

  /** What each layout leaves alone: the pitch padding, the chroma planes' unwritten area, the planes a planar format does not name, the planes a packed format does not use. */
  twostate predicate LayoutKept(layout: Layout, format: PixelFormat, dst: Frame)
    requires dst.Valid()
    reads dst.y.pixels, dst.u.pixels, dst.v.pixels
  {
    match layout
    case SemiPlanar =>
      && PaddingKept(dst.y)
      && KeptOutside(dst.u.pixels, dst.y.Height() / 2, dst.y.rowSize / 2)
      && KeptOutside(dst.v.pixels, dst.y.Height() / 2, dst.y.rowSize / 2)
    case PlaneByPlane =>
      && PaddingKept(dst.y) && PaddingKept(dst.u) && PaddingKept(dst.v)
      && format.mapcnt <= |format.mapping| && UnnamedKept(dst, format.mapping, format.mapcnt)
    case StraightCopy =>
      PaddingKept(dst.y) && unchanged(dst.u.pixels) && unchanged(dst.v.pixels)
    case ByteReorder =>
      && format.mapcnt >= 1
      && KeptOutside(dst.y.pixels, dst.y.Height(), GroupedColumns(dst.y, format.mapcnt))
      && unchanged(dst.u.pixels) && unchanged(dst.v.pixels)
  }

  /** The NV12/NV21 branch: luma row by row, then `height / 2` chroma rows of a full luma row each. */
  method FillSemiPlanar(file: RawFile, dst: Frame, buff: array<byte>, format: PixelFormat, ghost at: int)
    requires dst.Valid() && file.ReadsAt(at) && ChromaOrder(format.mapping)
    requires FitsBuffer(SemiPlanar, format, dst, buff.Length) && FitsNv12(dst)
    modifies file, buff, dst.y.pixels, dst.u.pixels, dst.v.pixels
    ensures FrameHolds(SemiPlanar, format, dst, file.data, at) && LayoutKept(SemiPlanar, format, dst)
  {
    ReadRows(file, dst.y, buff, at);
    var c1, c2 := dst.PlaneOf(format.mapping[1]), dst.PlaneOf(format.mapping[2]);
    DistinctPlanes(dst, format.mapping[1], format.mapping[2]);
    ReadChromaRows(file, c1.pixels, c2.pixels, buff, dst.y.rowSize, dst.y.Height() / 2, at + PlaneSize(dst.y));
  }

  /** The planar branch: the planes in `mapping` order, each row by row. */
  method FillPlaneByPlane(file: RawFile, dst: Frame, buff: array<byte>, format: PixelFormat, ghost at: int)
    requires dst.Valid() && file.ReadsAt(at) && PlaneOrder(format.mapping, format.mapcnt)
    requires FitsBuffer(PlaneByPlane, format, dst, buff.Length)
    modifies file, buff, dst.y.pixels, dst.u.pixels, dst.v.pixels
    ensures FrameHolds(PlaneByPlane, format, dst, file.data, at) && LayoutKept(PlaneByPlane, format, dst)
  {
    ReadPlanes(file, dst, buff, format.mapping, format.mapcnt, at);
  }

  /** The `BGR*`/`YUY*` branch: rows copied as they are. */
  method FillStraight(file: RawFile, dst: Frame, buff: array<byte>, format: PixelFormat, ghost at: int)
    requires dst.Valid() && file.ReadsAt(at) && FitsBuffer(StraightCopy, format, dst, buff.Length)
    modifies file, buff, dst.y.pixels
    ensures FrameHolds(StraightCopy, format, dst, file.data, at) && LayoutKept(StraightCopy, format, dst)
  {
    ReadRows(file, dst.y, buff, at);
  }

  /** The remaining packed names: each row's whole pixel groups put in `mapping` order. */
  method FillReordered(file: RawFile, dst: Frame, buff: array<byte>, format: PixelFormat, ghost at: int)
    requires dst.Valid() && file.ReadsAt(at) && ByteOrder(format.mapping, format.mapcnt)
    requires FitsBuffer(ByteReorder, format, dst, buff.Length)
    modifies file, buff, dst.y.pixels
    ensures FrameHolds(ByteReorder, format, dst, file.data, at) && LayoutKept(ByteReorder, format, dst)
  {
    ReadReorderedRows(file, dst.y, buff, format.mapping, format.mapcnt, at);
  }

  // ------------------------------------------------------------ the seek test

  /** What `_lseeki64` returns for an absolute seek: the new position, or -1 for a negative offset. */
  function SeekResult(off: int): int
  {
    if off >= 0 then off else -1
  }

  /**
   * The failure test on the seek's result as written: the 64-bit position is
   * cast to the 32-bit `int ret` before it is compared with -1, so a position
   * whose low 32 bits are all ones counts as a failure too.
   */
  predicate SeekFailed(ret: int)
  {
    WrapInt32(ret) == -1
  }

  /** The evidently intended test: only the error value -1 is a failure. */
  predicate SeekFailedCorrected(ret: int)
  {
    ret == -1
  }

  /** The cast keeps the low 32 bits: the test fires exactly when they are all ones. */
  lemma SeekFailedIsLow32(ret: int)
    ensures SeekFailed(ret) <==> ret % 0x1_0000_0000 == 0xFFFF_FFFF
  {
    var w := (ret - Int32Min) % 0x1_0000_0000;
    assert WrapInt32(ret) == w + Int32Min;
    assert (ret - Int32Min) % 0x1_0000_0000 == (ret % 0x1_0000_0000 + 0x8000_0000) % 0x1_0000_0000;
  }

  /** The intended test on the seek's result fails exactly for a negative offset. */
  lemma CorrectedSeekFailsExactlyOnNegative(off: int)
    ensures SeekFailedCorrected(SeekResult(off)) <==> off < 0
  {
  }

  /** The test as written fails for a negative offset and also for every offset that is 2^32 - 1 modulo 2^32. */
  lemma SeekAsWrittenFails(off: int)
    ensures SeekFailed(SeekResult(off)) <==> off < 0 || off % 0x1_0000_0000 == 0xFFFF_FFFF
  {
    SeekFailedIsLow32(SeekResult(off));
    if off < 0 {
      assert SeekResult(off) % 0x1_0000_0000 == 0xFFFF_FFFF;
    }
  }

  /** At 2^32 - 1 the seek succeeds, yet the test as written takes it for a failure and the intended one does not. */
  lemma AllOnesSeekRejectedAsWritten(at: int)
    requires at == 0xFFFF_FFFF
    ensures SeekResult(at) == at && SeekFailed(SeekResult(at)) && !SeekFailedCorrected(SeekResult(at))
  {
    SeekFailedIsLow32(at);
  }

  /** An 8x8 4:2:0 stream without an index (a 51-byte header, "FRAME\n" before each 96-byte frame) puts frame 42107522 at 2^32 - 1. */
  lemma UnindexedFrameAtAllOnes(headerOffset: int, frameOffset: int, framesize: nat,
                                indexFile: Option<string>, fmt: NumberFormat, n: nat)
    requires headerOffset == 51 && frameOffset == 6 && framesize == 96 && n == 42107522
    ensures var r := RawindexSpec([], headerOffset, frameOffset, framesize, indexFile, fmt);
            r.Ok? && Iterate(r.value, framesize, n).bytepos == 0xFFFF_FFFF
  {
    UnindexedFramesAreEvenlySpaced(headerOffset, frameOffset, framesize, indexFile, fmt, n);
    assert headerOffset + n * (frameOffset + framesize) == 0xFFFF_FFFF by {
      assert 51 + 42107522 * 102 == 0xFFFF_FFFF;
    }
  }

  /**
   * So that stream's frame 42107522, whose seek succeeds, is returned
   * unwritten by the source and read from the file by the intended test.
   */
  lemma UnindexedFrameSkippedAsWritten(headerOffset: int, frameOffset: int, framesize: nat,
                                       indexFile: Option<string>, fmt: NumberFormat, n: nat)
    requires headerOffset == 51 && frameOffset == 6 && framesize == 96 && n == 42107522
    ensures var r := RawindexSpec([], headerOffset, frameOffset, framesize, indexFile, fmt);
            && r.Ok? && SeekFailed(SeekResult(Iterate(r.value, framesize, n).bytepos))
            && !SeekFailedCorrected(SeekResult(Iterate(r.value, framesize, n).bytepos))
  {
    UnindexedFrameAtAllOnes(headerOffset, frameOffset, framesize, indexFile, fmt, n);
    AllOnesSeekRejectedAsWritten(0xFFFF_FFFF);
  }

  /** The state `GetFrame` reads: the open file, the built index, the pixel type and what the registry gave for it. */
  class RawSource {
    const file: RawFile
    const index: seq<Entry>
    const pixType: string
    const format: PixelFormat
    const rawbuf: array<byte>

    constructor (file: RawFile, index: seq<Entry>, pixType: string, rawbuf: array<byte>)
      requires Lookup(pixType).Ok?
      ensures this.file == file && this.index == index && this.pixType == pixType && this.rawbuf == rawbuf
      ensures Valid() && format == Lookup(pixType).value
    {
      this.file := file;
      this.index := index;
      this.pixType := pixType;
      this.format := Lookup(pixType).value;
      this.rawbuf := rawbuf;
    }

    predicate Valid()
    {
      Lookup(pixType) == Ok(format)
    }

    /**
     * Frame `n`: when the seek's result passes the source's failure test
     * (SeekFailed: a negative offset, or one whose low 32 bits are all ones)
     * the frame is returned as it came, with no neutral fill; otherwise it
     * holds the file's bytes from `index[n]` in the layout the pixel type
     * selects. Only the picture area is written; what the layout leaves
     * alone is unchanged.
     */
    method GetFrame(n: nat, dst: Frame)
      requires Valid() && dst.Valid() && n < |index|
      requires FitsBuffer(LayoutOf(pixType, format), format, dst, rawbuf.Length)
      requires LayoutOf(pixType, format) == SemiPlanar ==> FitsNv12(dst)
      modifies file, rawbuf, dst.y.pixels, dst.u.pixels, dst.v.pixels
      ensures SeekFailed(SeekResult(index[n].offset)) ==>
                unchanged(dst.y.pixels) && unchanged(dst.u.pixels) && unchanged(dst.v.pixels)
      ensures !SeekFailed(SeekResult(index[n].offset)) ==>
                && FrameHolds(LayoutOf(pixType, format), format, dst, file.data, index[n].offset)
                && LayoutKept(LayoutOf(pixType, format), format, dst)
    {
      LayoutIsSupplied(pixType);
      var offset := index[n].offset;
      var ok := file.Seek(offset);
      var ret := if ok then offset else -1;
      if SeekFailed(ret) {
        return;
      }
      match LayoutOf(pixType, format)
      case SemiPlanar => FillSemiPlanar(file, dst, rawbuf, format, offset);
      case PlaneByPlane => FillPlaneByPlane(file, dst, rawbuf, format, offset);
      case StraightCopy => FillStraight(file, dst, rawbuf, format, offset);
      case ByteReorder => FillReordered(file, dst, rawbuf, format, offset);
    }
  }
}
