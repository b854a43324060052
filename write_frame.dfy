/**
 * The layout writers (src/write_frame.cpp): each reads one frame's bytes from
 * the raw file through a zero-cleared scratch buffer and lays them out in the
 * destination frame's pitched planes — a straight copy, a copy plane after
 * plane, a copy with the bytes of every pixel group permuted, or a copy of
 * interleaved chroma split into two planes.
 */
module WriteFrame {
  import opened Common
  import opened PixelTypes

  /**
   * One destination plane: `pixels` has one row per line and `pitch`
   * columns, of which the first `rowSize` are picture and the rest
   * padding.
   */
  class Plane {
    const rowSize: nat
    const pixels: array2<byte>

    constructor (rowSize: nat, height: nat, pitch: nat)
      requires rowSize <= pitch
      ensures this.rowSize == rowSize && fresh(pixels)
      ensures pixels.Length0 == height && pixels.Length1 == pitch
    {
      this.rowSize := rowSize;
      pixels := new byte[height, pitch]((_, _) => 0);
    }

    function Height(): nat { pixels.Length0 }

    function Pitch(): nat { pixels.Length1 }

    predicate Valid() { rowSize <= pixels.Length1 }
  }

  /** A destination frame: three planes with separate storage; a packed format uses only `y`. */
  class Frame {
    const y: Plane
    const u: Plane
    const v: Plane

    constructor (y: Plane, u: Plane, v: Plane)
      ensures this.y == y && this.u == u && this.v == v
    {
      this.y := y;
      this.u := u;
      this.v := v;
    }

    predicate Valid()
    {
      && y.Valid() && u.Valid() && v.Valid()
      && y.pixels != u.pixels && y.pixels != v.pixels && u.pixels != v.pixels
    }

    /** `GetWritePtr(id)` and its geometry: `PLANAR_U` and `PLANAR_V` name the chroma planes, anything else the first plane. */
    function PlaneOf(id: int): (p: Plane)
      ensures p == y || p == u || p == v
    {
      if id == PLANAR_U then u else if id == PLANAR_V then v else y
    }
  }

  /** The identifiers of the three planes of a planar frame. */
  predicate IsPlaneId(id: int) { id == PLANAR_Y || id == PLANAR_U || id == PLANAR_V }

  /** Distinct plane identifiers name distinct planes of a valid frame. */
  lemma DistinctPlanes(frame: Frame, a: int, b: int)
    requires frame.Valid() && IsPlaneId(a) && IsPlaneId(b) && a != b
    ensures frame.PlaneOf(a).pixels != frame.PlaneOf(b).pixels
  {
  }

  // ------------------------------------------------------------ row geometry

  /** Where row `r` starts among rows `width` bytes apart, counted up row by row (it is `r * width`). */
  function RowStart(r: nat, width: nat): nat
  {
    if r == 0 then 0 else RowStart(r - 1, width) + width
  }

  lemma {:induction false} RowStartIsProduct(r: nat, width: nat)
    ensures RowStart(r, width) == r * width
  {
    if r > 0 {
      RowStartIsProduct(r - 1, width);
      assert (r - 1) * width + width == r * width;
    }
  }

  lemma {:induction false} RowStartMonotone(a: nat, b: nat, width: nat)
    requires a <= b
    ensures RowStart(a, width) <= RowStart(b, width)
  {
    if a < b {
      RowStartMonotone(a, b - 1, width);
    }
  }

  /** Row `r` of `height` rows ends no later than the last of them. */
  lemma RowStartBound(r: nat, height: nat, width: nat)
    requires r < height
    ensures RowStart(r, width) + width <= RowStart(height, width)
  {
    RowStartMonotone(r + 1, height, width);
  }

  /** Each of `rows` rows, `width` bytes apart, ends within `len` bytes. */
  predicate RowsFit(rows: nat, width: nat, len: nat)
  {
    forall r :: 0 <= r < rows ==> RowStart(r, width) + width <= len
  }

  /** `rows` rows of `width` bytes fit any buffer of `rows * width` bytes or more. */
  lemma RowsFitIn(rows: nat, width: nat, len: nat)
    requires rows * width <= len
    ensures RowsFit(rows, width, len)
  {
    RowStartIsProduct(rows, width);
    forall r | 0 <= r < rows
      ensures RowStart(r, width) + width <= len
    {
      RowStartBound(r, rows, width);
    }
  }

  /** Row `r` of a picture area read from logical file position `at`, rows `width` bytes long, zero past the end of the file. */
  function FileRow(data: seq<byte>, at: int, width: nat, r: nat): (row: seq<byte>)
    ensures |row| == width
    ensures forall c :: 0 <= c < width ==> row[c] == ByteAt(data, at + RowStart(r, width) + c)
  {
    ZeroPadded(data, at + RowStart(r, width), width)
  }

  /** Byte `c` of row `r` of a zero-padded read of `height` rows is byte `c` of that row of the file. */
  lemma PaddedCell(bytes: seq<byte>, data: seq<byte>, at: int, width: nat, height: nat, r: nat, c: nat)
    requires bytes == ZeroPadded(data, at, width * height) && r < height && c < width
    ensures RowStart(r, width) + c < |bytes| && bytes[RowStart(r, width) + c] == FileRow(data, at, width, r)[c]
  {
    RowStartBound(r, height, width);
    RowStartIsProduct(height, width);
  }

  /** A row of a zero-padded read of `height` rows is that row of the file. */
  lemma PaddedRow(bytes: seq<byte>, data: seq<byte>, at: int, width: nat, height: nat, r: nat)
    requires bytes == ZeroPadded(data, at, width * height) && r < height
    ensures RowStart(r, width) + width <= |bytes|
    ensures bytes[RowStart(r, width)..RowStart(r, width) + width] == FileRow(data, at, width, r)
  {
    RowStartBound(r, height, width);
    RowStartIsProduct(height, width);
  }

  // ------------------------------------------------------------ row copies

  /** Nothing of `a` changed outside its first `rows` rows and first `cols` columns. */
  twostate predicate KeptOutside(a: array2<byte>, rows: nat, cols: nat)
    reads a
  {
    forall r, c :: 0 <= r < a.Length0 && 0 <= c < a.Length1 && (rows <= r || cols <= c) ==> a[r, c] == old(a[r, c])
  }

  /** No column past the row size changed: the pitch padding is left alone. */
  twostate predicate PaddingKept(p: Plane)
    reads p.pixels
  {
    KeptOutside(p.pixels, p.pixels.Length0, p.rowSize)
  }

  /** `memcpy` of `n` bytes from `src[from..]` into row `i` of `dst`. */
  method CopyRow(dst: array2<byte>, i: nat, src: array<byte>, from: nat, n: nat)
    requires i < dst.Length0 && n <= dst.Length1 && from + n <= src.Length
    modifies dst
    ensures forall c :: 0 <= c < n ==> dst[i, c] == src[from + c]
    ensures forall r, c :: 0 <= r < dst.Length0 && 0 <= c < dst.Length1 && (r != i || n <= c) ==>
              dst[r, c] == old(dst[r, c])
  {
    var c := 0;
    while c < n
      invariant c <= n
      invariant forall c' :: 0 <= c' < c ==> dst[i, c'] == src[from + c']
      invariant forall r, c' :: 0 <= r < dst.Length0 && 0 <= c' < dst.Length1 && (r != i || c <= c') ==>
                  dst[r, c'] == old(dst[r, c'])
    {
      dst[i, c] := src[from + c];
      c := c + 1;
    }
  }

  /**
   * `BitBlt` from a buffer whose rows are `rowSize` bytes apart: the first
   * `rowSize` columns of the first `height` rows of `dst` take the buffer's
   * rows; everything else of `dst` is left as it was.
   */
  method BitBlt(dst: array2<byte>, src: array<byte>, rowSize: nat, height: nat)
    requires height <= dst.Length0 && rowSize <= dst.Length1 && RowsFit(height, rowSize, src.Length)
    modifies dst
    ensures forall r, c :: 0 <= r < height && 0 <= c < rowSize ==> dst[r, c] == src[RowStart(r, rowSize) + c]
    ensures KeptOutside(dst, height, rowSize)
  {
    var i := 0;
    var from := 0;
    while i < height
      invariant i <= height && from == RowStart(i, rowSize)
      invariant forall r, c :: 0 <= r < i && 0 <= c < rowSize ==> dst[r, c] == src[RowStart(r, rowSize) + c]
      invariant KeptOutside(dst, i, rowSize)
    {
      CopyRow(dst, i, src, from, rowSize);
      i := i + 1;
      from := from + rowSize;
    }
  }

  // ------------------------------------------------------------ whole planes

  /** Bytes of a plane's picture area. */
  function PlaneSize(p: Plane): nat { p.rowSize * p.Height() }

  /** Row `r` of the picture area of `p` is row `r` of the file's bytes at `from`. */
  predicate PlaneHolds(p: Plane, data: seq<byte>, from: int)
    requires p.Valid()
    reads p.pixels
  {
    forall r, c :: 0 <= r < p.Height() && 0 <= c < p.rowSize ==> p.pixels[r, c] == FileRow(data, from, p.rowSize, r)[c]
  }

  /** The writers' plane step: clear and read a whole plane's bytes, then `BitBlt` them in. */
  method ReadPlane(file: RawFile, p: Plane, buff: array<byte>, ghost from: int)
    requires p.Valid() && file.ReadsAt(from) && PlaneSize(p) <= buff.Length
    modifies file, buff, p.pixels
    ensures file.ReadsAt(from + PlaneSize(p))
    ensures PlaneHolds(p, file.data, from) && PaddingKept(p)
  {
    var width, height := p.rowSize, p.Height();
    file.ZeroAndRead(buff, width * height, from);
    RowsFitIn(height, width, buff.Length);
    BitBlt(p.pixels, buff, width, height);
    forall r, c | 0 <= r < height && 0 <= c < width
      ensures p.pixels[r, c] == FileRow(file.data, from, width, r)[c]
    {
      PaddedCell(buff[..width * height], file.data, from, width, height, r, c);
    }
  }

  /**
   * `write_packed`: one read of the whole frame, then a straight copy; row
   * `r` of the plane is the `rowSize` file bytes that follow the `r` rows
   * before it, zero past the end of the file, and the pitch padding is kept.
   */
  method WritePacked(file: RawFile, frame: Frame, buff: array<byte>, ghost at: int)
    requires frame.Valid() && file.ReadsAt(at) && PlaneSize(frame.y) <= buff.Length
    modifies file, buff, frame.y.pixels
    ensures file.ReadsAt(at + PlaneSize(frame.y))
    ensures PlaneHolds(frame.y, file.data, at) && PaddingKept(frame.y)
  {
    ReadPlane(file, frame.y, buff, at);
  }

  /** The bytes the planes `order[0..i)` take in the file, one after the other. */
  function PlanesBefore(frame: Frame, order: seq<int>, i: nat): nat
    requires i <= |order|
  {
    if i == 0 then 0 else PlanesBefore(frame, order, i - 1) + PlaneSize(frame.PlaneOf(order[i - 1]))
  }

  /** Plane identifiers in frame order, each named once. */
  predicate PlaneOrder(order: seq<int>, count: nat)
  {
    && count <= |order|
    && (forall i :: 0 <= i < count ==> IsPlaneId(order[i]))
    && (forall i, j :: 0 <= i < j < count ==> order[i] != order[j])
  }

  /** Plane `order[i]` holds the file bytes that follow the planes before it in `order`. */
  predicate PlaneAt(frame: Frame, data: seq<byte>, at: int, order: seq<int>, i: nat)
    requires frame.Valid() && i < |order|
    reads frame.y.pixels, frame.u.pixels, frame.v.pixels
  {
    PlaneHolds(frame.PlaneOf(order[i]), data, at + PlanesBefore(frame, order, i))
  }

  /** Each plane `order[i]`, `i < count`, holds the file bytes that follow the planes before it in `order`. */
  predicate PlanesHold(frame: Frame, data: seq<byte>, at: int, order: seq<int>, count: nat)
    requires frame.Valid() && count <= |order|
    reads frame.y.pixels, frame.u.pixels, frame.v.pixels
  {
    forall i :: 0 <= i < count ==> PlaneAt(frame, data, at, order, i)
  }

  /** The planes that `order[0..count)` does not name keep every byte. */
  twostate predicate UnnamedKept(frame: Frame, order: seq<int>, count: nat)
    requires count <= |order|
    reads frame.y.pixels, frame.u.pixels, frame.v.pixels
  {
    && (PLANAR_Y !in order[..count] ==> unchanged(frame.y.pixels))
    && (PLANAR_U !in order[..count] ==> unchanged(frame.u.pixels))
    && (PLANAR_V !in order[..count] ==> unchanged(frame.v.pixels))
  }

  /** The pixel arrays of the planes `order[0..count)` names. */
  function NamedPixels(frame: Frame, order: seq<int>, count: nat): set<array2<byte>>
    requires count <= |order|
  {
    set i | 0 <= i < count :: frame.PlaneOf(order[i]).pixels
  }

  /** A plane the order does not name is none of the named planes. */
  lemma UnnamedOutside(frame: Frame, order: seq<int>, count: nat, id: int)
    requires frame.Valid() && PlaneOrder(order, count) && IsPlaneId(id) && id !in order[..count]
    ensures frame.PlaneOf(id).pixels !in NamedPixels(frame, order, count)
  {
    forall i | 0 <= i < count
      ensures frame.PlaneOf(order[i]).pixels != frame.PlaneOf(id).pixels
    {
      assert order[i] in order[..count];
      DistinctPlanes(frame, order[i], id);
    }
  }

  /** Plane `order[i]` read whole after the planes before it; the planes already read keep what they hold. */
  method ReadNamedPlane(file: RawFile, frame: Frame, buff: array<byte>, order: seq<int>, count: nat, i: nat, ghost at: int)
    requires frame.Valid() && PlaneOrder(order, count) && i < count && PlaneSize(frame.PlaneOf(order[i])) <= buff.Length
    requires file.ReadsAt(at + PlanesBefore(frame, order, i)) && PlanesHold(frame, file.data, at, order, i)
    modifies file, buff, frame.PlaneOf(order[i]).pixels
    ensures file.ReadsAt(at + PlanesBefore(frame, order, i + 1)) && PlanesHold(frame, file.data, at, order, i + 1)
    ensures PaddingKept(frame.PlaneOf(order[i]))
  {
    var p := frame.PlaneOf(order[i]);
    ghost var from := at + PlanesBefore(frame, order, i);
    label before:
    ReadPlane(file, p, buff, from);
    forall i' | 0 <= i' < i
      ensures PlaneAt(frame, file.data, at, order, i')
    {
      DistinctPlanes(frame, order[i'], order[i]);
      assert old@before(PlaneAt(frame, file.data, at, order, i'));
      assert old@before(PlaneHolds(frame.PlaneOf(order[i']), file.data, at + PlanesBefore(frame, order, i')));
      assert PlaneHolds(frame.PlaneOf(order[i']), file.data, at + PlanesBefore(frame, order, i'));
    }
    assert PlaneAt(frame, file.data, at, order, i);
  }

  /**
   * `write_planar`: the planes `order[0..count)` are read one after the
   * other, each read whole and copied, so each holds the file bytes that
   * follow the planes before it; only named planes change (UnnamedKept), and no padding.
   */
  method WritePlanar(file: RawFile, frame: Frame, buff: array<byte>, order: seq<int>, count: nat, ghost at: int)
    requires frame.Valid() && file.ReadsAt(at) && PlaneOrder(order, count)
    requires forall i :: 0 <= i < count ==> PlaneSize(frame.PlaneOf(order[i])) <= buff.Length
    modifies file, buff, frame.y.pixels, frame.u.pixels, frame.v.pixels
    ensures file.ReadsAt(at + PlanesBefore(frame, order, count))
    ensures PlanesHold(frame, file.data, at, order, count)
    ensures PaddingKept(frame.y) && PaddingKept(frame.u) && PaddingKept(frame.v)
    ensures UnnamedKept(frame, order, count)
  {
    var i := 0;
    while i < count
      invariant i <= count && file.ReadsAt(at + PlanesBefore(frame, order, i))
      invariant PlanesHold(frame, file.data, at, order, i)
      invariant PaddingKept(frame.y) && PaddingKept(frame.u) && PaddingKept(frame.v)
      modifies file, buff, NamedPixels(frame, order, count)
    {
      assert frame.PlaneOf(order[i]).pixels in NamedPixels(frame, order, count);
      ReadNamedPlane(file, frame, buff, order, count, i, at);
      i := i + 1;
    }
    if PLANAR_Y !in order[..count] { UnnamedOutside(frame, order, count, PLANAR_Y); }
    if PLANAR_U !in order[..count] { UnnamedOutside(frame, order, count, PLANAR_U); }
    if PLANAR_V !in order[..count] { UnnamedOutside(frame, order, count, PLANAR_V); }
  }

  // ------------------------------------------------------------ byte reordering

  /** A byte order for groups of `count` bytes: each entry picks a byte of the group. */
  predicate ByteOrder(order: seq<int>, count: nat)
  {
    1 <= count <= |order| && forall k :: 0 <= k < count ==> 0 <= order[k] < count
  }

  /** The groups of `count` bytes that fit a row of `width` bytes fit it: `(width / count) * count <= width`. */
  lemma GroupsFit(width: nat, count: nat)
    requires count >= 1
    ensures RowStart(width / count, count) <= width
  {
    RowStartIsProduct(width / count, count);
  }

  /** One group with its bytes taken in `order`. */
  function Permute(group: seq<byte>, order: seq<int>, count: nat): (r: seq<byte>)
    requires ByteOrder(order, count) && |group| == count
    ensures |r| == count && forall k :: 0 <= k < count ==> r[k] == group[order[k]]
  {
    seq<byte>(count, k requires 0 <= k < count => group[order[k]])
  }

  /** The first `n` groups of `row`, each permuted. */
  function ReorderedGroups(row: seq<byte>, order: seq<int>, count: nat, n: nat): (r: seq<byte>)
    requires ByteOrder(order, count) && RowStart(n, count) <= |row|
    ensures |r| == RowStart(n, count)
  {
    if n == 0 then []
    else
      RowStartMonotone(n - 1, n, count);
      ReorderedGroups(row, order, count, n - 1) + Permute(row[RowStart(n - 1, count)..RowStart(n, count)], order, count)
  }

  /** A row with the bytes of every whole group of `count` put in `order`; a partial last group is dropped. */
  function Reordered(row: seq<byte>, order: seq<int>, count: nat): (r: seq<byte>)
    requires ByteOrder(order, count)
    ensures |r| == RowStart(|row| / count, count) <= |row|
  {
    GroupsFit(|row|, count);
    ReorderedGroups(row, order, count, |row| / count)
  }

  /** Byte `k` of group `j` of the reordered row is byte `order[k]` of group `j` of the row. */
  lemma {:induction false} ReorderedGroupsAt(row: seq<byte>, order: seq<int>, count: nat, n: nat, j: nat, k: nat)
    requires ByteOrder(order, count) && RowStart(n, count) <= |row| && j < n && k < count
    ensures RowStart(j, count) + count <= RowStart(n, count)
    ensures ReorderedGroups(row, order, count, n)[RowStart(j, count) + k] == row[RowStart(j, count) + order[k]]
  {
    RowStartBound(j, n, count);
    RowStartMonotone(n - 1, n, count);
    var prev := ReorderedGroups(row, order, count, n - 1);
    var group := row[RowStart(n - 1, count)..RowStart(n, count)];
    assert ReorderedGroups(row, order, count, n) == prev + Permute(group, order, count);
    if j < n - 1 {
      ReorderedGroupsAt(row, order, count, n - 1, j, k);
      RowStartBound(j, n - 1, count);
      assert ReorderedGroups(row, order, count, n)[RowStart(j, count) + k] == prev[RowStart(j, count) + k];
    } else {
      assert Permute(group, order, count)[k] == group[order[k]];
    }
  }

  lemma ReorderedAt(row: seq<byte>, order: seq<int>, count: nat, j: nat, k: nat)
    requires ByteOrder(order, count) && j < |row| / count && k < count
    ensures RowStart(j, count) + k < |Reordered(row, order, count)|
    ensures RowStart(j, count) + order[k] < |row|
    ensures Reordered(row, order, count)[RowStart(j, count) + k] == row[RowStart(j, count) + order[k]]
  {
    GroupsFit(|row|, count);
    RowStartBound(j, |row| / count, count);
    ReorderedGroupsAt(row, order, count, |row| / count, j, k);
  }

  /** A prefix followed by the slice after it is the longer prefix. */
  lemma PrefixGrows(s: seq<byte>, a: nat, b: nat)
    requires a <= b <= |s|
    ensures s[..a] + s[a..b] == s[..b]
  {
  }

  lemma PermuteByIdentity(group: seq<byte>, order: seq<int>, count: nat)
    requires ByteOrder(order, count) && |group| == count && forall k :: 0 <= k < count ==> order[k] == k
    ensures Permute(group, order, count) == group
  {
    assert forall k :: 0 <= k < count ==> Permute(group, order, count)[k] == group[k];
  }

  /** With the identity order the first `n` groups are copied unchanged. */
  lemma {:induction false} IdentityGroups(row: seq<byte>, order: seq<int>, count: nat, n: nat)
    requires ByteOrder(order, count) && RowStart(n, count) <= |row| && forall k :: 0 <= k < count ==> order[k] == k
    ensures ReorderedGroups(row, order, count, n) == row[..RowStart(n, count)]
  {
    if n > 0 {
      RowStartMonotone(n - 1, n, count);
      IdentityGroups(row, order, count, n - 1);
      var a, b := RowStart(n - 1, count), RowStart(n, count);
      var g := row[a..b];
      assert ReorderedGroups(row, order, count, n) == ReorderedGroups(row, order, count, n - 1) + Permute(g, order, count);
      PermuteByIdentity(g, order, count);
      PrefixGrows(row, a, b);
    }
  }

  /** With the identity order the reorder is a straight copy of the row's whole groups, as `write_packed` does. */
  lemma ReorderedByIdentity(row: seq<byte>, order: seq<int>, count: nat)
    requires ByteOrder(order, count) && forall k :: 0 <= k < count ==> order[k] == k
    ensures RowStart(|row| / count, count) <= |row|
    ensures Reordered(row, order, count) == row[..RowStart(|row| / count, count)]
  {
    GroupsFit(|row|, count);
    IdentityGroups(row, order, count, |row| / count);
  }

  lemma MulAtLeast(a: int, d: int)
    requires a >= 1 && d >= 1
    ensures a * d >= d
  {
  }

  /** Euclidean division has one quotient and one remainder. */
  lemma DivUnique(x: int, d: int, q: int, r: int)
    requires d >= 1 && 0 <= r < d && x == q * d + r
    ensures x / d == q && x % d == r
  {
    var q', r' := x / d, x % d;
    assert x == q' * d + r';
    assert (q' - q) * d == r - r';
    if q' > q {
      MulAtLeast(q' - q, d);
    } else if q' < q {
      MulAtLeast(q - q', d);
    }
  }

  /** Whole groups of `count` bytes fill `n * count` bytes: `(n * count) / count == n`. */
  lemma WholeGroupCount(n: nat, count: nat)
    requires count >= 1
    ensures RowStart(n, count) / count == n
  {
    RowStartIsProduct(n, count);
    DivUnique(n * count, count, n, 0);
  }

  /** A product with a positive factor keeps the order of the other factor. */
  lemma ProductOrder(a: nat, b: nat, c: nat)
    requires c >= 1 && a * c < b * c
    ensures a < b
  {
    assert (b - a) * c == b * c - a * c;
  }

  /** Byte `i` of the first `n` whole groups is byte `k` of group `j`: `j` is `i / count`, `k` is `i % count`. */
  lemma GroupOfByte(i: nat, n: nat, count: nat) returns (j: nat, k: nat)
    requires count >= 1 && i < RowStart(n, count)
    ensures j < n && k < count && i == RowStart(j, count) + k
  {
    j, k := i / count, i % count;
    RowStartIsProduct(n, count);
    RowStartIsProduct(j, count);
    assert j * count <= i;
    ProductOrder(j, n, count);
  }

  /** Byte `k` of group `j`, reordered by `order` and then by its inverse, is the row's own byte. */
  lemma InverseAt(row: seq<byte>, order: seq<int>, inverse: seq<int>, count: nat, j: nat, k: nat)
    requires ByteOrder(order, count) && ByteOrder(inverse, count)
    requires forall k :: 0 <= k < count ==> order[inverse[k]] == k
    requires j < |row| / count && k < count
    ensures RowStart(j, count) + k < |row|
    ensures RowStart(j, count) + k < |Reordered(Reordered(row, order, count), inverse, count)|
    ensures Reordered(Reordered(row, order, count), inverse, count)[RowStart(j, count) + k] == row[RowStart(j, count) + k]
  {
    var m := Reordered(row, order, count);
    WholeGroupCount(|row| / count, count);
    ReorderedAt(m, inverse, count, j, k);
    ReorderedAt(row, order, count, j, inverse[k]);
    assert order[inverse[k]] == k;
  }

  /**
   * Reordering by `order` and then by its inverse gives back the whole
   * groups of the row: a byte order that a writer applies, the inverse order
   * undoes (for a partial last group there is nothing to undo; it is dropped).
   */
  lemma ReorderedByInverse(row: seq<byte>, order: seq<int>, inverse: seq<int>, count: nat)
    requires ByteOrder(order, count) && ByteOrder(inverse, count)
    requires forall k :: 0 <= k < count ==> order[inverse[k]] == k
    ensures RowStart(|row| / count, count) <= |row|
    ensures Reordered(Reordered(row, order, count), inverse, count) == row[..RowStart(|row| / count, count)]
  {
    var n := |row| / count;
    var back := Reordered(Reordered(row, order, count), inverse, count);
    WholeGroupCount(n, count);
    assert |back| == RowStart(n, count);
    forall i | 0 <= i < |back|
      ensures back[i] == row[i]
    {
      var j, k := GroupOfByte(i, n, count);
      InverseAt(row, order, inverse, count, j, k);
    }
  }

  /** A width that is a whole number of groups loses nothing to the reorder. */
  lemma WholeGroupsAreKept(row: seq<byte>, order: seq<int>, count: nat)
    requires ByteOrder(order, count) && |row| % count == 0
    ensures |Reordered(row, order, count)| == |row|
  {
    RowStartIsProduct(|row| / count, count);
  }

  /** The innermost loop of `write_packed_reorder`: one group of `count` bytes, taken from `src[from..]` in `order`, into row `i` at column `at`. */
  method PermuteGroup(dst: array2<byte>, i: nat, at: nat, src: array<byte>, from: nat, order: seq<int>, count: nat)
    requires ByteOrder(order, count) && i < dst.Length0 && at + count <= dst.Length1 && from + count <= src.Length
    modifies dst
    ensures forall k :: 0 <= k < count ==> dst[i, at + k] == src[from + order[k]]
    ensures forall r, c :: 0 <= r < dst.Length0 && 0 <= c < dst.Length1 && (r != i || c < at || at + count <= c) ==>
              dst[r, c] == old(dst[r, c])
  {
    var k := 0;
    while k < count
      invariant k <= count
      invariant forall k' :: 0 <= k' < k ==> dst[i, at + k'] == src[from + order[k']]
      invariant forall r, c :: 0 <= r < dst.Length0 && 0 <= c < dst.Length1 && (r != i || c < at || at + k <= c) ==>
                  dst[r, c] == old(dst[r, c])
    {
      dst[i, at + k] := src[from + order[k]];
      k := k + 1;
    }
  }

  /** Group `j` of the reordered row, cell by cell. */
  lemma ReorderedGroup(row: seq<byte>, order: seq<int>, count: nat, j: nat)
    requires ByteOrder(order, count) && j < |row| / count
    ensures RowStart(j, count) + count <= |Reordered(row, order, count)| <= |row|
    ensures forall c :: RowStart(j, count) <= c < RowStart(j, count) + count ==>
              0 <= order[c - RowStart(j, count)] < count && Reordered(row, order, count)[c] == row[RowStart(j, count) + order[c - RowStart(j, count)]]
  {
    GroupsFit(|row|, count);
    RowStartBound(j, |row| / count, count);
    var g := RowStart(j, count);
    forall c | g <= c < g + count
      ensures Reordered(row, order, count)[c] == row[g + order[c - g]]
    {
      ReorderedAt(row, order, count, j, c - g);
    }
  }

  /** Row `r` of `a` starts with the bytes `want`. */
  predicate RowHolds(a: array2<byte>, r: nat, want: seq<byte>)
    reads a
  {
    r < a.Length0 && |want| <= a.Length1 && forall c :: 0 <= c < |want| ==> a[r, c] == want[c]
  }

  /** The inner two loops of `write_packed_reorder` for one row: group after group. */
  method ReorderRow(dst: array2<byte>, i: nat, src: array<byte>, from: nat, width: nat, order: seq<int>, count: nat, ghost row: seq<byte>)
    requires ByteOrder(order, count) && i < dst.Length0 && width <= dst.Length1
    requires from + width <= src.Length && |row| == width && forall c :: 0 <= c < width ==> src[from + c] == row[c]
    modifies dst
    ensures RowHolds(dst, i, Reordered(row, order, count))
    ensures forall r, c :: 0 <= r < dst.Length0 && 0 <= c < dst.Length1 && (r != i || |Reordered(row, order, count)| <= c) ==>
              dst[r, c] == old(dst[r, c])
  {
    ghost var want := Reordered(row, order, count);
    var groups := width / count;
    var j := 0;
    var g := 0;
    while j < groups
      invariant j <= groups && g == RowStart(j, count) <= |want|
      invariant forall c :: 0 <= c < g ==> dst[i, c] == want[c]
      invariant forall r, c :: 0 <= r < dst.Length0 && 0 <= c < dst.Length1 && (r != i || g <= c) ==> dst[r, c] == old(dst[r, c])
    {
      ReorderedGroup(row, order, count, j);
      PermuteGroup(dst, i, g, src, from + g, order, count);
      j := j + 1;
      g := g + count;
    }
  }

  /** Every picture row of `p` holds the matching file row with its whole groups reordered. */
  predicate ReorderHolds(p: Plane, data: seq<byte>, from: int, order: seq<int>, count: nat)
    requires p.Valid() && ByteOrder(order, count)
    reads p.pixels
  {
    forall r, c :: 0 <= r < p.Height() && 0 <= c < |Reordered(FileRow(data, from, p.rowSize, r), order, count)| ==>
      p.pixels[r, c] == Reordered(FileRow(data, from, p.rowSize, r), order, count)[c]
  }

  /** The columns the reorder writes in each row of `p`: the whole groups of `count` bytes. */
  function GroupedColumns(p: Plane, count: nat): nat
    requires count >= 1
  {
    RowStart(p.rowSize / count, count)
  }

  /** Row `i` of the one-read buffer, its whole groups put in `order`. */
  method ReorderBufferedRow(dst: array2<byte>, i: nat, buff: array<byte>, from: nat, width: nat, height: nat,
                            order: seq<int>, count: nat, ghost data: seq<byte>, ghost at: int)
    requires ByteOrder(order, count) && i < height && i < dst.Length0 && width <= dst.Length1 && from == RowStart(i, width)
    requires width * height <= buff.Length && buff[..width * height] == ZeroPadded(data, at, width * height)
    modifies dst
    ensures RowHolds(dst, i, Reordered(FileRow(data, at, width, i), order, count))
    ensures forall r, c :: 0 <= r < dst.Length0 && 0 <= c < dst.Length1 && (r != i || RowStart(width / count, count) <= c) ==>
              dst[r, c] == old(dst[r, c])
  {
    ghost var bytes := buff[..width * height];
    ghost var row := FileRow(data, at, width, i);
    PaddedRow(bytes, data, at, width, height, i);
    forall c | 0 <= c < width
      ensures buff[from + c] == row[c]
    {
      assert bytes[from..from + width][c] == bytes[from + c];
    }
    ReorderRow(dst, i, buff, from, width, order, count, row);
  }

  /**
   * `write_packed_reorder`: one read of the whole frame, then every whole
   * group of `count` bytes of every row is put in `order`; the trailing
   * `rowSize % count` bytes of a row and the pitch padding are not written.
   */
  method WritePackedReorder(file: RawFile, frame: Frame, buff: array<byte>, order: seq<int>, count: nat, ghost at: int)
    requires frame.Valid() && file.ReadsAt(at) && ByteOrder(order, count) && PlaneSize(frame.y) <= buff.Length
    modifies file, buff, frame.y.pixels
    ensures file.ReadsAt(at + PlaneSize(frame.y))
    ensures ReorderHolds(frame.y, file.data, at, order, count)
    ensures KeptOutside(frame.y.pixels, frame.y.Height(), GroupedColumns(frame.y, count))
  {
    var dst, width, height := frame.y.pixels, frame.y.rowSize, frame.y.Height();
    RowStartIsProduct(height, width);
    file.ZeroAndRead(buff, width * height, at);
    ghost var bytes := buff[..width * height];
    ghost var data := file.data;
    var i := 0;
    var from := 0;
    while i < height
      invariant i <= height && from == RowStart(i, width)
      invariant buff[..width * height] == bytes && file.ReadsAt(at + width * height)
      invariant forall r :: 0 <= r < i ==> RowHolds(dst, r, Reordered(FileRow(data, at, width, r), order, count))
      invariant KeptOutside(dst, i, GroupedColumns(frame.y, count))
    {
      label before:
      ReorderBufferedRow(dst, i, buff, from, width, height, order, count, data, at);
      forall r | 0 <= r < i
        ensures RowHolds(dst, r, Reordered(FileRow(data, at, width, r), order, count))
      {
        assert old@before(RowHolds(dst, r, Reordered(FileRow(data, at, width, r), order, count)));
      }
      i := i + 1;
      from := from + width;
    }
    forall r, c | 0 <= r < height && 0 <= c < |Reordered(FileRow(data, at, width, r), order, count)|
      ensures dst[r, c] == Reordered(FileRow(data, at, width, r), order, count)[c]
    {
      assert RowHolds(dst, r, Reordered(FileRow(data, at, width, r), order, count));
    }
  }

  // ------------------------------------------------------------ chroma de-interleaving

  /** The bytes at even positions: the first chroma component of each interleaved pair. */
  function Evens(s: seq<byte>): (r: seq<byte>)
    ensures |r| == |s| / 2 && forall j :: 0 <= j < |r| ==> r[j] == s[2 * j]
  {
    if |s| < 2 then [] else [s[0]] + Evens(s[2..])
  }

  /** The bytes at odd positions: the second chroma component of each interleaved pair. */
  function Odds(s: seq<byte>): (r: seq<byte>)
    ensures |r| == |s| / 2 && forall j :: 0 <= j < |r| ==> r[j] == s[2 * j + 1]
  {
    if |s| < 2 then [] else [s[1]] + Odds(s[2..])
  }

  /** Two chroma rows put back into pairs, as an NV12 file stores them. */
  function Interleave(a: seq<byte>, b: seq<byte>): (r: seq<byte>)
    requires |a| == |b|
    ensures |r| == 2 * |a| && forall j :: 0 <= j < |a| ==> r[2 * j] == a[j] && r[2 * j + 1] == b[j]
  {
    if |a| == 0 then [] else [a[0], b[0]] + Interleave(a[1..], b[1..])
  }

  /** De-interleaving recovers both rows that were interleaved. */
  lemma SplitInterleave(a: seq<byte>, b: seq<byte>)
    requires |a| == |b|
    ensures Evens(Interleave(a, b)) == a && Odds(Interleave(a, b)) == b
  {
  }

  /** De-interleaving an even-length row loses nothing: interleaving the halves gives it back. */
  lemma {:induction false} InterleaveSplit(s: seq<byte>)
    requires |s| % 2 == 0
    ensures Interleave(Evens(s), Odds(s)) == s
  {
    if |s| >= 2 {
      var e, o := Evens(s), Odds(s);
      assert e == [s[0]] + Evens(s[2..]) && o == [s[1]] + Odds(s[2..]);
      assert e[1..] == Evens(s[2..]) && o[1..] == Odds(s[2..]);
      InterleaveSplit(s[2..]);
      assert Interleave(e, o) == [s[0], s[1]] + s[2..];
    }
  }

  /** The inner loop of the NV12 writers: `pairs` interleaved pairs from `src[from..]` split into row `i` of two planes. */
  method DeinterleaveRow(c1: array2<byte>, c2: array2<byte>, i: nat, src: array<byte>, from: nat, pairs: nat, ghost row: seq<byte>)
    requires c1 != c2 && i < c1.Length0 && i < c2.Length0 && pairs <= c1.Length1 && pairs <= c2.Length1
    requires from + 2 * pairs <= src.Length && |row| == 2 * pairs && forall c :: 0 <= c < 2 * pairs ==> src[from + c] == row[c]
    modifies c1, c2
    ensures forall j :: 0 <= j < pairs ==> c1[i, j] == Evens(row)[j] && c2[i, j] == Odds(row)[j]
    ensures forall r, c :: 0 <= r < c1.Length0 && 0 <= c < c1.Length1 && (r != i || pairs <= c) ==> c1[r, c] == old(c1[r, c])
    ensures forall r, c :: 0 <= r < c2.Length0 && 0 <= c < c2.Length1 && (r != i || pairs <= c) ==> c2[r, c] == old(c2[r, c])
  {
    var j := 0;
    while j < pairs
      invariant j <= pairs
      invariant forall j' :: 0 <= j' < j ==> c1[i, j'] == Evens(row)[j'] && c2[i, j'] == Odds(row)[j']
      invariant forall r, c :: 0 <= r < c1.Length0 && 0 <= c < c1.Length1 && (r != i || j <= c) ==> c1[r, c] == old(c1[r, c])
      invariant forall r, c :: 0 <= r < c2.Length0 && 0 <= c < c2.Length1 && (r != i || j <= c) ==> c2[r, c] == old(c2[r, c])
    {
      c1[i, j] := src[from + 2 * j];
      c2[i, j] := src[from + 2 * j + 1];
      j := j + 1;
    }
  }

  /** Chroma row `r` of an interleaved area at `from` whose rows are `stride` bytes apart: `pairs` pairs, zero past the end of the file. */
  function ChromaRow(data: seq<byte>, from: int, stride: nat, pairs: nat, r: nat): (row: seq<byte>)
    ensures |row| == 2 * pairs
    ensures forall c :: 0 <= c < 2 * pairs ==> row[c] == ByteAt(data, from + RowStart(r, stride) + c)
  {
    ZeroPadded(data, from + RowStart(r, stride), 2 * pairs)
  }

  /** The first `rows` rows of `c1` and `c2` hold the two components of the matching interleaved chroma rows. */
  predicate ChromaHolds(c1: array2<byte>, c2: array2<byte>, data: seq<byte>, from: int, stride: nat, pairs: nat, rows: nat)
    reads c1, c2
  {
    forall r :: 0 <= r < rows ==>
      RowHolds(c1, r, Evens(ChromaRow(data, from, stride, pairs, r))) && RowHolds(c2, r, Odds(ChromaRow(data, from, stride, pairs, r)))
  }

  /** Each of `rows` chroma rows `stride` bytes apart, `pairs` pairs long, fits in `len` bytes. */
  predicate ChromaFits(rows: nat, stride: nat, pairs: nat, len: nat)
  {
    forall r :: 0 <= r < rows ==> RowStart(r, stride) + 2 * pairs <= len
  }

  /** Products grow with both factors. */
  lemma MulLe(a: nat, b: nat, c: nat, d: nat)
    requires a <= b && c <= d
    ensures a * c <= b * d
  {
    RowStartIsProduct(a, c);
    RowStartIsProduct(b, c);
    RowStartIsProduct(c, b);
    RowStartIsProduct(d, b);
    RowStartMonotone(a, b, c);
    RowStartMonotone(c, d, b);
  }

  /** `write_NV420`'s chroma rows, `width / 2` bytes apart, fit its read of `width * height / 2` bytes. */
  lemma HalfStrideFits(width: nat, height: nat)
    ensures ChromaFits(height / 2, width / 2, width / 2, width * height / 2)
  {
    var hw, hh := width / 2, height / 2;
    MulLe(2 * hw, width, 2 * hh, height);
    assert (2 * hw) * (2 * hh) == 2 * (2 * (hh * hw));
    forall r | 0 <= r < hh
      ensures RowStart(r, hw) + 2 * hw <= width * height / 2
    {
      RowStartIsProduct(r + 2, hw);
      RowStartMonotone(r + 2, 2 * hh, hw);
      RowStartIsProduct(2 * hh, hw);
      assert (2 * hh) * hw == 2 * (hh * hw);
    }
  }

  /** Chroma rows a whole luma row apart, as NV12 stores them, fit the read of `width * height / 2` bytes too. */
  lemma FullStrideFits(width: nat, height: nat)
    ensures ChromaFits(height / 2, width, width / 2, width * height / 2)
  {
    var hw, hh := width / 2, height / 2;
    MulLe(2 * hh, height, width, width);
    assert (2 * hh) * width == 2 * (hh * width);
    forall r | 0 <= r < hh
      ensures RowStart(r, width) + 2 * hw <= width * height / 2
    {
      RowStartMonotone(r + 1, hh, width);
      RowStartIsProduct(hh, width);
    }
  }

  /**
   * The chroma loop of `write_NV420`: row `i` of both planes takes the
   * `pairs` pairs at `RowStart(i, stride)` in a buffer that holds the
   * zero-padded file bytes at `from`.
   */
  method SplitChroma(c1: array2<byte>, c2: array2<byte>, src: array<byte>, n: nat, stride: nat, pairs: nat, rows: nat,
                     ghost data: seq<byte>, ghost from: int)
    requires c1 != c2 && rows <= c1.Length0 && rows <= c2.Length0 && pairs <= c1.Length1 && pairs <= c2.Length1
    requires n <= src.Length && src[..n] == ZeroPadded(data, from, n) && ChromaFits(rows, stride, pairs, n)
    modifies c1, c2
    ensures ChromaHolds(c1, c2, data, from, stride, pairs, rows)
    ensures KeptOutside(c1, rows, pairs) && KeptOutside(c2, rows, pairs)
  {
    var i := 0;
    var at := 0;
    while i < rows
      invariant i <= rows && at == RowStart(i, stride)
      invariant ChromaHolds(c1, c2, data, from, stride, pairs, i)
      invariant KeptOutside(c1, i, pairs) && KeptOutside(c2, i, pairs)
    {
      ghost var row := ChromaRow(data, from, stride, pairs, i);
      assert at + 2 * pairs <= n;
      forall c | 0 <= c < 2 * pairs
        ensures src[at + c] == row[c]
      {
        assert src[..n][at + c] == src[at + c];
      }
      label before:
      DeinterleaveRow(c1, c2, i, src, at, pairs, row);
      forall r | 0 <= r < i
        ensures RowHolds(c1, r, Evens(ChromaRow(data, from, stride, pairs, r)))
        ensures RowHolds(c2, r, Odds(ChromaRow(data, from, stride, pairs, r)))
      {
        assert old@before(RowHolds(c1, r, Evens(ChromaRow(data, from, stride, pairs, r))));
        assert old@before(RowHolds(c2, r, Odds(ChromaRow(data, from, stride, pairs, r))));
      }
      assert RowHolds(c1, i, Evens(row)) && RowHolds(c2, i, Odds(row));
      i := i + 1;
      at := at + stride;
    }
  }

  /** The identifiers of the two chroma planes, in the order the format stores their components. */
  predicate ChromaOrder(order: seq<int>)
  {
    |order| >= 3 && ((order[1] == PLANAR_U && order[2] == PLANAR_V) || (order[1] == PLANAR_V && order[2] == PLANAR_U))
  }

  /**
   * `write_NV420` as written: the luma plane is read and copied whole; then
   * `width * height / 2` chroma bytes are read and chroma row `r` is taken
   * at `r * (width / 2)` in them, half the stride at which NV12 stores its
   * chroma rows. Both chroma planes are stepped by the pitch of the
   * `order[1]` plane, so the two pitches must agree.
   */
  method WriteNV420(file: RawFile, frame: Frame, buff: array<byte>, order: seq<int>, ghost at: int)
    requires frame.Valid() && file.ReadsAt(at) && ChromaOrder(order) && PlaneSize(frame.y) <= buff.Length
    requires frame.y.Height() / 2 <= frame.u.Height() && frame.y.Height() / 2 <= frame.v.Height()
    requires frame.y.rowSize / 2 <= frame.PlaneOf(order[1]).Pitch() == frame.PlaneOf(order[2]).Pitch()
    modifies file, buff, frame.y.pixels, frame.u.pixels, frame.v.pixels
    ensures file.ReadsAt(at + PlaneSize(frame.y) + PlaneSize(frame.y) / 2)
    ensures PlaneHolds(frame.y, file.data, at) && PaddingKept(frame.y)
    ensures ChromaHolds(frame.PlaneOf(order[1]).pixels, frame.PlaneOf(order[2]).pixels, file.data, at + PlaneSize(frame.y),
                        frame.y.rowSize / 2, frame.y.rowSize / 2, frame.y.Height() / 2)
    ensures KeptOutside(frame.PlaneOf(order[1]).pixels, frame.y.Height() / 2, frame.y.rowSize / 2)
    ensures KeptOutside(frame.PlaneOf(order[2]).pixels, frame.y.Height() / 2, frame.y.rowSize / 2)
  {
    var width, height := frame.y.rowSize, frame.y.Height();
    ReadPlane(file, frame.y, buff, at);
    var readSize := width * height / 2;
    file.ZeroAndRead(buff, readSize, at + width * height);
    HalfStrideFits(width, height);
    DistinctPlanes(frame, order[1], order[2]);
    SplitChroma(frame.PlaneOf(order[1]).pixels, frame.PlaneOf(order[2]).pixels, buff, readSize,
                width / 2, width / 2, height / 2, file.data, at + width * height);
  }

  /**
   * `write_NV420` with chroma row `r` taken at `r * width`, a whole luma
   * row apart, as NV12 and NV21 store their interleaved chroma and as the
   * per-row reader of the legacy source does.
   */
  method WriteNV420Corrected(file: RawFile, frame: Frame, buff: array<byte>, order: seq<int>, ghost at: int)
    requires frame.Valid() && file.ReadsAt(at) && ChromaOrder(order) && PlaneSize(frame.y) <= buff.Length
    requires frame.y.Height() / 2 <= frame.u.Height() && frame.y.Height() / 2 <= frame.v.Height()
    requires frame.y.rowSize / 2 <= frame.PlaneOf(order[1]).Pitch() == frame.PlaneOf(order[2]).Pitch()
    modifies file, buff, frame.y.pixels, frame.u.pixels, frame.v.pixels
    ensures file.ReadsAt(at + PlaneSize(frame.y) + PlaneSize(frame.y) / 2)
    ensures PlaneHolds(frame.y, file.data, at) && PaddingKept(frame.y)
    ensures ChromaHolds(frame.PlaneOf(order[1]).pixels, frame.PlaneOf(order[2]).pixels, file.data, at + PlaneSize(frame.y),
                        frame.y.rowSize, frame.y.rowSize / 2, frame.y.Height() / 2)
    ensures KeptOutside(frame.PlaneOf(order[1]).pixels, frame.y.Height() / 2, frame.y.rowSize / 2)
    ensures KeptOutside(frame.PlaneOf(order[2]).pixels, frame.y.Height() / 2, frame.y.rowSize / 2)
  {
    var width, height := frame.y.rowSize, frame.y.Height();
    ReadPlane(file, frame.y, buff, at);
    var readSize := width * height / 2;
    file.ZeroAndRead(buff, readSize, at + width * height);
    FullStrideFits(width, height);
    DistinctPlanes(frame, order[1], order[2]);
    SplitChroma(frame.PlaneOf(order[1]).pixels, frame.PlaneOf(order[2]).pixels, buff, readSize,
                width, width / 2, height / 2, file.data, at + width * height);
  }

  /**
   * A 4x4 NV12 frame whose chroma bytes are 0, 1, ..., 7: its second chroma
   * row is the pairs (4, 5) and (6, 7), but `write_NV420` takes it from
   * bytes 2 to 5, so row 1 of the first chroma plane comes out 2, 4
   * instead of 4, 6.
   */
  lemma HalfStrideMisplacesChroma()
    ensures var data: seq<byte> := [0, 1, 2, 3, 4, 5, 6, 7];
            && Evens(ChromaRow(data, 0, 2, 2, 1)) == [2, 4] && Odds(ChromaRow(data, 0, 2, 2, 1)) == [3, 5]
            && Evens(ChromaRow(data, 0, 4, 2, 1)) == [4, 6] && Odds(ChromaRow(data, 0, 4, 2, 1)) == [5, 7]
  {
    var data: seq<byte> := [0, 1, 2, 3, 4, 5, 6, 7];
    assert RowStart(1, 2) == 2 && RowStart(1, 4) == 4;
    assert ChromaRow(data, 0, 2, 2, 1) == [2, 3, 4, 5];
    assert ChromaRow(data, 0, 4, 2, 1) == [4, 5, 6, 7];
  }

  /** The first `n` bytes of row `r` of `a`. */
  function RowOf(a: array2<byte>, r: nat, n: nat): (row: seq<byte>)
    requires r < a.Length0 && n <= a.Length1
    reads a
    ensures |row| == n && forall c :: 0 <= c < n ==> row[c] == a[r, c]
  {
    seq(n, c requires 0 <= c < n reads a => a[r, c])
  }

  /**
   * Read at the full stride nothing of an NV12 chroma row is lost: the two
   * chroma planes' rows, put back into pairs, are the file's chroma row.
   */
  lemma FullStrideRowsRoundTrip(c1: array2<byte>, c2: array2<byte>, data: seq<byte>, from: int, width: nat, rows: nat, r: nat)
    requires ChromaHolds(c1, c2, data, from, width, width / 2, rows) && r < rows && width % 2 == 0
    ensures r < c1.Length0 && r < c2.Length0 && width / 2 <= c1.Length1 && width / 2 <= c2.Length1
    ensures Interleave(RowOf(c1, r, width / 2), RowOf(c2, r, width / 2)) == ZeroPadded(data, from + RowStart(r, width), width)
  {
    var row := ChromaRow(data, from, width, width / 2, r);
    assert RowHolds(c1, r, Evens(row)) && RowHolds(c2, r, Odds(row));
    assert RowOf(c1, r, width / 2) == Evens(row);
    assert RowOf(c2, r, width / 2) == Odds(row);
    InterleaveSplit(row);
  }
}
