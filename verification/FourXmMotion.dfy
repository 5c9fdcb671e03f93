/** The motion vectors of 4X Movie and the offsets init_mv makes of them. */
module FourXmMotion {
  import opened FourXmSplitTree

  // ---------- the vectors, eight to a row, as column and row displacements

  function Rows0(r: nat): (s: seq<(int, int)>)
    requires 0 <= r < 4
    ensures |s| == 8
  {
    if r == 0 then [(0, 0), (0, -1), (-1, 0), (1, 0), (0, 1), (-1, -1), (1, -1), (-1, 1)]
    else if r == 1 then [(1, 1), (0, -2), (-2, 0), (2, 0), (0, 2), (-1, -2), (1, -2), (-2, -1)]
    else if r == 2 then [(2, -1), (-2, 1), (2, 1), (-1, 2), (1, 2), (-2, -2), (2, -2), (-2, 2)]
    else [(2, 2), (0, -3), (-3, 0), (3, 0), (0, 3), (-1, -3), (1, -3), (-3, -1)]
  }

  function Rows1(r: nat): (s: seq<(int, int)>)
    requires 4 <= r < 8
    ensures |s| == 8
  {
    if r == 4 then [(3, -1), (-3, 1), (3, 1), (-1, 3), (1, 3), (-2, -3), (2, -3), (-3, -2)]
    else if r == 5 then [(3, -2), (-3, 2), (3, 2), (-2, 3), (2, 3), (0, -4), (-4, 0), (4, 0)]
    else if r == 6 then [(0, 4), (-1, -4), (1, -4), (-4, -1), (4, -1), (4, 1), (-1, 4), (1, 4)]
    else [(-3, -3), (-3, 3), (3, 3), (-2, -4), (-4, -2), (4, -2), (-4, 2), (-2, 4)]
  }

  function Rows2(r: nat): (s: seq<(int, int)>)
    requires 8 <= r < 12
    ensures |s| == 8
  {
    if r == 8 then [(2, 4), (-3, -4), (3, -4), (4, -3), (-5, 0), (-4, 3), (-3, 4), (3, 4)]
    else if r == 9 then [(-1, -5), (-5, -1), (-5, 1), (-1, 5), (-2, -5), (2, -5), (5, -2), (5, 2)]
    else if r == 10 then [(-4, -4), (-4, 4), (-3, -5), (-5, -3), (-5, 3), (3, 5), (-6, 0), (0, 6)]
    else [(-6, -1), (-6, 1), (1, 6), (2, -6), (-6, 2), (2, 6), (-5, -4), (5, 4)]
  }

  function Rows3(r: nat): (s: seq<(int, int)>)
    requires 12 <= r < 16
    ensures |s| == 8
  {
    if r == 12 then [(4, 5), (-6, -3), (6, 3), (-7, 0), (-1, -7), (5, -5), (-7, 1), (-1, 7)]
    else if r == 13 then [(4, -6), (6, 4), (-2, -7), (-7, 2), (-3, -7), (7, -3), (3, 7), (6, -5)]
    else if r == 14 then [(0, -8), (-1, -8), (-7, -4), (-8, 1), (4, 7), (2, -8), (-2, 8), (6, 6)]
    else [(-8, 3), (5, -7), (-5, 7), (8, -4), (0, -9), (-9, -1), (1, 9), (7, -6)]
  }

  function Rows4(r: nat): (s: seq<(int, int)>)
    requires 16 <= r < 20
    ensures |s| == 8
  {
    if r == 16 then [(-7, 6), (-5, -8), (-5, 8), (-9, 3), (9, -4), (7, -7), (8, -6), (6, 8)]
    else if r == 17 then [(10, 1), (-10, 2), (9, -5), (10, -3), (-8, -7), (-10, -4), (6, -9), (-11, 0)]
    else if r == 18 then [(11, 1), (-11, -2), (-2, 11), (7, -9), (-7, 9), (10, 6), (-4, 11), (8, -9)]
    else [(8, 9), (5, 11), (7, -10), (12, -3), (11, 6), (-9, -9), (8, 10), (5, 12)]
  }

  function Rows5(r: nat): (s: seq<(int, int)>)
    requires 20 <= r < 24
    ensures |s| == 8
  {
    if r == 20 then [(-11, 7), (13, 2), (6, -12), (10, 9), (-11, 8), (-7, 12), (0, 14), (14, -2)]
    else if r == 21 then [(-9, 11), (-6, 13), (-14, -4), (-5, -14), (5, 14), (-15, -1), (-14, -6), (3, -15)]
    else if r == 22 then [(11, -11), (-7, 14), (-5, 15), (8, -14), (15, 6), (3, 16), (7, -15), (-16, 5)]
    else [(0, 17), (-16, -6), (-10, 14), (-16, 7), (12, 13), (-16, 8), (-17, 6), (-18, 3)]
  }

  function Rows6(r: nat): (s: seq<(int, int)>)
    requires 24 <= r < 28
    ensures |s| == 8
  {
    if r == 24 then [(-7, 17), (15, 11), (16, 10), (2, -19), (3, -19), (-11, -16), (-18, 8), (-19, -6)]
    else if r == 25 then [(2, -20), (-17, -11), (-10, -18), (8, 19), (-21, -1), (-20, 7), (-4, 21), (21, 5)]
    else if r == 26 then [(15, 16), (2, -22), (-10, -20), (-22, 5), (20, -11), (-7, -22), (-12, 20), (23, -5)]
    else [(13, -20), (24, -2), (-15, 19), (-11, 22), (16, 19), (23, -10), (-18, -18), (-9, -24)]
  }

  function Rows7(r: nat): (s: seq<(int, int)>)
    requires 28 <= r < 32
    ensures |s| == 8
  {
    if r == 28 then [(24, -10), (-3, 26), (-23, 13), (-18, -20), (17, 21), (-4, 27), (27, 6), (1, -28)]
    else if r == 29 then [(-11, 26), (-17, -23), (7, 28), (11, -27), (29, 5), (-23, -19), (-28, -11), (-21, 22)]
    else if r == 30 then [(-30, 7), (-17, 26), (-27, 16), (13, 29), (19, -26), (10, -31), (-14, -30), (20, -27)]
    else [(-29, 18), (-16, -31), (-28, -22), (21, -30), (-25, 28), (26, -29), (25, -32), (-32, -32)]
  }

  function Row(r: nat): (s: seq<(int, int)>)
    requires r < 32
    ensures |s| == 8
  {
    if r < 4 then Rows0(r)
    else if r < 8 then Rows1(r)
    else if r < 12 then Rows2(r)
    else if r < 16 then Rows3(r)
    else if r < 20 then Rows4(r)
    else if r < 24 then Rows5(r)
    else if r < 28 then Rows6(r)
    else Rows7(r)
  }

  /** Vector `i` of a file version: from version 2 on a table, before the 16 by 16 square around the place itself. */
  function Vector(newer: bool, i: nat): (d: (int, int))
    requires i < 256
  {
    if newer then Row(i / 8)[i % 8] else (i % 16 - 8, i / 16 - 8)
  }

  /** Nearer; as near and higher up; or as near, in the same row, and further left. */
  predicate Nearer(a: (int, int), b: (int, int)) {
    var m, n := a.0 * a.0 + a.1 * a.1, b.0 * b.0 + b.1 * b.1;
    m < n || (m == n && (a.1 < b.1 || (a.1 == b.1 && a.0 < b.0)))
  }

  lemma RowsGrow0(r: nat, j: nat)
    requires 0 <= r < 4 && j < 8
    ensures Nearer(Row(r)[j], if j < 7 then Row(r)[j + 1] else Row(r + 1)[0])
  {
  }

  lemma RowsGrow1(r: nat, j: nat)
    requires 4 <= r < 8 && j < 8
    ensures Nearer(Row(r)[j], if j < 7 then Row(r)[j + 1] else Row(r + 1)[0])
  {
  }

  lemma RowsGrow2(r: nat, j: nat)
    requires 8 <= r < 12 && j < 8
    ensures Nearer(Row(r)[j], if j < 7 then Row(r)[j + 1] else Row(r + 1)[0])
  {
  }

  lemma RowsGrow3(r: nat, j: nat)
    requires 12 <= r < 16 && j < 8
    ensures Nearer(Row(r)[j], if j < 7 then Row(r)[j + 1] else Row(r + 1)[0])
  {
  }

  lemma RowsGrow4(r: nat, j: nat)
    requires 16 <= r < 20 && j < 8
    ensures Nearer(Row(r)[j], if j < 7 then Row(r)[j + 1] else Row(r + 1)[0])
  {
  }

  lemma RowsGrow5(r: nat, j: nat)
    requires 20 <= r < 24 && j < 8
    ensures Nearer(Row(r)[j], if j < 7 then Row(r)[j + 1] else Row(r + 1)[0])
  {
  }

  lemma RowsGrow6(r: nat, j: nat)
    requires 24 <= r < 28 && j < 8
    ensures Nearer(Row(r)[j], if j < 7 then Row(r)[j + 1] else Row(r + 1)[0])
  {
  }

  lemma RowsGrow7(r: nat, j: nat)
    requires 28 <= r < 32 && j < 8 && (j == 7 ==> r < 31)
    ensures Nearer(Row(r)[j], if j < 7 then Row(r)[j + 1] else Row(r + 1)[0])
  {
  }

  /** The table goes outwards: each vector is farther than the one before, ties broken by row and then column. */
  lemma VectorsGrow(i: nat)
    requires i < 255
    ensures Nearer(Vector(true, i), Vector(true, i + 1))
  {
    var r, j := i / 8, i % 8;
    assert j < 7 ==> (i + 1) / 8 == r && (i + 1) % 8 == j + 1;
    assert j == 7 ==> (i + 1) / 8 == r + 1 && (i + 1) % 8 == 0;
    hide Row, Nearer;
    if r < 4 {
      RowsGrow0(r, j);
    } else if r < 8 {
      RowsGrow1(r, j);
    } else if r < 12 {
      RowsGrow2(r, j);
    } else if r < 16 {
      RowsGrow3(r, j);
    } else if r < 20 {
      RowsGrow4(r, j);
    } else if r < 24 {
      RowsGrow5(r, j);
    } else if r < 28 {
      RowsGrow6(r, j);
    } else {
      RowsGrow7(r, j);
    }
  }

  lemma NearerTransitive(a: (int, int), b: (int, int), c: (int, int))
    requires Nearer(a, b) && Nearer(b, c)
    ensures Nearer(a, c)
  {
  }

  lemma {:induction false} VectorsOrdered(i: nat, k: nat)
    requires i < k < 256
    ensures Nearer(Vector(true, i), Vector(true, k))
    decreases k
  {
    hide Vector, Nearer;
    VectorsGrow(k - 1);
    if i < k - 1 {
      VectorsOrdered(i, k - 1);
      NearerTransitive(Vector(true, i), Vector(true, k - 1), Vector(true, k));
    }
  }

  /** No vector is there twice, in either version. */
  lemma VectorsDiffer(newer: bool, i: nat, k: nat)
    requires i < k < 256
    ensures Vector(newer, i) != Vector(newer, k)
  {
    hide Row;
    if newer {
      VectorsOrdered(i, k);
    }
  }

  /** Division truncates toward zero. */
  function Half(x: int): int {
    if x >= 0 then x / 2 else -(-x / 2)
  }

  /** Lines are `lineSize` bytes, two to a pixel. */
  function Reach(newer: bool, i: nat, lineSize: nat): int
    requires i < 256
  {
    Vector(newer, i).0 + Half(Vector(newer, i).1 * lineSize)
  }

  /** The offsets of all vectors in a picture of this width. */
  function Reaches(newer: bool, width: nat): (mv: seq<int>)
    ensures |mv| == 256 && forall i :: 0 <= i < 256 ==> mv[i] == Reach(newer, i, 2 * width)
  {
    seq(256, i requires 0 <= i < 256 => Reach(newer, i, 2 * width))
  }

  lemma HalfOfDouble(k: int)
    ensures Half(2 * k) == k
  {
  }

  lemma HalfOfLines(dy: int, width: nat)
    ensures Half(dy * (2 * width)) == dy * width
  {
    hide Half;
    assert dy * (2 * width) == 2 * (dy * width);
    HalfOfDouble(dy * width);
  }

  /** An offset is exactly its vector: so many rows and columns away. */
  lemma ReachIsVector(newer: bool, i: nat, width: nat)
    requires i < 256
    ensures Reaches(newer, width)[i] == Vector(newer, i).1 * width + Vector(newer, i).0
  {
    hide Vector, Half;
    HalfOfLines(Vector(newer, i).1, width);
  }

  /** init_mv. */
  method InitMv(newer: bool, lineSize: nat, mv: array<int>)
    requires mv.Length == 256
    modifies mv
    ensures forall i :: 0 <= i < 256 ==> mv[i] == Reach(newer, i, lineSize)
  {
    hide Half, Row;
    for i := 0 to 256
      invariant forall k :: 0 <= k < i ==> mv[k] == Reach(newer, k, lineSize)
    {
      if newer {
        var d := Row(i / 8)[i % 8];
        mv[i] := d.0 + Half(d.1 * lineSize);
      } else {
        mv[i] := i % 16 - 8 + Half((i / 16 - 8) * lineSize);
      }
    }
  }

  /** The decoder's settings for a file version and picture size. */
  function Settings(version: nat, width: nat, height: nat): (v: Video)
  {
    Video(width, height, version > 1, TypeTables(version > 1), Reaches(version > 1, width))
  }

  lemma SettingsAreValid(version: nat, width: nat, height: nat)
    ensures ValidVideo(Settings(version, width, height))
  {
    hide GoodTables;
    TypeTablesAreGood(version > 1);
  }
}
