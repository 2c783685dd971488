/** The two static meshes: the floor quad and the unit target cube, each a
    vertex list and an index list read as a triangle list. */
module Meshes {
  import opened Geometry
  import Shooting

  /** Half the floor's edge, and the floor's height. */
  const FloorHalfSize: real := 32.0
  /** The cube is drawn with half-extent EnemySize * 0.5, matching a target's bounds. */
  const CubeHalf: real := Shooting.EnemySize * 0.5

  /** Triangle t of an index list: entries 3t, 3t+1, 3t+2. */
  predicate NonDegenerate(indices: seq<int>, t: int)
    requires 0 <= t < |indices| / 3
  {
    indices[3 * t] != indices[3 * t + 1] && indices[3 * t + 1] != indices[3 * t + 2] && indices[3 * t] != indices[3 * t + 2]
  }

  /** A triangle list over `count` vertices: whole triangles, every entry a
      valid vertex, every vertex used, no triangle with a repeated corner. */
  predicate TriangleList(indices: seq<int>, count: int)
  {
    && |indices| % 3 == 0
    && (forall i :: 0 <= i < |indices| ==> 0 <= indices[i] < count)
    && (forall v :: 0 <= v < count ==> v in indices)
    && (forall t :: 0 <= t < |indices| / 3 ==> NonDegenerate(indices, t))
  }

  function FloorVertices(): (r: seq<Vector3>)
    ensures |r| == 4
    ensures forall i :: 0 <= i < |r| ==> r[i].y == 0.0
    ensures forall i :: 0 <= i < |r| ==>
              (r[i].x == FloorHalfSize || r[i].x == -FloorHalfSize) && (r[i].z == FloorHalfSize || r[i].z == -FloorHalfSize)
    ensures forall i, j :: 0 <= i < j < |r| ==> r[i] != r[j]
  {
    [ Vector3(-FloorHalfSize, 0.0, -FloorHalfSize), Vector3(FloorHalfSize, 0.0, -FloorHalfSize),
      Vector3(FloorHalfSize, 0.0, FloorHalfSize), Vector3(-FloorHalfSize, 0.0, FloorHalfSize) ]
  }

  /** Two triangles covering the floor quad. */
  function FloorIndices(): (r: seq<int>)
    ensures |r| == 6 && |r| / 3 == 2
    ensures TriangleList(r, |FloorVertices()|)
  {
    var r := [0, 1, 2, 0, 2, 3];
    assert NonDegenerate(r, 0) && NonDegenerate(r, 1);
    assert 0 in r && 1 in r && 2 in r && 3 in r;
    r
  }

  function CubeVertices(): (r: seq<Vector3>)
    ensures |r| == 8
    ensures forall i :: 0 <= i < |r| ==>
              (r[i].x == CubeHalf || r[i].x == -CubeHalf) && (r[i].y == CubeHalf || r[i].y == -CubeHalf)
              && (r[i].z == CubeHalf || r[i].z == -CubeHalf)
    ensures forall i, j :: 0 <= i < j < |r| ==> r[i] != r[j]
  {
    var h := CubeHalf;
    [ Vector3(-h, -h, -h), Vector3(-h, h, -h), Vector3(h, h, -h), Vector3(h, -h, -h),
      Vector3(-h, -h, h), Vector3(-h, h, h), Vector3(h, h, h), Vector3(h, -h, h) ]
  }

  /** The three corners share a coordinate: they lie on one face of the cube. */
  predicate OnOneFace(a: Vector3, b: Vector3, c: Vector3)
  {
    (a.x == b.x == c.x) || (a.y == b.y == c.y) || (a.z == b.z == c.z)
  }

  predicate TriangleOnFace(indices: seq<int>, vertices: seq<Vector3>, t: int)
    requires 0 <= t < |indices| / 3
    requires forall i :: 0 <= i < |indices| ==> 0 <= indices[i] < |vertices|
  {
    OnOneFace(vertices[indices[3 * t]], vertices[indices[3 * t + 1]], vertices[indices[3 * t + 2]])
  }

  /** Twelve triangles, two per face. */
  function CubeIndices(): (r: seq<int>)
    ensures |r| == 36 && |r| / 3 == 12
    ensures forall i :: 0 <= i < |r| ==> 0 <= r[i] < |CubeVertices()|
  {
    [ 0, 1, 2, 0, 2, 3,
      4, 6, 5, 4, 7, 6,
      4, 5, 1, 4, 1, 0,
      3, 2, 6, 3, 6, 7,
      1, 5, 6, 1, 6, 2,
      4, 0, 3, 4, 3, 7 ]
  }

  /** Triangles 0 to 3 cover the two faces at z = -half and z = +half. */
  lemma CubeTrianglesZ(t: int)
    requires 0 <= t < 4
    ensures NonDegenerate(CubeIndices(), t)
    ensures TriangleOnFace(CubeIndices(), CubeVertices(), t)
  {
    var r, v := CubeIndices(), CubeVertices();
    if t == 0 {
      assert r[0] == 0 && r[1] == 1 && r[2] == 2;
      assert v[0].z == v[1].z == v[2].z;
    } else if t == 1 {
      assert r[3] == 0 && r[4] == 2 && r[5] == 3;
      assert v[0].z == v[2].z == v[3].z;
    } else if t == 2 {
      assert r[6] == 4 && r[7] == 6 && r[8] == 5;
      assert v[4].z == v[6].z == v[5].z;
    } else {
      assert r[9] == 4 && r[10] == 7 && r[11] == 6;
      assert v[4].z == v[7].z == v[6].z;
    }
  }

  /** Triangles 4 to 7 cover the two faces at x = -half and x = +half. */
  lemma CubeTrianglesX(t: int)
    requires 4 <= t < 8
    ensures NonDegenerate(CubeIndices(), t)
    ensures TriangleOnFace(CubeIndices(), CubeVertices(), t)
  {
    var r, v := CubeIndices(), CubeVertices();
    if t == 4 {
      assert r[12] == 4 && r[13] == 5 && r[14] == 1;
      assert v[4].x == v[5].x == v[1].x;
    } else if t == 5 {
      assert r[15] == 4 && r[16] == 1 && r[17] == 0;
      assert v[4].x == v[1].x == v[0].x;
    } else if t == 6 {
      assert r[18] == 3 && r[19] == 2 && r[20] == 6;
      assert v[3].x == v[2].x == v[6].x;
    } else {
      assert r[21] == 3 && r[22] == 6 && r[23] == 7;
      assert v[3].x == v[6].x == v[7].x;
    }
  }

  /** Triangles 8 to 11 cover the two faces at y = +half and y = -half. */
  lemma CubeTrianglesY(t: int)
    requires 8 <= t < 12
    ensures NonDegenerate(CubeIndices(), t)
    ensures TriangleOnFace(CubeIndices(), CubeVertices(), t)
  {
    var r, v := CubeIndices(), CubeVertices();
    if t == 8 {
      assert r[24] == 1 && r[25] == 5 && r[26] == 6;
      assert v[1].y == v[5].y == v[6].y;
    } else if t == 9 {
      assert r[27] == 1 && r[28] == 6 && r[29] == 2;
      assert v[1].y == v[6].y == v[2].y;
    } else if t == 10 {
      assert r[30] == 4 && r[31] == 0 && r[32] == 3;
      assert v[4].y == v[0].y == v[3].y;
    } else {
      assert r[33] == 4 && r[34] == 3 && r[35] == 7;
      assert v[4].y == v[3].y == v[7].y;
    }
  }

  /** Every corner of the cube is drawn by some triangle. */
  lemma CubeCornersUsed()
    ensures forall v :: 0 <= v < |CubeVertices()| ==> v in CubeIndices()
  {
    var r := CubeIndices();
    assert r[0] == 0 && r[1] == 1 && r[2] == 2 && r[5] == 3;
    assert r[6] == 4 && r[8] == 5 && r[7] == 6 && r[10] == 7;
  }

  /** The cube's indices are a triangle list over its eight corners, and every
      triangle lies flat on one of the cube's faces. */
  lemma CubeIndicesFormTriangles()
    ensures TriangleList(CubeIndices(), |CubeVertices()|)
    ensures forall t :: 0 <= t < |CubeIndices()| / 3 ==> TriangleOnFace(CubeIndices(), CubeVertices(), t)
  {
    var r := CubeIndices();
    CubeCornersUsed();
    forall t | 0 <= t < |r| / 3
      ensures NonDegenerate(r, t) && TriangleOnFace(r, CubeVertices(), t)
    {
      if t < 4 {
        CubeTrianglesZ(t);
      } else if t < 8 {
        CubeTrianglesX(t);
      } else {
        CubeTrianglesY(t);
      }
    }
  }
}
