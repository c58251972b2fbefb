/**
 * The mesh-side copy of the geometry reader. Everything it shares with `ModelLoading`
 * behaves the same and is used from there; what it adds is the model transform: sixteen
 * numbers read column by column into a 4x4 matrix.
 */
module MeshModelLoading {
  import opened Base
  import opened ParserNumbers
  import opened ColladaGrammar
  import opened ModelLoading

  /** Four rows of four numbers each. */
  predicate IsMatrix4(m: seq<seq<Decimal>>) {
    |m| == 4 && forall i :: 0 <= i < 4 ==> |m[i]| == 4
  }

  /** A 4x4 matrix as four rows of four numbers. */
  type Matrix4 = m: seq<seq<Decimal>> | IsMatrix4(m)
    witness [[Zero, Zero, Zero, Zero], [Zero, Zero, Zero, Zero], [Zero, Zero, Zero, Zero], [Zero, Zero, Zero, Zero]]

  /** The matrix of sixteen numbers listed column by column; nothing for any other count. */
  function ToMatrix(floats: seq<Decimal>): (r: Option<Matrix4>)
    ensures r.None? <==> |floats| != 16
    ensures r.Some? ==> forall i, j :: 0 <= i < 4 && 0 <= j < 4 ==> r.value[i][j] == floats[4 * j + i]
  {
    if |floats| != 16 then None
    else
      Some([
        [floats[0], floats[4], floats[8], floats[12]],
        [floats[1], floats[5], floats[9], floats[13]],
        [floats[2], floats[6], floats[10], floats[14]],
        [floats[3], floats[7], floats[11], floats[15]]
      ])
  }

  /** The entries of a matrix column by column. */
  function Columns(m: Matrix4): (r: seq<Decimal>)
    ensures |r| == 16
  {
    seq(16, k requires 0 <= k < 16 => m[k % 4][k / 4])
  }

  /** Reading sixteen numbers into a matrix loses nothing: its columns give them back in order. */
  lemma ColumnsOfMatrix(floats: seq<Decimal>)
    requires |floats| == 16
    ensures Columns(ToMatrix(floats).value) == floats
  {
    var m := ToMatrix(floats).value;
    forall k | 0 <= k < 16
      ensures Columns(m)[k] == floats[k]
    {
      assert 4 * (k / 4) + k % 4 == k;
    }
  }

  /** A matrix is the reading of its own columns. */
  lemma MatrixOfColumns(m: Matrix4)
    ensures ToMatrix(Columns(m)) == Some(m)
  {
    var r := ToMatrix(Columns(m)).value;
    forall i | 0 <= i < 4
      ensures r[i] == m[i]
    {
      forall j | 0 <= j < 4
        ensures r[i][j] == m[i][j]
      {
        ColumnPosition(i, j);
      }
    }
    assert r == m;
  }

  /** Row `i`, column `j` sits at position `4 * j + i` of the column-by-column listing. */
  lemma ColumnPosition(i: int, j: int)
    requires 0 <= i < 4 && 0 <= j < 4
    ensures (4 * j + i) % 4 == i && (4 * j + i) / 4 == j
  {
  }

  /** The `matrix` tag: header, `library_visual_scenes`, `visual_scene`, `node`, `matrix`. */
  function MatrixTagOf(source: Collada): (r: Option<Collada>)
    ensures r.Some? ==> source.ColladaHeader? && IsTagNamed(r.value, "matrix")
  {
    match source
    case ColladaHeader(b) =>
      (match TagNamed(b, "library_visual_scenes")
       case None => None
       case Some(x1) =>
         match TagNamed(x1, "visual_scene")
         case None => None
         case Some(x2) =>
           match TagNamed(x2, "node")
           case None => None
           case Some(x3) => TagNamed(x3, "matrix"))
    case _ => None
  }

  /**
   * The transform of the last `node`: present exactly when the path exists and the
   * `matrix` tag starts with exactly sixteen numbers.
   */
  function ExtractTransformMat(source: Collada): (r: Option<Matrix4>)
    ensures r.Some? <==>
      MatrixTagOf(source).Some? && FindFloats(MatrixTagOf(source).value).Some? &&
      |FindFloats(MatrixTagOf(source).value).value| == 16
  {
    match MatrixTagOf(source)
    case None => None
    case Some(mat) =>
      match FindFloats(mat)
      case None => None
      case Some(vec) =>
        ToMatrix(vec)
  }

  /** A transform that is found lists, column by column, the numbers of the `matrix` tag. */
  lemma TransformColumns(source: Collada)
    requires ExtractTransformMat(source).Some?
    ensures Columns(ExtractTransformMat(source).value) == FindFloats(MatrixTagOf(source).value).value
  {
    ColumnsOfMatrix(FindFloats(MatrixTagOf(source).value).value);
  }
}
