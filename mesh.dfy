/**
 * A drawable mesh: its ids, the geometry read from its COLLADA file, the packed vertex
 * buffer, and its placement (transform, offset and scale). Loading and buffering update
 * the mesh in place.
 */
module Meshes {
  import opened Base
  import opened ParserNumbers
  import opened ColladaGrammar
  import opened ModelLoading
  import opened MeshModelLoading

  function ZeroMatrix(): (m: Matrix4)
    ensures forall i, j :: 0 <= i < 4 && 0 <= j < 4 ==> m[i][j] == Zero
  {
    var row := [Zero, Zero, Zero, Zero];
    [row, row, row, row]
  }

  const One: Decimal := Decimal(1, 0)

  /** A snapshot of every field of a mesh. */
  datatype MeshState = MeshState(
    id: U16,
    positions: Option<seq<Position>>,
    normals: Option<seq<Normal>>,
    texCoords: Option<seq<TextureCoordinates>>,
    indices: Option<seq<U16>>,
    vertexBuf: Option<seq<Vertex>>,
    transformMat: Matrix4,
    offset: Vec3,
    scale: Decimal,
    shaderId: U16,
    textureId: U16)

  /** The state of a new mesh: no geometry, no buffer, a zero transform, no offset and unit scale. */
  function Blank(id: U16, shaderId: U16, textureId: U16): MeshState {
    MeshState(id, None, None, None, None, None, ZeroMatrix(), (Zero, Zero, Zero), One, shaderId, textureId)
  }

  class Mesh {
    var id: U16
    var positions: Option<seq<Position>>
    var normals: Option<seq<Normal>>
    var texCoords: Option<seq<TextureCoordinates>>
    var indices: Option<seq<U16>>
    /** The packed vertices handed to the graphics device, kept here as a sequence. */
    var vertexBuf: Option<seq<Vertex>>
    var transformMat: Matrix4
    var offset: Vec3
    var scale: Decimal
    var shaderId: U16
    var textureId: U16

    function State(): MeshState
      reads this
    {
      MeshState(id, positions, normals, texCoords, indices, vertexBuf, transformMat, offset, scale, shaderId, textureId)
    }

    /** `new`: every id is zero. */
    constructor ()
      ensures State() == Blank(0, 0, 0)
    {
      id, shaderId, textureId := 0, 0, 0;
      positions, normals, texCoords, indices, vertexBuf := None, None, None, None, None;
      transformMat := ZeroMatrix();
      offset := (Zero, Zero, Zero);
      scale := One;
    }

    /** `new_with_id`. */
    constructor WithId(id: U16)
      ensures State() == Blank(id, 0, 0)
    {
      this.id, shaderId, textureId := id, 0, 0;
      positions, normals, texCoords, indices, vertexBuf := None, None, None, None, None;
      transformMat := ZeroMatrix();
      offset := (Zero, Zero, Zero);
      scale := One;
    }

    /** `new_with_id_shader`. */
    constructor WithIdShader(id: U16, shaderId: U16)
      ensures State() == Blank(id, shaderId, 0)
    {
      this.id, this.shaderId, textureId := id, shaderId, 0;
      positions, normals, texCoords, indices, vertexBuf := None, None, None, None, None;
      transformMat := ZeroMatrix();
      offset := (Zero, Zero, Zero);
      scale := One;
    }

    /** `new_with_id_shader_tex`. */
    constructor WithIdShaderTex(id: U16, shaderId: U16, textureId: U16)
      ensures State() == Blank(id, shaderId, textureId)
    {
      this.id, this.shaderId, this.textureId := id, shaderId, textureId;
      positions, normals, texCoords, indices, vertexBuf := None, None, None, None, None;
      transformMat := ZeroMatrix();
      offset := (Zero, Zero, Zero);
      scale := One;
    }

    method SetId(id: U16)
      modifies this
      ensures State() == old(State()).(id := id)
    {
      this.id := id;
    }

    method SetOffset(offset: Vec3)
      modifies this
      ensures State() == old(State()).(offset := offset)
    {
      this.offset := offset;
    }

    method SetScale(scale: Decimal)
      modifies this
      ensures State() == old(State()).(scale := scale)
    {
      this.scale := scale;
    }

    /**
     * `load_geometry` from the contents of the mesh's file, which must parse: the
     * geometry of the parsed tree replaces the mesh's, as `LoadGeometry` states.
     */
    method ParseAndLoadGeometry(text: string)
      requires ColladaP(text).Some?
      modifies this
      ensures var model := ColladaP(text).value.1;
        State() == old(State()).(
          positions := PositionsIn(model),
          normals := NormalsIn(model),
          texCoords := TexCoordsIn(model),
          indices := ExtractIndices(model),
          transformMat := if ExtractTransformMat(model).Some? then ExtractTransformMat(model).value
                          else old(transformMat))
    {
      var model := ColladaP(text).value.1;
      LoadGeometry(model);
    }

    /**
     * `load_geometry` on the parsed tree: every geometry list is replaced by what the
     * tree holds (possibly nothing), while the transform is replaced only when the tree
     * holds one.
     */
    method LoadGeometry(model: Collada)
      modifies this
      ensures State() == old(State()).(
          positions := PositionsIn(model),
          normals := NormalsIn(model),
          texCoords := TexCoordsIn(model),
          indices := ExtractIndices(model),
          transformMat := if ExtractTransformMat(model).Some? then ExtractTransformMat(model).value
                          else old(transformMat))
    {
      var maybePos := ExtractPositions(model);
      var maybeNorm := ExtractNormals(model);
      var maybeTex := ExtractTextureCoordinates(model);
      var maybeIndices := ExtractIndices(model);
      var maybeMat := ExtractTransformMat(model);
      StoreGeometry(maybePos, maybeNorm, maybeTex, maybeIndices, maybeMat);
    }

    /** The field updates of `load_geometry`: the transform is kept when none was read. */
    method StoreGeometry(pos: Option<seq<Position>>, norm: Option<seq<Normal>>,
                         tex: Option<seq<TextureCoordinates>>, idx: Option<seq<U16>>, mat: Option<Matrix4>)
      modifies this
      ensures State() == old(State()).(positions := pos, normals := norm, texCoords := tex, indices := idx,
        transformMat := if mat.Some? then mat.value else old(transformMat))
    {
      positions := pos;
      normals := norm;
      texCoords := tex;
      indices := idx;
      if mat.Some? {
        transformMat := mat.value;
      }
    }

    /** Every geometry list is present and the indices come in whole triples. */
    predicate CanBuffer()
      reads this
    {
      positions.Some? && normals.Some? && texCoords.Some? && indices.Some? && |indices.value| % 3 == 0
    }

    /**
     * `buffer_unindexed`: nothing happens unless every list is present and the indices
     * come in whole triples; then the buffer holds one vertex per triple, exactly the
     * packing `pack_verts` computes. An index past its list aborts the program, so the
     * caller must rule that out.
     */
    method BufferUnindexed()
      requires CanBuffer() ==>
        forall k :: 0 <= k < |indices.value| / 3 ==>
          TripleInRange(positions.value, normals.value, texCoords.value, indices.value, k)
      modifies this
      ensures !old(CanBuffer()) ==> State() == old(State())
      ensures old(CanBuffer()) ==>
        var packed := Packed(old(positions).value, old(normals).value, old(texCoords).value, old(indices).value);
        packed.Some? && State() == old(State()).(vertexBuf := packed)
      ensures old(CanBuffer()) ==>
        vertexBuf.Some? && |vertexBuf.value| == |indices.value| / 3 &&
        forall k :: 0 <= k < |indices.value| / 3 ==>
          vertexBuf.value[k] == VertexOf(positions.value, normals.value, texCoords.value, indices.value, k)
    {
      if !CanBuffer() {
        return;
      }
      var positions := this.positions.value;
      var normals := this.normals.value;
      var texCoords := this.texCoords.value;
      var indices := this.indices.value;
      var indxLen := |indices|;
      var res: seq<Vertex> := [];
      var currIndx := 0;
      while currIndx < indxLen
        invariant currIndx % 3 == 0 && currIndx <= indxLen
        invariant |res| == currIndx / 3
        invariant forall k :: 0 <= k < |res| ==> res[k] == VertexOf(positions, normals, texCoords, indices, k)
      {
        assert TripleInRange(positions, normals, texCoords, indices, currIndx / 3);
        var vert := DefaultVertex();
        vert := vert.(position := positions[indices[currIndx]].position);
        currIndx := currIndx + 1;
        vert := vert.(normal := normals[indices[currIndx]].normal);
        currIndx := currIndx + 1;
        vert := vert.(texCoords := texCoords[indices[currIndx]].coordinates);
        currIndx := currIndx + 1;
        res := res + [vert];
      }
      PackedSpec(positions, normals, texCoords, indices);
      assert res == Packed(positions, normals, texCoords, indices).value;
      vertexBuf := Some(res);
    }
  }
}
