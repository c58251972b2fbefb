/**
 * Queries on the parsed COLLADA tree and the extraction of geometry from it: the last
 * child tag with a given name, the numbers at the start of a tag, grouping numbers into
 * positions, normals and texture coordinates, conversion to 16-bit indices, and packing
 * index triples into interleaved vertices.
 */
module ModelLoading {
  import opened Base
  import opened ParserNumbers
  import opened ColladaGrammar

  type Vec3 = (Decimal, Decimal, Decimal)
  type Vec2 = (Decimal, Decimal)

  /** A value of the unsigned 16-bit index type. */
  type U16 = x: int | 0 <= x < 0x1_0000

  const Zero: Decimal := Decimal(0, 0)

  datatype Vertex = Vertex(position: Vec3, normal: Vec3, texCoords: Vec2)
  datatype Position = Position(position: Vec3)
  datatype Normal = Normal(normal: Vec3)
  datatype TextureCoordinates = TextureCoordinates(coordinates: Vec2)

  function DefaultVertex(): Vertex {
    Vertex((Zero, Zero, Zero), (Zero, Zero, Zero), (Zero, Zero))
  }

  function DefaultPosition(): Position {
    Position((Zero, Zero, Zero))
  }

  function DefaultNormal(): Normal {
    Normal((Zero, Zero, Zero))
  }

  function DefaultTextureCoordinates(): TextureCoordinates {
    TextureCoordinates((Zero, Zero))
  }

  /** The value of a number, as a fraction over a power of ten: zero exactly when its mantissa is. */
  predicate IsZero(d: Decimal) {
    d.mantissa == 0
  }

  /** Every coordinate of every default is zero. */
  lemma DefaultsAreZero()
    ensures var v := DefaultVertex();
      IsZero(v.position.0) && IsZero(v.position.1) && IsZero(v.position.2) &&
      IsZero(v.normal.0) && IsZero(v.normal.1) && IsZero(v.normal.2) &&
      IsZero(v.texCoords.0) && IsZero(v.texCoords.1)
    ensures var p := DefaultPosition().position; IsZero(p.0) && IsZero(p.1) && IsZero(p.2)
    ensures var n := DefaultNormal().normal; IsZero(n.0) && IsZero(n.1) && IsZero(n.2)
    ensures var c := DefaultTextureCoordinates().coordinates; IsZero(c.0) && IsZero(c.1)
  {
  }

  // ---------------------------------------------------------------------------------
  // Looking up children
  // ---------------------------------------------------------------------------------

  /** An open tag with the given name; text, numbers and self-closing tags never match. */
  predicate IsTagNamed(c: Collada, name: string) {
    c.ColladaTag? && c.tag == name
  }

  /** The last element of `cs` that is an open tag named `name`. */
  function LastTagNamed(cs: seq<Collada>, name: string): (r: Option<Collada>)
    ensures r.None? <==> forall i :: 0 <= i < |cs| ==> !IsTagNamed(cs[i], name)
    ensures r.Some? ==> IsTagNamed(r.value, name)
  {
    if |cs| == 0 then None
    else if IsTagNamed(cs[|cs| - 1], name) then Some(cs[|cs| - 1])
    else
      var r := LastTagNamed(cs[..|cs| - 1], name);
      assert forall i :: 0 <= i < |cs| - 1 ==> cs[..|cs| - 1][i] == cs[i];
      r
  }

  /** What `LastTagNamed` finds is an element of `cs` after which no element is an open tag named `name`. */
  lemma {:induction false} LastTagNamedIsLast(cs: seq<Collada>, name: string)
    requires LastTagNamed(cs, name).Some?
    ensures exists i :: (0 <= i < |cs| && cs[i] == LastTagNamed(cs, name).value &&
      forall j :: i < j < |cs| ==> !IsTagNamed(cs[j], name))
  {
    var n := |cs| - 1;
    if IsTagNamed(cs[n], name) {
      assert cs[n] == LastTagNamed(cs, name).value;
    } else {
      LastTagNamedIsLast(cs[..n], name);
      var i :| 0 <= i < n && cs[..n][i] == LastTagNamed(cs[..n], name).value &&
        forall j :: i < j < n ==> !IsTagNamed(cs[..n][j], name);
      assert LastTagNamed(cs, name) == LastTagNamed(cs[..n], name);
      assert cs[i] == LastTagNamed(cs, name).value;
      forall j | i < j < |cs|
        ensures !IsTagNamed(cs[j], name)
      {
        if j < n {
          assert cs[..n][j] == cs[j];
        }
      }
    }
  }

  /** The last child of `source` that is an open tag named `name`; nothing unless `source` is an open tag. */
  function TagNamed(source: Collada, name: string): Option<Collada> {
    if source.ColladaTag? then LastTagNamed(source.children, name) else None
  }

  /** The loop of `find_tag_name`: every matching child overwrites the previous match. */
  method FindTagName(source: Collada, name: string) returns (res: Option<Collada>)
    ensures res == TagNamed(source, name)
  {
    res := None;
    if source.ColladaTag? {
      var contents := source.children;
      for k := 0 to |contents|
        invariant res == LastTagNamed(contents[..k], name)
      {
        assert contents[..k + 1][..k] == contents[..k];
        if IsTagNamed(contents[k], name) {
          res := Some(contents[k]);
        }
      }
      assert contents[..|contents|] == contents;
    }
  }

  /** The numbers of a tag whose first child is a run of numbers. */
  function FindFloats(source: Collada): (r: Option<seq<Decimal>>)
    ensures r.Some? <==> source.ColladaTag? && |source.children| > 0 && source.children[0].ColladaFloats?
    ensures r.Some? ==> source.children[0] == ColladaFloats(r.value)
  {
    match source
    case ColladaTag(_, _, cont) =>
      if |cont| > 0 && cont[0].ColladaFloats? then Some(cont[0].values) else None
    case _ => None
  }

  // ---------------------------------------------------------------------------------
  // Grouping numbers
  // ---------------------------------------------------------------------------------

  /** Consecutive triples of numbers as positions; one or two numbers left over are dropped. */
  function Positions(fs: seq<Decimal>): (r: seq<Position>)
    decreases |fs|
    ensures |r| == |fs| / 3
    ensures forall i :: 0 <= i < |r| ==> r[i] == Position((fs[3 * i], fs[3 * i + 1], fs[3 * i + 2]))
  {
    if |fs| < 3 then []
    else
      var rest := Positions(fs[3..]);
      assert forall i :: 0 < i < |rest| + 1 ==> fs[3..][3 * (i - 1)] == fs[3 * i];
      [Position((fs[0], fs[1], fs[2]))] + rest
  }

  /** Consecutive triples of numbers as normals; one or two numbers left over are dropped. */
  function Normals(fs: seq<Decimal>): (r: seq<Normal>)
    decreases |fs|
    ensures |r| == |fs| / 3
    ensures forall i :: 0 <= i < |r| ==> r[i] == Normal((fs[3 * i], fs[3 * i + 1], fs[3 * i + 2]))
  {
    if |fs| < 3 then []
    else
      var rest := Normals(fs[3..]);
      assert forall i :: 0 < i < |rest| + 1 ==> fs[3..][3 * (i - 1)] == fs[3 * i];
      [Normal((fs[0], fs[1], fs[2]))] + rest
  }

  /** Consecutive pairs of numbers as texture coordinates; a number left over is dropped. */
  function TexCoords(fs: seq<Decimal>): (r: seq<TextureCoordinates>)
    decreases |fs|
    ensures |r| == |fs| / 2
    ensures forall i :: 0 <= i < |r| ==> r[i] == TextureCoordinates((fs[2 * i], fs[2 * i + 1]))
  {
    if |fs| < 2 then []
    else
      var rest := TexCoords(fs[2..]);
      assert forall i :: 0 < i < |rest| + 1 ==> fs[2..][2 * (i - 1)] == fs[2 * i];
      [TextureCoordinates((fs[0], fs[1]))] + rest
  }

  /** The loop of `group_to_positions`: split off three numbers at a time. */
  method GroupToPositions(floats: seq<Decimal>) returns (res: seq<Position>)
    ensures res == Positions(floats)
  {
    res := [];
    var fs := floats;
    while |fs| >= 3
      invariant res + Positions(fs) == Positions(floats)
      decreases |fs|
    {
      res := res + [Position((fs[0], fs[1], fs[2]))];
      fs := fs[3..];
    }
  }

  /** The loop of `group_to_normals`. */
  method GroupToNormals(floats: seq<Decimal>) returns (res: seq<Normal>)
    ensures res == Normals(floats)
  {
    res := [];
    var fs := floats;
    while |fs| >= 3
      invariant res + Normals(fs) == Normals(floats)
      decreases |fs|
    {
      res := res + [Normal((fs[0], fs[1], fs[2]))];
      fs := fs[3..];
    }
  }

  /** The loop of `group_to_tex_coords`: split off two numbers at a time. */
  method GroupToTexCoords(floats: seq<Decimal>) returns (res: seq<TextureCoordinates>)
    ensures res == TexCoords(floats)
  {
    res := [];
    var fs := floats;
    while |fs| >= 2
      invariant res + TexCoords(fs) == TexCoords(floats)
      decreases |fs|
    {
      res := res + [TextureCoordinates((fs[0], fs[1]))];
      fs := fs[2..];
    }
  }

  // ---------------------------------------------------------------------------------
  // Indices
  // ---------------------------------------------------------------------------------

  /** The integer part of a number: its value rounded toward zero. */
  function Truncate(d: Decimal): int {
    if d.exponent >= 0 then d.mantissa * Pow10(d.exponent)
    else if d.mantissa >= 0 then d.mantissa / Pow10(-d.exponent)
    else -((-d.mantissa) / Pow10(-d.exponent))
  }

  /** Division of a natural number rounds down. */
  lemma DivBounds(m: nat, p: int)
    requires p > 0
    ensures 0 <= m / p && (m / p) * p <= m < (m / p + 1) * p
  {
    assert m == p * (m / p) + m % p;
  }

  /**
   * `Truncate` rounds toward zero: a whole number is kept, and otherwise the result is
   * the integer nearest the value on the side of zero, with the same sign.
   */
  lemma TruncateTowardZero(d: Decimal)
    ensures d.exponent >= 0 ==> Truncate(d) == d.mantissa * Pow10(d.exponent)
    ensures d.exponent < 0 && d.mantissa >= 0 ==>
      0 <= Truncate(d) && Truncate(d) * Pow10(-d.exponent) <= d.mantissa < (Truncate(d) + 1) * Pow10(-d.exponent)
    ensures d.exponent < 0 && d.mantissa < 0 ==>
      Truncate(d) <= 0 && (Truncate(d) - 1) * Pow10(-d.exponent) < d.mantissa <= Truncate(d) * Pow10(-d.exponent)
  {
    if d.exponent < 0 {
      var p := Pow10(-d.exponent);
      if d.mantissa >= 0 {
        DivBounds(d.mantissa, p);
      } else {
        DivBounds(-d.mantissa, p);
      }
    }
  }

  /** The conversion of a number to a 16-bit index: rounded toward zero, then saturated at both ends. */
  function AsU16(d: Decimal): U16 {
    var t := Truncate(d);
    if t < 0 then 0 else if t > 0xFFFF then 0xFFFF else t
  }

  /** In range the conversion keeps the integer part; below it gives 0 and above it 65535. */
  lemma AsU16Saturates(d: Decimal)
    ensures 0 <= Truncate(d) < 0x1_0000 ==> AsU16(d) == Truncate(d)
    ensures Truncate(d) < 0 ==> AsU16(d) == 0
    ensures Truncate(d) >= 0x1_0000 ==> AsU16(d) == 0xFFFF
  {
  }

  /** A whole number written without fraction or exponent is the index it spells. */
  lemma AsU16Whole(k: int)
    requires 0 <= k < 0x1_0000
    ensures AsU16(Decimal(k, 0)) == k
  {
  }

  /** Every number converted to an index, in order. */
  function IndicesOf(fs: seq<Decimal>): (r: seq<U16>)
    ensures |r| == |fs|
    ensures forall i :: 0 <= i < |fs| ==> r[i] == AsU16(fs[i])
  {
    seq(|fs|, i requires 0 <= i < |fs| => AsU16(fs[i]))
  }

  /** The loop of `to_indices`: one conversion per number. */
  method ToIndices(floats: seq<Decimal>) returns (res: seq<U16>)
    ensures res == IndicesOf(floats)
  {
    res := [];
    for k := 0 to |floats|
      invariant res == IndicesOf(floats[..k])
    {
      res := res + [AsU16(floats[k])];
    }
    assert floats[..|floats|] == floats;
  }

  // ---------------------------------------------------------------------------------
  // Extraction along fixed paths
  // ---------------------------------------------------------------------------------

  /** A child tag whose first attribute is the text attribute `id` with `key` somewhere in its value. */
  predicate IsSourceFor(c: Collada, key: string) {
    c.ColladaTag? && |c.params| > 0 && c.params[0].ParameterString? &&
    c.params[0].name == "id" && HasSubstring(c.params[0].text, key)
  }

  /** The last element of `cs` that is a source for `key`. */
  function LastSourceFor(cs: seq<Collada>, key: string): (r: Option<Collada>)
    ensures r.None? <==> forall i :: 0 <= i < |cs| ==> !IsSourceFor(cs[i], key)
    ensures r.Some? ==> IsSourceFor(r.value, key)
  {
    if |cs| == 0 then None
    else if IsSourceFor(cs[|cs| - 1], key) then Some(cs[|cs| - 1])
    else
      var r := LastSourceFor(cs[..|cs| - 1], key);
      assert forall i :: 0 <= i < |cs| - 1 ==> cs[..|cs| - 1][i] == cs[i];
      r
  }

  /** What `LastSourceFor` finds is an element of `cs` after which no element is a source for `key`. */
  lemma {:induction false} LastSourceForIsLast(cs: seq<Collada>, key: string)
    requires LastSourceFor(cs, key).Some?
    ensures exists i :: (0 <= i < |cs| && cs[i] == LastSourceFor(cs, key).value &&
      forall j :: i < j < |cs| ==> !IsSourceFor(cs[j], key))
  {
    var n := |cs| - 1;
    if IsSourceFor(cs[n], key) {
      assert cs[n] == LastSourceFor(cs, key).value;
    } else {
      LastSourceForIsLast(cs[..n], key);
      var i :| 0 <= i < n && cs[..n][i] == LastSourceFor(cs[..n], key).value &&
        forall j :: i < j < n ==> !IsSourceFor(cs[..n][j], key);
      assert LastSourceFor(cs, key) == LastSourceFor(cs[..n], key);
      assert cs[i] == LastSourceFor(cs, key).value;
      forall j | i < j < |cs|
        ensures !IsSourceFor(cs[j], key)
      {
        if j < n {
          assert cs[..n][j] == cs[j];
        }
      }
    }
  }

  /** The source scan of the `extract_*` functions: every matching child overwrites the previous match. */
  method FindSource(contents: seq<Collada>, key: string) returns (res: Option<Collada>)
    ensures res == LastSourceFor(contents, key)
  {
    res := None;
    for k := 0 to |contents|
      invariant res == LastSourceFor(contents[..k], key)
    {
      assert contents[..k + 1][..k] == contents[..k];
      var item := contents[k];
      if item.ColladaTag? && |item.params| > 0 && item.params[0].ParameterString? {
        if item.params[0].name == "id" && HasSubstring(item.params[0].text, key) {
          res := Some(item);
        }
      }
    }
    assert contents[..|contents|] == contents;
  }

  /** The `mesh` tag: header, then `library_geometries`, `geometry` and `mesh`. */
  function MeshOf(source: Collada): (r: Option<Collada>)
    ensures r.Some? ==> source.ColladaHeader? && IsTagNamed(r.value, "mesh")
  {
    match source
    case ColladaHeader(b) =>
      (match TagNamed(b, "library_geometries")
       case None => None
       case Some(x1) =>
         match TagNamed(x1, "geometry")
         case None => None
         case Some(x2) => TagNamed(x2, "mesh"))
    case _ => None
  }

  /** The numbers of the `float_array` of the last source in the mesh whose `id` mentions `key`. */
  function GeometryFloats(source: Collada, key: string): (r: Option<seq<Decimal>>)
    ensures r.Some? ==> MeshOf(source).Some? && LastSourceFor(MeshOf(source).value.children, key).Some?
  {
    match MeshOf(source)
    case None => None
    case Some(x3) =>
      match LastSourceFor(x3.children, key)
      case None => None
      case Some(x) =>
        match TagNamed(x, "float_array")
        case None => None
        case Some(floatsTag) => FindFloats(floatsTag)
  }

  /** The path walk shared by the three `extract_*` functions that read a source. */
  method ExtractGeometryFloats(source: Collada, key: string) returns (r: Option<seq<Decimal>>)
    ensures r == GeometryFloats(source, key)
  {
    if !source.ColladaHeader? {
      return None;
    }
    var x1 := FindTagName(source.body, "library_geometries");
    if x1.None? {
      return None;
    }
    var x2 := FindTagName(x1.value, "geometry");
    if x2.None? {
      return None;
    }
    var x3 := FindTagName(x2.value, "mesh");
    if x3.None? {
      return None;
    }
    if !x3.value.ColladaTag? {
      return None;
    }
    var x := FindSource(x3.value.children, key);
    if x.None? {
      return None;
    }
    var floatsTag := FindTagName(x.value, "float_array");
    if floatsTag.None? {
      return None;
    }
    r := FindFloats(floatsTag.value);
  }

  /** The positions of the last source whose `id` mentions "position", three numbers each. */
  function PositionsIn(source: Collada): (r: Option<seq<Position>>)
    ensures r.None? <==> GeometryFloats(source, "position").None?
    ensures r.Some? ==> var fs := GeometryFloats(source, "position").value;
      |r.value| == |fs| / 3 &&
      forall i :: 0 <= i < |r.value| ==> r.value[i] == Position((fs[3 * i], fs[3 * i + 1], fs[3 * i + 2]))
  {
    match GeometryFloats(source, "position")
    case None => None
    case Some(fs) => Some(Positions(fs))
  }

  /** The normals of the last source whose `id` mentions "normal", three numbers each. */
  function NormalsIn(source: Collada): (r: Option<seq<Normal>>)
    ensures r.None? <==> GeometryFloats(source, "normal").None?
    ensures r.Some? ==> var fs := GeometryFloats(source, "normal").value;
      |r.value| == |fs| / 3 &&
      forall i :: 0 <= i < |r.value| ==> r.value[i] == Normal((fs[3 * i], fs[3 * i + 1], fs[3 * i + 2]))
  {
    match GeometryFloats(source, "normal")
    case None => None
    case Some(fs) => Some(Normals(fs))
  }

  /** The texture coordinates of the last source whose `id` mentions "map", two numbers each. */
  function TexCoordsIn(source: Collada): (r: Option<seq<TextureCoordinates>>)
    ensures r.None? <==> GeometryFloats(source, "map").None?
    ensures r.Some? ==> var fs := GeometryFloats(source, "map").value;
      |r.value| == |fs| / 2 &&
      forall i :: 0 <= i < |r.value| ==> r.value[i] == TextureCoordinates((fs[2 * i], fs[2 * i + 1]))
  {
    match GeometryFloats(source, "map")
    case None => None
    case Some(fs) => Some(TexCoords(fs))
  }

  /** `extract_positions`: the path walk, then grouping by three. */
  method ExtractPositions(source: Collada) returns (r: Option<seq<Position>>)
    ensures r == PositionsIn(source)
  {
    var floats := ExtractGeometryFloats(source, "position");
    if floats.None? {
      return None;
    }
    var ps := GroupToPositions(floats.value);
    r := Some(ps);
  }

  /** `extract_normals`: the path walk, then grouping by three. */
  method ExtractNormals(source: Collada) returns (r: Option<seq<Normal>>)
    ensures r == NormalsIn(source)
  {
    var floats := ExtractGeometryFloats(source, "normal");
    if floats.None? {
      return None;
    }
    var ns := GroupToNormals(floats.value);
    r := Some(ns);
  }

  /** `extract_texture_coordinates`: the path walk, then grouping by two. */
  method ExtractTextureCoordinates(source: Collada) returns (r: Option<seq<TextureCoordinates>>)
    ensures r == TexCoordsIn(source)
  {
    var floats := ExtractGeometryFloats(source, "map");
    if floats.None? {
      return None;
    }
    var cs := GroupToTexCoords(floats.value);
    r := Some(cs);
  }

  /** The `p` tag: header, `library_geometries`, `geometry`, `mesh`, `triangles`, `p`. */
  function TrianglesOf(source: Collada): (r: Option<Collada>)
    ensures r.Some? ==> MeshOf(source).Some? && IsTagNamed(r.value, "p")
  {
    match MeshOf(source)
    case None => None
    case Some(x3) =>
      match TagNamed(x3, "triangles")
      case None => None
      case Some(x4) => TagNamed(x4, "p")
  }

  /** The indices under the `p` tag of the last `triangles`, each number converted in order. */
  function ExtractIndices(source: Collada): (r: Option<seq<U16>>)
    ensures r.Some? <==> TrianglesOf(source).Some? && FindFloats(TrianglesOf(source).value).Some?
    ensures r.Some? ==> |r.value| == |FindFloats(TrianglesOf(source).value).value|
    ensures r.Some? ==> forall i :: 0 <= i < |r.value| ==>
      r.value[i] == AsU16(FindFloats(TrianglesOf(source).value).value[i])
  {
    match TrianglesOf(source)
    case None => None
    case Some(x5) =>
      match FindFloats(x5)
      case None => None
      case Some(floats) => Some(IndicesOf(floats))
  }

  // ---------------------------------------------------------------------------------
  // Packing vertices
  // ---------------------------------------------------------------------------------

  /** Triple `k` of `idx` points into the three attribute lists. */
  predicate TripleInRange(pos: seq<Position>, norm: seq<Normal>, tex: seq<TextureCoordinates>, idx: seq<U16>, k: nat)
    requires 3 * k + 2 < |idx|
  {
    idx[3 * k] < |pos| && idx[3 * k + 1] < |norm| && idx[3 * k + 2] < |tex|
  }

  /** The vertex built from triple `k`: a position, a normal and texture coordinates. */
  function VertexOf(pos: seq<Position>, norm: seq<Normal>, tex: seq<TextureCoordinates>, idx: seq<U16>, k: nat): Vertex
    requires 3 * k + 2 < |idx| && TripleInRange(pos, norm, tex, idx, k)
  {
    Vertex(pos[idx[3 * k]].position, norm[idx[3 * k + 1]].normal, tex[idx[3 * k + 2]].coordinates)
  }

  /** One vertex per complete index triple, or nothing when any index points past its list. */
  function Packed(pos: seq<Position>, norm: seq<Normal>, tex: seq<TextureCoordinates>, idx: seq<U16>): Option<seq<Vertex>>
    decreases |idx|
  {
    if |idx| < 3 then Some([])
    else if idx[0] < |pos| && idx[1] < |norm| && idx[2] < |tex| then
      match Packed(pos, norm, tex, idx[3..])
      case None => None
      case Some(vs) => Some([Vertex(pos[idx[0]].position, norm[idx[1]].normal, tex[idx[2]].coordinates)] + vs)
    else None
  }

  /**
   * Packing succeeds exactly when every complete triple is in range; then vertex `k` is
   * built from triple `k`, and one or two trailing indices are ignored.
   */
  lemma {:induction false} PackedSpec(pos: seq<Position>, norm: seq<Normal>, tex: seq<TextureCoordinates>, idx: seq<U16>)
    decreases |idx|
    ensures Packed(pos, norm, tex, idx).Some? <==>
      forall k :: 0 <= k < |idx| / 3 ==> TripleInRange(pos, norm, tex, idx, k)
    ensures Packed(pos, norm, tex, idx).Some? ==>
      |Packed(pos, norm, tex, idx).value| == |idx| / 3 &&
      forall k :: 0 <= k < |idx| / 3 ==> Packed(pos, norm, tex, idx).value[k] == VertexOf(pos, norm, tex, idx, k)
  {
    if |idx| >= 3 {
      var rest := idx[3..];
      PackedSpec(pos, norm, tex, rest);
      assert |idx| / 3 == |rest| / 3 + 1;
      forall k | 0 < k < |idx| / 3
        ensures rest[3 * (k - 1)] == idx[3 * k] && rest[3 * (k - 1) + 1] == idx[3 * k + 1]
        ensures rest[3 * (k - 1) + 2] == idx[3 * k + 2]
      {
      }
      if idx[0] < |pos| && idx[1] < |norm| && idx[2] < |tex| {
        if Packed(pos, norm, tex, rest).Some? {
          var vs := Packed(pos, norm, tex, rest).value;
          var v := Vertex(pos[idx[0]].position, norm[idx[1]].normal, tex[idx[2]].coordinates);
          assert Packed(pos, norm, tex, idx) == Some([v] + vs);
          forall k | 0 <= k < |idx| / 3
            ensures TripleInRange(pos, norm, tex, idx, k) && ([v] + vs)[k] == VertexOf(pos, norm, tex, idx, k)
          {
            if k > 0 {
              assert TripleInRange(pos, norm, tex, rest, k - 1);
              assert ([v] + vs)[k] == vs[k - 1];
            }
          }
        } else {
          var k0 :| 0 <= k0 < |rest| / 3 && !TripleInRange(pos, norm, tex, rest, k0);
          assert !TripleInRange(pos, norm, tex, idx, k0 + 1);
        }
      } else {
        assert !TripleInRange(pos, norm, tex, idx, 0);
      }
    }
  }

  /** Only complete triples matter: dropping the one or two trailing indices changes nothing. */
  lemma {:induction false} PackedIgnoresTail(pos: seq<Position>, norm: seq<Normal>, tex: seq<TextureCoordinates>, idx: seq<U16>)
    decreases |idx|
    ensures Packed(pos, norm, tex, idx) == Packed(pos, norm, tex, idx[..3 * (|idx| / 3)])
  {
    var full := idx[..3 * (|idx| / 3)];
    if |idx| >= 3 {
      PackedIgnoresTail(pos, norm, tex, idx[3..]);
      assert full[3..] == idx[3..][..3 * (|idx[3..]| / 3)];
      assert full[..3] == idx[..3];
    }
  }

  /** The vertices `front` followed by those of `o`, when there are any. */
  function Prepend(front: seq<Vertex>, o: Option<seq<Vertex>>): (r: Option<seq<Vertex>>)
    ensures r.Some? <==> o.Some?
  {
    match o
    case None => None
    case Some(vs) => Some(front + vs)
  }

  lemma PrependNothing(o: Option<seq<Vertex>>)
    ensures Prepend([], o) == o
  {
    if o.Some? {
      assert [] + o.value == o.value;
    }
  }

  lemma PrependTwice(a: seq<Vertex>, b: seq<Vertex>, o: Option<seq<Vertex>>)
    ensures Prepend(a, Prepend(b, o)) == Prepend(a + b, o)
  {
    if o.Some? {
      assert a + (b + o.value) == (a + b) + o.value;
    }
  }

  /** The loop of `pack_verts`: three indices at a time, giving up at the first one out of range. */
  method PackVerts(pos: seq<Position>, norm: seq<Normal>, tex: seq<TextureCoordinates>, indices: seq<U16>)
    returns (r: Option<seq<Vertex>>)
    ensures r == Packed(pos, norm, tex, indices)
  {
    var res: seq<Vertex> := [];
    var idx: seq<U16> := indices;
    PrependNothing(Packed(pos, norm, tex, idx));
    while |idx| >= 3
      invariant Packed(pos, norm, tex, indices) == Prepend(res, Packed(pos, norm, tex, idx))
      decreases |idx|
    {
      var vert := DefaultVertex();
      if idx[0] < |pos| {
        vert := vert.(position := pos[idx[0]].position);
      } else {
        return None;
      }
      if idx[1] < |norm| {
        vert := vert.(normal := norm[idx[1]].normal);
      } else {
        return None;
      }
      if idx[2] < |tex| {
        vert := vert.(texCoords := tex[idx[2]].coordinates);
      } else {
        return None;
      }
      assert Packed(pos, norm, tex, idx) == Prepend([vert], Packed(pos, norm, tex, idx[3..]));
      PrependTwice(res, [vert], Packed(pos, norm, tex, idx[3..]));
      idx := idx[3..];
      res := res + [vert];
    }
    assert res + [] == res;
    return Some(res);
  }

  /** The indexed packing is not implemented: it always reports failure. */
  function PackIndexedVerts(pos: seq<Position>, norm: seq<Normal>, tex: seq<TextureCoordinates>, indices: seq<U16>)
    : (r: Option<(seq<Position>, seq<Normal>, seq<TextureCoordinates>, seq<U16>)>)
    ensures r.None?
  {
    None
  }
}
