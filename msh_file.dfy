/**
 * The MshFile class of src/MshFile.cpp: an object that owns a lexer and
 * fills its fields section by section. Every method is proved to do what
 * the matching function of module MshFormat computes from the tokens the
 * lexer had still to deliver when the method was called.
 */
module MshFile {
  import opened Results
  import opened Tokens
  import MshLexer
  import opened MshFormat

  class MshFile {
    const lexer: MshLexer.Lexer
    var version: Float
    var binary: bool
    var endianness: int
    var physicalNames: seq<PhysicalName>
    var pointEntities: seq<PointEntity>
    var curveEntities: seq<MultiDEntity>
    var surfaceEntities: seq<MultiDEntity>
    var volumeEntities: seq<MultiDEntity>
    var nodes: seq<Node>
    var elementBlocks: seq<ElementBlock>

    /** The object's fields as a value. */
    function Doc(): Document
      reads this
    {
      Document(version, binary, endianness, physicalNames, pointEntities, curveEntities,
               surfaceEntities, volumeEntities, nodes, elementBlocks)
    }

    /** The tokens of the opened file. */
    ghost function Stream(): seq<Token> {
      lexer.stream
    }

    /** How many of them read() has delivered. */
    ghost function At(): nat
      reads this, lexer
    {
      lexer.Position()
    }

    ghost predicate Valid()
      reads this, lexer
    {
      lexer.Valid()
    }

    /** The file opened: version 0, ASCII, endianness 0, every list empty. */
    constructor (stream: seq<Token>)
      ensures Doc() == InitialDocument
      ensures Stream() == stream && At() == 0 && Valid()
      ensures fresh(lexer)
    {
      lexer := new MshLexer.Lexer(stream);
      version := ZeroVersion;
      binary := false;
      endianness := 0;
      physicalNames := [];
      pointEntities := [];
      curveEntities := [];
      surfaceEntities := [];
      volumeEntities := [];
      nodes := [];
      elementBlocks := [];
    }

    /** get_version */
    function GetVersion(): (v: Float)
      reads this
      ensures v == Doc().version
    {
      version
    }

    /** is_ascii */
    function IsAscii(): (a: bool)
      reads this
      ensures a <==> !Doc().binary
    {
      !binary
    }

    // ------------------------------------------------------------ readers

    /** read(): one token from the lexer. */
    method Read() returns (r: Result<Token>)
      requires Valid()
      modifies lexer
      ensures Valid() && !lexer.haveToken && Follows(r, Next(Stream(), old(At())), At())
    {
      r := lexer.Read();
    }

    method ReadInt() returns (r: Result<int>)
      requires Valid()
      modifies lexer
      ensures Valid() && Follows(r, MshFormat.ReadInt(Current, Stream(), old(At())), At())
    {
      var t :- Read();
      r := MshLexer.AsInt(t);
    }

    method ReadFloat() returns (r: Result<Float>)
      requires Valid()
      modifies lexer
      ensures Valid() && Follows(r, MshFormat.ReadFloat(Current, Stream(), old(At())), At())
    {
      var t :- Read();
      r := MshLexer.AsFloat(t);
    }

    method ReadString() returns (r: Result<string>)
      requires Valid()
      modifies lexer
      ensures Valid() && Follows(r, MshFormat.ReadString(Current, Stream(), old(At())), At())
    {
      var t :- Read();
      r := MshLexer.AsString(t);
    }

    /** read_end_section_marker */
    method ReadEndSectionMarker(name: string) returns (r: Result<()>)
      requires Valid()
      modifies lexer
      ensures Valid() && Follows(r, EndMarker(Stream(), old(At()), name), At())
    {
      var t :- Read();
      if t.kind != Section || t.str != name {
        return Err(TagNotFound(name));
      }
      r := Ok(());
    }

    /** process_array_of_ints */
    method ProcessArrayOfInts() returns (r: Result<seq<int>>)
      requires Valid()
      modifies lexer
      ensures Valid() && Follows(r, ArrayOfInts(Current, Stream(), old(At())), At())
    {
      var n :- ReadInt();
      r := ReadInts(n);
    }

    /** The counted loop reading `n` integers. */
    method ReadInts(n: int) returns (r: Result<seq<int>>)
      requires Valid()
      modifies lexer
      ensures Valid() && Follows(r, MshFormat.ReadInts(Current, Stream(), old(At()), n), At())
    {
      var values: seq<int> := [];
      var i := 0;
      ghost var p0 := At();
      PrefixedEmpty(MshFormat.ReadInts(Current, Stream(), p0, n));
      while i < n
        invariant ReadIntsLoop(Current, Stream(), p0, n, values, At(), i)
        invariant 0 <= i <= Count(n)
        invariant Valid()
        decreases n - i
      {
        ghost var q := At();
        var num := ReadInt();
        ReadIntsLoopStep(Current, Stream(), p0, n, values, q, i, num, At());
        if num.Err? {
          return Err(num.error);
        }
        values := values + [num.value];
        i := i + 1;
      }
      PrefixedNil(values, At());
      r := Ok(values);
    }

    /** skip_section: reads tokens up to and including the next Section marker. */
    method SkipSection() returns (r: Result<()>)
      requires Valid()
      modifies lexer
      ensures Valid() && Follows(r, MshFormat.SkipSection(Stream(), old(At())), At())
    {
      while true
        invariant Valid()
        invariant MshFormat.SkipSection(Stream(), old(At())) == MshFormat.SkipSection(Stream(), At())
        decreases |Stream()| - At()
      {
        var t :- Read();
        if t.kind == Section {
          return Ok(());
        }
      }
    }

    // ----------------------------------------------------------- sections

    /** read_blob<int>(): the raw word after the last token read. */
    method ReadBlob() returns (v: int)
      requires Valid() && !lexer.haveToken
      modifies lexer
      ensures Valid() && v == Blob(Stream(), old(At())).value && At() == Blob(Stream(), old(At())).next
    {
      v := lexer.ReadBlob();
    }

    /** process_mesh_format_section */
    method ProcessMeshFormatSection() returns (r: Result<()>)
      requires Valid()
      modifies this, lexer
      ensures Valid() && Steps(r, MeshFormatSection(old(Doc()), Stream(), old(At())), Doc(), At())
    {
      var v :- ReadFloat();
      version := v;
      var fileType :- ReadInt();
      binary := fileType == 1;
      var dataSize :- Read();
      if binary {
        endianness := ReadBlob();
      }
      assert Doc() == old(Doc()).(version := v, binary := binary, endianness := endianness);
      r := ReadEndSectionMarker("$EndMeshFormat");
    }

    /** The body of the loop of process_physical_names_section. */
    method ReadPhysicalName() returns (r: Result<PhysicalName>)
      requires Valid()
      modifies lexer
      ensures Valid() && Follows(r, PhysicalNameRecord(Current, Stream(), old(At())), At())
    {
      var dimension :- ReadInt();
      var tag :- ReadInt();
      var name :- ReadString();
      r := Ok(PhysicalName(dimension, tag, name));
    }

    /** The loop of process_physical_names_section: `n` names. */
    method ReadPhysicalNames(n: int) returns (r: Result<seq<PhysicalName>>)
      requires Valid()
      modifies lexer
      ensures Valid() && Follows(r, PhysicalNameList(Current, Stream(), old(At()), n), At())
    {
      var list: seq<PhysicalName> := [];
      var i := 0;
      ghost var p0 := At();
      PrefixedEmpty(PhysicalNameList(Current, Stream(), p0, n));
      while i < n
        invariant PhysicalNameListLoop(Current, Stream(), p0, n, list, At(), i)
        invariant 0 <= i <= Count(n)
        invariant Valid()
        decreases n - i
      {
        ghost var q := At();
        var pn := ReadPhysicalName();
        PhysicalNameListLoopStep(Current, Stream(), p0, n, list, q, i, pn, At());
        if pn.Err? {
          return Err(pn.error);
        }
        list := list + [pn.value];
        i := i + 1;
      }
      PrefixedNil(list, At());
      r := Ok(list);
    }

    /** process_physical_names_section */
    method ProcessPhysicalNamesSection() returns (r: Result<()>)
      requires Valid()
      modifies this, lexer
      ensures Valid() && Steps(r, ApplyPhysicalNames(old(Doc()), Stream(), old(At())), Doc(), At())
    {
      var n :- ReadInt();
      var list :- ReadPhysicalNames(n);
      physicalNames := physicalNames + list;
      r := ReadEndSectionMarker("$EndPhysicalNames");
    }

    /** The body of the point-entity loop of process_entities_section. */
    method ReadPointEntity() returns (r: Result<PointEntity>)
      requires Valid()
      modifies lexer
      ensures Valid() && Follows(r, PointEntityRecord(Current, Stream(), old(At())), At())
    {
      var tag :- ReadInt();
      var x :- ReadFloat();
      var y :- ReadFloat();
      var z :- ReadFloat();
      var physicalTags :- ProcessArrayOfInts();
      r := Ok(PointEntity(tag, x, y, z, physicalTags));
    }

    /** The body of the curve, surface and volume loops of process_entities_section. */
    method ReadMultiDEntity() returns (r: Result<MultiDEntity>)
      requires Valid()
      modifies lexer
      ensures Valid() && Follows(r, MultiDEntityRecord(Current, Stream(), old(At())), At())
    {
      var tag :- ReadInt();
      var minX :- ReadFloat();
      var minY :- ReadFloat();
      var minZ :- ReadFloat();
      var maxX :- ReadFloat();
      var maxY :- ReadFloat();
      var maxZ :- ReadFloat();
      var physicalTags :- ProcessArrayOfInts();
      var boundingTags :- ProcessArrayOfInts();
      r := Ok(MultiDEntity(tag, minX, minY, minZ, maxX, maxY, maxZ, physicalTags, boundingTags));
    }

    /** The point-entity loop: `n` point entities. */
    method ReadPointEntities(n: int) returns (r: Result<seq<PointEntity>>)
      requires Valid()
      modifies lexer
      ensures Valid() && Follows(r, PointEntityList(Current, Stream(), old(At()), n), At())
    {
      var list: seq<PointEntity> := [];
      var i := 0;
      ghost var p0 := At();
      PrefixedEmpty(PointEntityList(Current, Stream(), p0, n));
      while i < n
        invariant PointEntityListLoop(Current, Stream(), p0, n, list, At(), i)
        invariant 0 <= i <= Count(n)
        invariant Valid()
        decreases n - i
      {
        ghost var q := At();
        var pe := ReadPointEntity();
        PointEntityListLoopStep(Current, Stream(), p0, n, list, q, i, pe, At());
        if pe.Err? {
          return Err(pe.error);
        }
        list := list + [pe.value];
        i := i + 1;
      }
      PrefixedNil(list, At());
      r := Ok(list);
    }

    /** A curve, surface or volume loop: `n` entities. */
    method ReadMultiDEntities(n: int) returns (r: Result<seq<MultiDEntity>>)
      requires Valid()
      modifies lexer
      ensures Valid() && Follows(r, MultiDEntityList(Current, Stream(), old(At()), n), At())
    {
      var list: seq<MultiDEntity> := [];
      var i := 0;
      ghost var p0 := At();
      PrefixedEmpty(MultiDEntityList(Current, Stream(), p0, n));
      while i < n
        invariant MultiDEntityListLoop(Current, Stream(), p0, n, list, At(), i)
        invariant 0 <= i <= Count(n)
        invariant Valid()
        decreases n - i
      {
        ghost var q := At();
        var ent := ReadMultiDEntity();
        MultiDEntityListLoopStep(Current, Stream(), p0, n, list, q, i, ent, At());
        if ent.Err? {
          return Err(ent.error);
        }
        list := list + [ent.value];
        i := i + 1;
      }
      PrefixedNil(list, At());
      r := Ok(list);
    }

    /** The four counts process_entities_section starts with. */
    method ReadEntityCounts() returns (r: Result<EntityCounts>)
      requires Valid()
      modifies lexer
      ensures Valid() && Follows(r, EntityCountsRecord(Current, Stream(), old(At())), At())
    {
      var numPoints :- ReadInt();
      var numCurves :- ReadInt();
      var numSurfaces :- ReadInt();
      var numVolumes :- ReadInt();
      r := Ok(EntityCounts(numPoints, numCurves, numSurfaces, numVolumes));
    }

    /** The four counts and the four loops of process_entities_section. */
    method ReadEntityLists() returns (r: Result<Entities>)
      requires Valid()
      modifies lexer
      ensures Valid() && Follows(r, EntityLists(Current, Stream(), old(At())), At())
    {
      var c :- ReadEntityCounts();
      var points :- ReadPointEntities(c.points);
      var curves :- ReadMultiDEntities(c.curves);
      var surfaces :- ReadMultiDEntities(c.surfaces);
      var volumes :- ReadMultiDEntities(c.volumes);
      r := Ok(Entities(points, curves, surfaces, volumes));
    }

    /** process_entities_section */
    method ProcessEntitiesSection() returns (r: Result<()>)
      requires Valid()
      modifies this, lexer
      ensures Valid() && Steps(r, ApplyEntities(old(Doc()), Stream(), old(At())), Doc(), At())
    {
      var e :- ReadEntityLists();
      pointEntities := pointEntities + e.points;
      curveEntities := curveEntities + e.curves;
      surfaceEntities := surfaceEntities + e.surfaces;
      volumeEntities := volumeEntities + e.volumes;
      assert Doc() == AddEntities(old(Doc()), e);
      r := ReadEndSectionMarker("$EndEntities");
    }

    /** The parametric values of one node (the par_pr block of process_nodes_section). */
    method ReadParametricCoords(dim: int) returns (r: Result<seq<Float>>)
      requires Valid()
      modifies lexer
      ensures Valid() && Follows(r, ParametricCoords(Current, Stream(), old(At()), dim), At())
    {
      var u: seq<Float> := [];
      if dim >= 1 {
        var x :- ReadFloat();
        u := [x];
      }
      var v: seq<Float> := [];
      if dim >= 2 {
        var y :- ReadFloat();
        v := [y];
      }
      var w: seq<Float> := [];
      if dim == 3 {
        var z :- ReadFloat();
        w := [z];
      }
      r := Ok(u + v + w);
    }

    /** The x, y, z reads of one node of process_nodes_section. */
    method ReadPoint() returns (r: Result<Point>)
      requires Valid()
      modifies lexer
      ensures Valid() && Follows(r, MshFormat.ReadPoint(Current, Stream(), old(At())), At())
    {
      var x :- ReadFloat();
      var y :- ReadFloat();
      var z :- ReadFloat();
      r := Ok(Point(x, y, z));
    }

    /** One entity block of process_nodes_section, with its per-tag loop. */
    method ReadNodeBlock() returns (r: Result<Node>)
      requires Valid()
      modifies lexer
      ensures Valid() && Follows(r, NodeBlock(Stream(), old(At())), At())
    {
      var dimension :- ReadInt();
      var entityTag :- ReadInt();
      var par :- ReadInt();
      var parametric := par == 1;
      var tags :- ProcessArrayOfInts();
      var coords :- ReadNodeCoordinates(dimension, parametric, |tags|);
      r := Ok(Node(dimension, entityTag, parametric, tags, coords.coordinates, coords.parCoords));
    }

    /** The per-tag loop of process_nodes_section: `k` points, each with its parametric values. */
    method ReadNodeCoordinates(dimension: int, parametric: bool, k: nat) returns (r: Result<NodeCoordinates>)
      requires Valid()
      modifies lexer
      ensures Valid() && Follows(r, NodeCoords(Stream(), old(At()), dimension, parametric, k), At())
    {
      var coordinates: seq<Point> := [];
      var parCoords: seq<seq<Float>> := [];
      var i := 0;
      ghost var p0 := At();
      CoordsPrefixedEmpty(NodeCoords(Stream(), p0, dimension, parametric, k));
      while i < k
        invariant NodeCoordsLoop(Stream(), dimension, parametric, p0, k, NodeCoordinates(coordinates, parCoords), At(), i)
        invariant 0 <= i <= k
        invariant Valid()
      {
        ghost var q := At();
        var pt := ReadPoint();
        ghost var q1 := At();
        var pc: Result<seq<Float>> := Ok([]);
        if pt.Ok? && parametric {
          pc := ReadParametricCoords(dimension);
        }
        NodeCoordsLoopStep(Stream(), dimension, parametric, p0, k, NodeCoordinates(coordinates, parCoords),
                           q, i, pt, q1, pc, At());
        if pt.Err? {
          return Err(pt.error);
        }
        if pc.Err? {
          return Err(pc.error);
        }
        coordinates := coordinates + [pt.value];
        if parametric {
          parCoords := parCoords + [pc.value];
        }
        i := i + 1;
      }
      CoordsPrefixedNil(NodeCoordinates(coordinates, parCoords), At());
      r := Ok(NodeCoordinates(coordinates, parCoords));
    }

    /**
     * The four counts $Nodes and $Elements start with; only the number of
     * entity blocks is kept.
     */
    method ReadSectionHeader() returns (r: Result<int>)
      requires Valid()
      modifies lexer
      ensures Valid() && Follows(r, SectionHeader(Current, Stream(), old(At())), At())
    {
      var numBlocks :- ReadInt();
      var total :- ReadInt();
      var minTag :- ReadInt();
      var maxTag :- ReadInt();
      r := Ok(numBlocks);
    }

    /** The entity-block loop of process_nodes_section: `n` blocks. */
    method ReadNodeBlocks(n: int) returns (r: Result<seq<Node>>)
      requires Valid()
      modifies lexer
      ensures Valid() && Follows(r, NodeBlockList(Stream(), old(At()), n), At())
    {
      var list: seq<Node> := [];
      var i := 0;
      ghost var p0 := At();
      PrefixedEmpty(NodeBlockList(Stream(), p0, n));
      while i < n
        invariant NodeBlockListLoop(Stream(), p0, n, list, At(), i)
        invariant 0 <= i <= Count(n)
        invariant Valid()
        decreases n - i
      {
        ghost var q := At();
        var node := ReadNodeBlock();
        NodeBlockListLoopStep(Stream(), p0, n, list, q, i, node, At());
        if node.Err? {
          return Err(node.error);
        }
        list := list + [node.value];
        i := i + 1;
      }
      PrefixedNil(list, At());
      r := Ok(list);
    }

    /** process_nodes_section */
    method ProcessNodesSection() returns (r: Result<()>)
      requires Valid()
      modifies this, lexer
      ensures Valid() && Steps(r, ApplyNodes(old(Doc()), Stream(), old(At())), Doc(), At())
    {
      var numBlocks :- ReadSectionHeader();
      var list :- ReadNodeBlocks(numBlocks);
      nodes := nodes + list;
      r := ReadEndSectionMarker("$EndNodes");
    }

    /** One element: its tag, then `arity` node tags. */
    method ReadElement(arity: int) returns (r: Result<Element>)
      requires Valid()
      modifies lexer
      ensures Valid() && Follows(r, ElementRecord(Stream(), old(At()), arity), At())
    {
      var tag :- ReadInt();
      var nodeTags :- ReadInts(arity);
      r := Ok(Element(tag, nodeTags));
    }

    /** One entity block of process_elements_section, with its per-element loop. */
    method ReadElementBlock() returns (r: Result<ElementBlock>)
      requires Valid()
      modifies lexer
      ensures Valid() && Follows(r, ElementBlockRecord(Stream(), old(At())), At())
    {
      var dimension :- ReadInt();
      var tag :- ReadInt();
      var elementType :- ReadInt();
      var arity :- GetNodesPerElement(elementType);
      var count :- ReadInt();
      var elements :- ReadElements(arity, count);
      r := Ok(ElementBlock(dimension, tag, elementType, elements));
    }

    /** The per-element loop of process_elements_section: `count` elements of `arity` nodes. */
    method ReadElements(arity: int, count: int) returns (r: Result<seq<Element>>)
      requires Valid()
      modifies lexer
      ensures Valid() && Follows(r, ElementList(Stream(), old(At()), arity, count), At())
    {
      var elements: seq<Element> := [];
      var j := 0;
      ghost var p0 := At();
      PrefixedEmpty(ElementList(Stream(), p0, arity, count));
      while j < count
        invariant ElementListLoop(Stream(), arity, p0, count, elements, At(), j)
        invariant 0 <= j <= Count(count)
        invariant Valid()
        decreases count - j
      {
        ghost var q := At();
        var el := ReadElement(arity);
        ElementListLoopStep(Stream(), arity, p0, count, elements, q, j, el, At());
        if el.Err? {
          return Err(el.error);
        }
        elements := elements + [el.value];
        j := j + 1;
      }
      PrefixedNil(elements, At());
      r := Ok(elements);
    }

    /** The entity-block loop of process_elements_section: `n` blocks. */
    method ReadElementBlocks(n: int) returns (r: Result<seq<ElementBlock>>)
      requires Valid()
      modifies lexer
      ensures Valid() && Follows(r, ElementBlockList(Stream(), old(At()), n), At())
    {
      var list: seq<ElementBlock> := [];
      var i := 0;
      ghost var p0 := At();
      PrefixedEmpty(ElementBlockList(Stream(), p0, n));
      while i < n
        invariant ElementBlockListLoop(Stream(), p0, n, list, At(), i)
        invariant 0 <= i <= Count(n)
        invariant Valid()
        decreases n - i
      {
        ghost var q := At();
        var blk := ReadElementBlock();
        ElementBlockListLoopStep(Stream(), p0, n, list, q, i, blk, At());
        if blk.Err? {
          return Err(blk.error);
        }
        list := list + [blk.value];
        i := i + 1;
      }
      PrefixedNil(list, At());
      r := Ok(list);
    }

    /** process_elements_section */
    method ProcessElementsSection() returns (r: Result<()>)
      requires Valid()
      modifies this, lexer
      ensures Valid() && Steps(r, ApplyElements(old(Doc()), Stream(), old(At())), Doc(), At())
    {
      var numBlocks :- ReadSectionHeader();
      var list :- ReadElementBlocks(numBlocks);
      elementBlocks := elementBlocks + list;
      r := ReadEndSectionMarker("$EndElements");
    }

    /** process_section: dispatch on the opening marker's text. */
    method ProcessSection(token: Token) returns (r: Result<()>)
      requires Valid()
      modifies this, lexer
      ensures Valid() && Steps(r, SectionStep(old(Doc()), token.str, Stream(), old(At())), Doc(), At())
    {
      if token.str == "$MeshFormat" {
        r := ProcessMeshFormatSection();
      } else if token.str == "$PhysicalNames" {
        r := ProcessPhysicalNamesSection();
      } else if token.str == "$Entities" {
        r := ProcessEntitiesSection();
      } else if token.str == "$Nodes" {
        r := ProcessNodesSection();
      } else if token.str == "$Elements" {
        r := ProcessElementsSection();
      } else {
        r := SkipSection();
      }
    }

    /** peek(): the next token, which stays to be read. */
    method Peek() returns (r: Result<Token>)
      requires Valid()
      modifies lexer
      ensures Valid() && At() == old(At())
      ensures r.Ok? <==> At() < |Stream()|
      ensures r.Ok? ==> r.value == Stream()[At()]
      ensures r.Err? ==> r.error == UnexpectedEndOfFile
    {
      r := lexer.Peek();
    }

    /** parse: sections one after another until the lookahead is the end of the file. */
    method Parse() returns (r: Result<()>)
      requires Valid()
      modifies this, lexer
      ensures Valid()
      ensures match ParseFrom(old(Doc()), Stream(), old(At()))
              case Ok(d) => r == Ok(()) && Doc() == d
              case Err(e) => r == Err(e)
    {
      ghost var goal := ParseFrom(Doc(), Stream(), At());
      var token :- Peek();
      while true
        invariant Valid()
        invariant At() < |Stream()| && token == Stream()[At()]
        invariant goal == ParseFrom(Doc(), Stream(), At())
        decreases |Stream()| - At()
      {
        if token.kind != Section {
          return Err(ExpectedSectionStart);
        }
        ghost var d0, p0 := Doc(), At();
        var t := Read();
        r := ProcessSection(t.value);
        if r.Err? {
          ParseFromFails(d0, Stream(), p0);
          return;
        }
        ParseFromStep(d0, Stream(), p0, Parsed(Doc(), At()));
        token :- Peek();
        if token.kind == EndOfFile {
          return Ok(());
        }
      }
    }
  }

  /** Opening a file whose lexer delivers `stream`, then calling parse on it. */
  method ParseFile(stream: seq<Token>) returns (r: Result<Document>)
    ensures r == Parse(stream)
  {
    var file := new MshFile(stream);
    var done := file.Parse();
    if done.Err? {
      return Err(done.error);
    }
    r := Ok(file.Doc());
  }
}
