/**
 * The MshFile class of the earlier parser (src/gmshparsercppMshFile.cpp
 * and include/gmshparsercppMshFile.h): parse collects every token into a
 * queue first, then the section routines pop from its front. Each method
 * is proved to do what the matching function of module LegacyFormat
 * computes from the queue it started with.
 */
module LegacyMshFile {
  import opened Results
  import opened Tokens
  import opened TokenQueues
  import LegacyToken
  import opened MshFormat
  import LegacyFormat

  class MshFile {
    /** The tokens the lexer produces for the opened file, in order. */
    const file: seq<Token>
    /** What parse queues: the tokens scanned from the file, then one EndOfFile token. */
    ghost const stream: seq<Token>
    const tokens: TokenQueue
    var version: Float
    var binary: bool
    var physicalNames: seq<PhysicalName>

    ghost function Stream(): seq<Token> {
      stream
    }

    /** How many of them have been read. */
    ghost function At(): nat
      reads tokens
    {
      tokens.taken
    }

    /** The queue holds what parse queues, with At() of it read. */
    ghost predicate Valid()
      reads tokens
    {
      tokens.Holds(Stream())
    }

    /** The parsed fields as a value. */
    ghost function State(): LegacyFormat.State
      reads this
    {
      LegacyFormat.State(version, binary, physicalNames)
    }

    /** The file opened: version 0, ASCII, nothing queued or parsed. */
    constructor (file: seq<Token>)
      ensures this.file == file && Stream() == LegacyFormat.Scanned(file) + [EofToken]
      ensures State() == LegacyFormat.InitialState
      ensures tokens.Valid() && tokens.queued == [] && At() == 0
      ensures fresh(tokens)
    {
      this.file := file;
      this.stream := LegacyFormat.Scanned(file) + [EofToken];
      tokens := new TokenQueue();
      version := ZeroVersion;
      binary := false;
      physicalNames := [];
    }

    /** get_version */
    function GetVersion(): (v: Float)
      reads this
      ensures v == State().version
    {
      version
    }

    /** is_ascii */
    function IsAscii(): (a: bool)
      reads this
      ensures a <==> !State().binary
    {
      !binary
    }

    // ------------------------------------------------------------ queue

    /** peek: the front of the queue, which must not be empty. */
    method Peek() returns (t: Token)
      requires Valid() && At() < |Stream()|
      ensures t == Stream()[At()]
    {
      t := tokens.Front();
    }

    /** read: pops the front of the queue; an empty queue is the end of the file. */
    method Read() returns (r: Result<Token>)
      requires Valid()
      modifies tokens
      ensures Valid()
      ensures Follows(r, Next(Stream(), old(At())), At())
    {
      if tokens.NonEmpty() {
        var token := tokens.PopFront();
        return Ok(token);
      }
      return Err(UnexpectedEndOfFile);
    }

    method ReadInt() returns (r: Result<int>)
      requires Valid()
      modifies tokens
      ensures Valid()
      ensures Follows(r, MshFormat.ReadInt(Legacy, Stream(), old(At())), At())
    {
      var t :- Read();
      r := LegacyToken.AsInt(t);
    }

    method ReadFloat() returns (r: Result<Float>)
      requires Valid()
      modifies tokens
      ensures Valid()
      ensures Follows(r, MshFormat.ReadFloat(Legacy, Stream(), old(At())), At())
    {
      var t :- Read();
      r := LegacyToken.AsFloat(t);
    }

    method ReadString() returns (r: Result<string>)
      requires Valid()
      modifies tokens
      ensures Valid()
      ensures Follows(r, MshFormat.ReadString(Legacy, Stream(), old(At())), At())
    {
      var t :- Read();
      r := LegacyToken.AsString(t);
    }

    /** read_end_section_marker */
    method ReadEndSectionMarker(name: string) returns (r: Result<()>)
      requires Valid()
      modifies tokens
      ensures Valid()
      ensures Follows(r, EndMarker(Stream(), old(At()), name), At())
    {
      var sctEnd :- Read();
      if sctEnd.kind != Section || sctEnd.str != name {
        return Err(TagNotFound(name));
      }
      r := Ok(());
    }

    /** process_array_of_ints */
    method ProcessArrayOfInts() returns (r: Result<seq<int>>)
      requires Valid()
      modifies tokens
      ensures Valid()
      ensures Follows(r, ArrayOfInts(Legacy, Stream(), old(At())), At())
    {
      var n :- ReadInt();
      r := ReadInts(n);
    }

    /** `n` integers, read in order. */
    method ReadInts(n: int) returns (r: Result<seq<int>>)
      requires Valid()
      modifies tokens
      ensures Valid()
      ensures Follows(r, MshFormat.ReadInts(Legacy, Stream(), old(At()), n), At())
    {
      var values: seq<int> := [];
      var i := 0;
      ghost var p0 := At();
      PrefixedEmpty(MshFormat.ReadInts(Legacy, Stream(), p0, n));
      while i < n
        invariant ReadIntsLoop(Legacy, Stream(), p0, n, values, At(), i)
        invariant 0 <= i <= Count(n)
        invariant Valid()
        decreases n - i
      {
        ghost var q := At();
        var num := ReadInt();
        ReadIntsLoopStep(Legacy, Stream(), p0, n, values, q, i, num, At());
        if num.Err? {
          return Err(num.error);
        }
        values := values + [num.value];
        i := i + 1;
      }
      PrefixedNil(values, At());
      r := Ok(values);
    }

    // --------------------------------------------------------- sections

    /** process_mesh_format_section: no blob is read, whatever the file type. */
    method ProcessMeshFormatSection() returns (r: Result<()>)
      requires Valid()
      modifies this, tokens
      ensures Valid()
      ensures Steps(r, LegacyFormat.MeshFormatSection(old(State()), Stream(), old(At())), State(), At())
    {
      var sctStart :- Read();
      var v :- ReadFloat();
      version := v;
      var fileType :- ReadInt();
      binary := fileType == 1;
      var dataSize :- Read();
      r := ReadEndSectionMarker("$EndMeshFormat");
    }

    /** One (dimension, tag, name) triple. */
    method ReadPhysicalName() returns (r: Result<PhysicalName>)
      requires Valid()
      modifies tokens
      ensures Valid()
      ensures Follows(r, PhysicalNameRecord(Legacy, Stream(), old(At())), At())
    {
      var dimension :- ReadInt();
      var tag :- ReadInt();
      var name :- ReadString();
      r := Ok(PhysicalName(dimension, tag, name));
    }

    /** The loop of process_physical_names_section: `n` names. */
    method ReadPhysicalNames(n: int) returns (r: Result<seq<PhysicalName>>)
      requires Valid()
      modifies tokens
      ensures Valid()
      ensures Follows(r, PhysicalNameList(Legacy, Stream(), old(At()), n), At())
    {
      var list: seq<PhysicalName> := [];
      var i := 0;
      ghost var p0 := At();
      PrefixedEmpty(PhysicalNameList(Legacy, Stream(), p0, n));
      while i < n
        invariant PhysicalNameListLoop(Legacy, Stream(), p0, n, list, At(), i)
        invariant 0 <= i <= Count(n)
        invariant Valid()
        decreases n - i
      {
        ghost var q := At();
        var pn := ReadPhysicalName();
        PhysicalNameListLoopStep(Legacy, Stream(), p0, n, list, q, i, pn, At());
        if pn.Err? {
          return Err(pn.error);
        }
        list := list + [pn.value];
        i := i + 1;
      }
      PrefixedNil(list, At());
      r := Ok(list);
    }

    /** process_physical_names_section */
    method ProcessPhysicalNamesSection() returns (r: Result<()>)
      requires Valid()
      modifies this, tokens
      ensures Valid()
      ensures Steps(r, LegacyFormat.PhysicalNamesSection(old(State()), Stream(), old(At())), State(), At())
    {
      var sctStart :- Read();
      var n :- ReadInt();
      var list :- ReadPhysicalNames(n);
      physicalNames := physicalNames + list;
      r := ReadEndSectionMarker("$EndPhysicalNames");
    }

    method ReadPointEntity() returns (r: Result<PointEntity>)
      requires Valid()
      modifies tokens
      ensures Valid()
      ensures Follows(r, PointEntityRecord(Legacy, Stream(), old(At())), At())
    {
      var tag :- ReadInt();
      var x :- ReadFloat();
      var y :- ReadFloat();
      var z :- ReadFloat();
      var physTags :- ProcessArrayOfInts();
      r := Ok(PointEntity(tag, x, y, z, physTags));
    }

    method ReadPointEntities(n: int) returns (r: Result<seq<PointEntity>>)
      requires Valid()
      modifies tokens
      ensures Valid()
      ensures Follows(r, PointEntityList(Legacy, Stream(), old(At()), n), At())
    {
      var list: seq<PointEntity> := [];
      var i := 0;
      ghost var p0 := At();
      PrefixedEmpty(PointEntityList(Legacy, Stream(), p0, n));
      while i < n
        invariant PointEntityListLoop(Legacy, Stream(), p0, n, list, At(), i)
        invariant 0 <= i <= Count(n)
        invariant Valid()
        decreases n - i
      {
        ghost var q := At();
        var pe := ReadPointEntity();
        PointEntityListLoopStep(Legacy, Stream(), p0, n, list, q, i, pe, At());
        if pe.Err? {
          return Err(pe.error);
        }
        list := list + [pe.value];
        i := i + 1;
      }
      PrefixedNil(list, At());
      r := Ok(list);
    }

    method ReadBoundingBox() returns (r: Result<seq<Float>>)
      requires Valid()
      modifies tokens
      ensures Valid()
      ensures Follows(r, BoundingBox(Legacy, Stream(), old(At())), At())
    {
      var minX :- ReadFloat();
      var minY :- ReadFloat();
      var minZ :- ReadFloat();
      var maxX :- ReadFloat();
      var maxY :- ReadFloat();
      var maxZ :- ReadFloat();
      r := Ok([minX, minY, minZ, maxX, maxY, maxZ]);
    }

    method ReadMultiDEntity() returns (r: Result<MultiDEntity>)
      requires Valid()
      modifies tokens
      ensures Valid()
      ensures Follows(r, MultiDEntityRecord(Legacy, Stream(), old(At())), At())
    {
      var tag :- ReadInt();
      var b :- ReadBoundingBox();
      var physTags :- ProcessArrayOfInts();
      var boundingTags :- ProcessArrayOfInts();
      r := Ok(MultiDEntity(tag, b[0], b[1], b[2], b[3], b[4], b[5], physTags, boundingTags));
    }

    method ReadMultiDEntities(n: int) returns (r: Result<seq<MultiDEntity>>)
      requires Valid()
      modifies tokens
      ensures Valid()
      ensures Follows(r, MultiDEntityList(Legacy, Stream(), old(At()), n), At())
    {
      var list: seq<MultiDEntity> := [];
      var i := 0;
      ghost var p0 := At();
      PrefixedEmpty(MultiDEntityList(Legacy, Stream(), p0, n));
      while i < n
        invariant MultiDEntityListLoop(Legacy, Stream(), p0, n, list, At(), i)
        invariant 0 <= i <= Count(n)
        invariant Valid()
        decreases n - i
      {
        ghost var q := At();
        var ent := ReadMultiDEntity();
        MultiDEntityListLoopStep(Legacy, Stream(), p0, n, list, q, i, ent, At());
        if ent.Err? {
          return Err(ent.error);
        }
        list := list + [ent.value];
        i := i + 1;
      }
      PrefixedNil(list, At());
      r := Ok(list);
    }

    /** The four counts process_entities_section starts with. */
    method ReadEntityCounts() returns (r: Result<EntityCounts>)
      requires Valid()
      modifies tokens
      ensures Valid()
      ensures Follows(r, EntityCountsRecord(Legacy, Stream(), old(At())), At())
    {
      var numPoints :- ReadInt();
      var numCurves :- ReadInt();
      var numSurfaces :- ReadInt();
      var numVolumes :- ReadInt();
      r := Ok(EntityCounts(numPoints, numCurves, numSurfaces, numVolumes));
    }

    /** The four counts and the four loops of process_entities_section. */
    method ReadEntityLists() returns (r: Result<Entities>)
      requires Valid()
      modifies tokens
      ensures Valid()
      ensures Follows(r, EntityLists(Legacy, Stream(), old(At())), At())
    {
      var c :- ReadEntityCounts();
      var points :- ReadPointEntities(c.points);
      var curves :- ReadMultiDEntities(c.curves);
      var surfaces :- ReadMultiDEntities(c.surfaces);
      var volumes :- ReadMultiDEntities(c.volumes);
      r := Ok(Entities(points, curves, surfaces, volumes));
    }

    /** process_entities_section: every value is read and then dropped. */
    method ProcessEntitiesSection() returns (r: Result<()>)
      requires Valid()
      modifies tokens
      ensures Valid()
      ensures Steps(r, LegacyFormat.EntitiesSection(old(State()), Stream(), old(At())), State(), At())
    {
      var sctStart :- Read();
      var e :- ReadEntityLists();
      r := ReadEndSectionMarker("$EndEntities");
    }

    /** One entity block of process_nodes_section: a single coordinate triple. */
    method ReadNodeBlock() returns (r: Result<()>)
      requires Valid()
      modifies tokens
      ensures Valid()
      ensures Follows(r, LegacyFormat.NodeBlock(Stream(), old(At())), At())
    {
      var dimension :- ReadInt();
      var tag :- ReadInt();
      var par :- ReadInt();
      var parametric := par == 1;
      var nodeTags :- ProcessArrayOfInts();
      var x :- ReadFloat();
      var y :- ReadFloat();
      var z :- ReadFloat();
      if parametric {
        if dimension >= 1 {
          var u :- ReadFloat();
        }
        if dimension >= 2 {
          var v :- ReadFloat();
        }
        if dimension == 3 {
          var w :- ReadFloat();
        }
      }
      r := Ok(());
    }

    /** The four counts $Nodes and $Elements start with; only the number of blocks is used. */
    method ReadSectionHeader() returns (r: Result<int>)
      requires Valid()
      modifies tokens
      ensures Valid()
      ensures Follows(r, SectionHeader(Legacy, Stream(), old(At())), At())
    {
      var numBlocks :- ReadInt();
      var total :- ReadInt();
      var minTag :- ReadInt();
      var maxTag :- ReadInt();
      r := Ok(numBlocks);
    }

    /** The block loop of process_nodes_section. */
    method ReadNodeBlocks(n: int) returns (r: Result<()>)
      requires Valid()
      modifies tokens
      ensures Valid()
      ensures Follows(r, LegacyFormat.NodeBlocks(Stream(), old(At()), n), At())
    {
      var i := 0;
      ghost var p0 := At();
      while i < n
        invariant LegacyFormat.NodeBlocksLoop(Stream(), p0, n, At(), i)
        invariant 0 <= i <= Count(n)
        invariant Valid()
        decreases n - i
      {
        ghost var q := At();
        var done := ReadNodeBlock();
        LegacyFormat.NodeBlocksLoopStep(Stream(), p0, n, q, i, done, At());
        if done.Err? {
          return Err(done.error);
        }
        i := i + 1;
      }
      r := Ok(());
    }

    /** process_nodes_section of this variant; the section loop never calls it. */
    method ProcessNodesSection() returns (r: Result<()>)
      requires Valid()
      modifies tokens
      ensures Valid()
      ensures Steps(r, LegacyFormat.NodesSection(old(State()), Stream(), old(At())), State(), At())
    {
      var sctStart :- Read();
      var numBlocks :- ReadSectionHeader();
      var done :- ReadNodeBlocks(numBlocks);
      r := ReadEndSectionMarker("$EndNodes");
    }

    /**
     * One element: its tag, then the arity of the block's type (`lookup`
     * is the outcome of get_nodes_per_element, which is pure; an unknown
     * type fails here, after the tag), then that many node tags.
     */
    method ReadElement(lookup: Result<nat>) returns (r: Result<()>)
      requires Valid()
      modifies tokens
      ensures Valid()
      ensures Follows(r, LegacyFormat.Element(Stream(), old(At()), lookup), At())
    {
      var elementTag :- ReadInt();
      var numNodesPerElement :- lookup;
      var nodeTags :- ReadInts(numNodesPerElement);
      r := Ok(());
    }

    /** The per-element loop of one block: `n` elements. */
    method ReadElements(lookup: Result<nat>, n: int) returns (r: Result<()>)
      requires Valid()
      modifies tokens
      ensures Valid()
      ensures Follows(r, LegacyFormat.Elements(Stream(), old(At()), lookup, n), At())
    {
      var j := 0;
      ghost var p0 := At();
      while j < n
        invariant LegacyFormat.ElementsLoop(Stream(), lookup, p0, n, At(), j)
        invariant 0 <= j <= Count(n)
        invariant Valid()
        decreases n - j
      {
        ghost var q := At();
        var done := ReadElement(lookup);
        LegacyFormat.ElementsLoopStep(Stream(), lookup, p0, n, q, j, done, At());
        if done.Err? {
          return Err(done.error);
        }
        j := j + 1;
      }
      r := Ok(());
    }

    method ReadElementBlock() returns (r: Result<()>)
      requires Valid()
      modifies tokens
      ensures Valid()
      ensures Follows(r, LegacyFormat.ElementBlock(Stream(), old(At())), At())
    {
      var dimension :- ReadInt();
      var tag :- ReadInt();
      var elementType :- ReadInt();
      var numElementsInBlock :- ReadInt();
      var done :- ReadElements(GetNodesPerElement(elementType), numElementsInBlock);
      r := Ok(());
    }

    /** The block loop of process_elements_section. */
    method ReadElementBlocks(n: int) returns (r: Result<()>)
      requires Valid()
      modifies tokens
      ensures Valid()
      ensures Follows(r, LegacyFormat.ElementBlocks(Stream(), old(At()), n), At())
    {
      var i := 0;
      ghost var p0 := At();
      while i < n
        invariant LegacyFormat.ElementBlocksLoop(Stream(), p0, n, At(), i)
        invariant 0 <= i <= Count(n)
        invariant Valid()
        decreases n - i
      {
        ghost var q := At();
        var done := ReadElementBlock();
        LegacyFormat.ElementBlocksLoopStep(Stream(), p0, n, q, i, done, At());
        if done.Err? {
          return Err(done.error);
        }
        i := i + 1;
      }
      r := Ok(());
    }

    /** process_elements_section of this variant; the section loop never calls it. */
    method ProcessElementsSection() returns (r: Result<()>)
      requires Valid()
      modifies tokens
      ensures Valid()
      ensures Steps(r, LegacyFormat.ElementsSection(old(State()), Stream(), old(At())), State(), At())
    {
      var sctStart :- Read();
      var numBlocks :- ReadSectionHeader();
      var done :- ReadElementBlocks(numBlocks);
      r := ReadEndSectionMarker("$EndElements");
    }

    /** skip_section: the opening marker, then tokens up to and including the next Section token. */
    method SkipSection() returns (r: Result<()>)
      requires Valid()
      modifies tokens
      ensures Valid()
      ensures Steps(r, LegacyFormat.SkipSection(old(State()), Stream(), old(At())), State(), At())
    {
      var token :- Read();
      ghost var start := At();
      while true
        invariant Valid()
        invariant MshFormat.SkipSection(Stream(), start) == MshFormat.SkipSection(Stream(), At())
        decreases |Stream()| - At()
      {
        token :- Read();
        if token.kind == Section {
          return Ok(());
        }
      }
    }

    /** process_optional_sections */
    method ProcessOptionalSections() returns (r: Result<()>)
      requires Valid() && LegacyFormat.EndsWithEof(Stream()) && At() < |Stream()|
      modifies this, tokens
      ensures Valid()
      ensures match LegacyFormat.OptionalSections(old(State()), Stream(), old(At()))
              case Ok(st) => r == Ok(()) && State() == st
              case Err(e) => r == Err(e)
    {
      var next := Peek();
      while next.kind != EndOfFile
        invariant Valid()
        invariant At() < |Stream()| && next == Stream()[At()]
        invariant LegacyFormat.OptionalSections(old(State()), Stream(), old(At()))
                  == LegacyFormat.OptionalSections(State(), Stream(), At())
        decreases |Stream()| - At()
      {
        if next.kind != Section {
          return Err(ExpectedSectionMarker);
        }
        var done: Result<()>;
        if next.str == "$PhysicalNames" {
          done := ProcessPhysicalNamesSection();
        } else if next.str == "$Entities" {
          done := ProcessEntitiesSection();
        } else {
          done := SkipSection();
        }
        if done.Err? {
          return Err(done.error);
        }
        LegacyFormat.MarkerKeepsEof(Stream(), At());
        next := Peek();
      }
      r := Ok(());
    }

    /** process_tokens */
    method ProcessTokens() returns (r: Result<()>)
      requires Valid() && LegacyFormat.EndsWithEof(Stream()) && At() < |Stream()|
      modifies this, tokens
      ensures Valid()
      ensures match LegacyFormat.ProcessTokens(old(State()), Stream(), old(At()))
              case Ok(st) => r == Ok(()) && State() == st
              case Err(e) => r == Err(e)
    {
      var next := Peek();
      if next.kind == Section {
        if next.str == "$MeshFormat" {
          var done :- ProcessMeshFormatSection();
          LegacyFormat.MarkerKeepsEof(Stream(), At());
          r := ProcessOptionalSections();
        } else {
          r := Err(ExpectedMeshFormat);
        }
      } else {
        r := Err(ExpectedSectionStart);
      }
    }

    /**
     * The collecting loop of parse: queues the tokens the scanner returns
     * until it reports the end of input, then one EndOfFile token.
     */
    method Enqueue()
      requires Stream() == LegacyFormat.Scanned(file) + [EofToken]
      requires tokens.Valid() && tokens.queued == []
      modifies tokens
      ensures Valid() && At() == old(At())
    {
      var i := 0;
      while i < |file| && file[i].kind != EndOfFile
        invariant 0 <= i <= |file|
        invariant tokens.Valid() && tokens.taken == 0 && tokens.queued == file[..i]
        invariant LegacyFormat.ScanEnd(file, 0) == LegacyFormat.ScanEnd(file, i)
      {
        assert file[..i + 1] == file[..i] + [file[i]];
        tokens.PushBack(file[i]);
        i := i + 1;
      }
      tokens.PushBack(EofToken);
    }

    /** parse: queue the whole file, then process the queue. */
    method Parse() returns (r: Result<()>)
      requires Stream() == LegacyFormat.Scanned(file) + [EofToken]
      requires tokens.Valid() && tokens.queued == []
      modifies this, tokens
      ensures Valid()
      ensures match LegacyFormat.ProcessTokens(old(State()), Stream(), old(At()))
              case Ok(st) => r == Ok(()) && State() == st
              case Err(e) => r == Err(e)
    {
      Enqueue();
      r := ProcessTokens();
    }
  }
}
