/**
 * The document model and the section grammar that the parser in
 * src/MshFile.cpp reads (MSH format version 4.1 as the code implements
 * it), written as functions from a token sequence to a value and the
 * tokens left over. The class in module MshFile is proved to follow these
 * functions step by step; the earlier parser in module LegacyMshFile reuses
 * the shared parts with its own coercion messages.
 */
module MshFormat {
  import opened Results
  import opened Tokens
  import MshLexer
  import LegacyToken
  import Enums

  // ---------------------------------------------------------------- document

  datatype Point = Point(x: Float, y: Float, z: Float)

  datatype PhysicalName = PhysicalName(dimension: int, tag: int, name: string)

  datatype PointEntity = PointEntity(tag: int, x: Float, y: Float, z: Float, physicalTags: seq<int>)

  /** A curve, surface or volume entity: its bounding box and signed bounding tags. */
  datatype MultiDEntity = MultiDEntity(
    tag: int,
    minX: Float, minY: Float, minZ: Float,
    maxX: Float, maxY: Float, maxZ: Float,
    physicalTags: seq<int>,
    boundingTags: seq<int>)

  /**
   * One entity block of nodes. `parCoords` holds, per node, the parametric
   * values actually read (0 to 3 of them).
   */
  datatype Node = Node(
    dimension: int,
    entityTag: int,
    parametric: bool,
    tags: seq<int>,
    coordinates: seq<Point>,
    parCoords: seq<seq<Float>>)

  datatype Element = Element(tag: int, nodeTags: seq<int>)

  /** One entity block of elements; `elementType` is the ElementType value read. */
  datatype ElementBlock = ElementBlock(dimension: int, tag: int, elementType: int, elements: seq<Element>)

  datatype Entities = Entities(
    points: seq<PointEntity>,
    curves: seq<MultiDEntity>,
    surfaces: seq<MultiDEntity>,
    volumes: seq<MultiDEntity>)

  /** The fields of an MshFile object that parsing fills in. */
  datatype Document = Document(
    version: Float,
    binary: bool,
    endianness: int,
    physicalNames: seq<PhysicalName>,
    pointEntities: seq<PointEntity>,
    curveEntities: seq<MultiDEntity>,
    surfaceEntities: seq<MultiDEntity>,
    volumeEntities: seq<MultiDEntity>,
    nodes: seq<Node>,
    elementBlocks: seq<ElementBlock>)

  const ZeroVersion: Float := Float("0.")

  /** The state the MshFile constructor leaves. */
  const InitialDocument: Document :=
    Document(ZeroVersion, false, 0, [], [], [], [], [], [], [])

  // ------------------------------------------------------------ arity table

  /**
   * MshFile::get_nodes_per_element: the node count of each element type.
   * The first parser switches on the ElementType the integer code was cast
   * to, the earlier one on the integer itself; the case labels of the one
   * are the enumerators whose values are the case labels of the other, and
   * the results and the error agree, so one function models both.
   */
  function GetNodesPerElement(code: int): (r: Result<nat>)
    ensures r.Err? ==> r.error == UnknownElementType(code)
  {
    if code == 1 then Ok(2)         // LINE2
    else if code == 2 then Ok(3)    // TRI3
    else if code == 3 then Ok(4)    // QUAD4
    else if code == 4 then Ok(4)    // TET4
    else if code == 5 then Ok(8)    // HEX8
    else if code == 6 then Ok(6)    // PRISM6
    else if code == 7 then Ok(5)    // PYRAMID5
    else if code == 8 then Ok(3)    // LINE3
    else if code == 9 then Ok(6)    // TRI6
    else if code == 10 then Ok(9)   // QUAD9
    else if code == 11 then Ok(10)  // TET10
    else if code == 12 then Ok(27)  // HEX27
    else if code == 13 then Ok(18)  // PRISM18
    else if code == 14 then Ok(14)  // PYRAMID14
    else if code == 15 then Ok(1)   // POINT
    else if code == 16 then Ok(8)   // QUAD8
    else if code == 17 then Ok(20)  // HEX20
    else if code == 18 then Ok(15)  // PRISM15
    else if code == 19 then Ok(13)  // PYRAMID13
    else if code == 20 then Ok(9)   // ITRI9
    else if code == 21 then Ok(10)  // TRI10
    else if code == 22 then Ok(12)  // ITRI12
    else if code == 23 then Ok(15)  // TRI15
    else if code == 24 then Ok(15)  // ITRI15
    else if code == 25 then Ok(21)  // TRI21
    else if code == 26 then Ok(4)   // LINE4
    else if code == 27 then Ok(5)   // LINE5
    else if code == 28 then Ok(6)   // LINE6
    else if code == 29 then Ok(20)  // TET20
    else if code == 30 then Ok(35)  // TET35
    else if code == 31 then Ok(56)  // TET56
    else if code == 92 then Ok(64)  // HEX64
    else if code == 93 then Ok(125) // HEX125
    else Err(UnknownElementType(code))
  }

  // ---------------------------------------------------------- token reading

  /** Which Token struct's coercions a reader uses. */
  datatype Dialect = Current | Legacy

  function IntOf(d: Dialect, t: Token): Result<int> {
    if d == Current then MshLexer.AsInt(t) else LegacyToken.AsInt(t)
  }

  function FloatOf(d: Dialect, t: Token): Result<Float> {
    if d == Current then MshLexer.AsFloat(t) else LegacyToken.AsFloat(t)
  }

  function StringOf(d: Dialect, t: Token): Result<string> {
    if d == Current then MshLexer.AsString(t) else LegacyToken.AsString(t)
  }

  /** A value read and the position of the token after it. */
  datatype Parsed<+T> = Parsed(value: T, next: nat)

  /** The number of iterations of `for (int i = 0; i < n; i++)`. */
  function Count(n: int): nat {
    if n > 0 then n else 0
  }

  /** read(): the token at `p`; there is none past the end. */
  function Next(ts: seq<Token>, p: nat): (r: Result<Parsed<Token>>)
    ensures r.Ok? ==> p < |ts| && r.value.next == p + 1
  {
    if p < |ts| then Ok(Parsed(ts[p], p + 1)) else Err(UnexpectedEndOfFile)
  }

  /** read().as_int() */
  function ReadInt(d: Dialect, ts: seq<Token>, p: nat): (r: Result<Parsed<int>>)
    ensures r.Ok? ==> p < |ts| && r.value.next == p + 1
  {
    var t :- Next(ts, p);
    var v :- IntOf(d, t.value);
    Ok(Parsed(v, t.next))
  }

  /** read().as_float() */
  function ReadFloat(d: Dialect, ts: seq<Token>, p: nat): (r: Result<Parsed<Float>>)
    ensures r.Ok? ==> p < |ts| && r.value.next == p + 1
  {
    var t :- Next(ts, p);
    var v :- FloatOf(d, t.value);
    Ok(Parsed(v, t.next))
  }

  /** read().as_string() */
  function ReadString(d: Dialect, ts: seq<Token>, p: nat): (r: Result<Parsed<string>>)
    ensures r.Ok? ==> p < |ts| && r.value.next == p + 1
  {
    var t :- Next(ts, p);
    var v :- StringOf(d, t.value);
    Ok(Parsed(v, t.next))
  }

  /** A reader's result and the position it left are those `spec` gives; on failure, its error. */
  ghost predicate Follows<T>(r: Result<T>, spec: Result<Parsed<T>>, now: nat) {
    match spec
    case Ok(p) => r == Ok(p.value) && now == p.next
    case Err(e) => r == Err(e)
  }

  /**
   * A section routine succeeded exactly when `spec` does, leaving the
   * state and the position `spec` gives; on failure it raised the same
   * error.
   */
  ghost predicate Steps<S>(r: Result<()>, spec: Result<Parsed<S>>, state: S, now: nat) {
    match spec
    case Ok(p) => r == Ok(()) && state == p.value && now == p.next
    case Err(e) => r == Err(e)
  }

  /** The state of a counted loop that has collected `acc` and has `r` still to come. */
  function Prefixed<T>(acc: seq<T>, r: Result<Parsed<seq<T>>>): Result<Parsed<seq<T>>> {
    match r
    case Ok(p) => Ok(Parsed(acc + p.value, p.next))
    case Err(e) => Err(e)
  }

  /** Nothing collected yet: the loop state is what is still to come. */
  lemma PrefixedEmpty<T>(r: Result<Parsed<seq<T>>>)
    ensures Prefixed([], r) == r
  {
    if r.Ok? {
      assert [] + r.value.value == r.value.value;
    }
  }

  /** The loop has collected `acc` and nothing is still to come. */
  lemma PrefixedNil<T>(acc: seq<T>, p: nat)
    ensures Prefixed(acc, Ok(Parsed([], p))) == Ok(Parsed(acc, p))
  {
    assert acc + [] == acc;
  }

  /** One more item moves from what is still to come to what is collected. */
  lemma PrefixedCons<T>(acc: seq<T>, x: T, r: Result<Parsed<seq<T>>>)
    ensures Prefixed(acc, Prefixed([x], r)) == Prefixed(acc + [x], r)
  {
    if r.Ok? {
      assert acc + ([x] + r.value.value) == (acc + [x]) + r.value.value;
    }
  }

  /** `n` integers read one after another. */
  function ReadInts(d: Dialect, ts: seq<Token>, p: nat, n: int): (r: Result<Parsed<seq<int>>>)
    decreases n
    ensures r.Ok? ==> |r.value.value| == Count(n) && r.value.next == p + Count(n)
  {
    if n <= 0 then Ok(Parsed([], p))
    else
      var x :- ReadInt(d, ts, p);
      Prefixed([x.value], ReadInts(d, ts, x.next, n - 1))
  }

  /**
   * The invariant of the loop reading `ReadInts`: after `i` rounds it stands
   * at `q` having collected `acc`, and the whole list is `acc` followed by
   * what the last `n - i` rounds give.
   */
  ghost predicate ReadIntsLoop(d: Dialect, ts: seq<Token>, p0: nat, n: int, acc: seq<int>, q: nat, i: int) {
    ReadInts(d, ts, p0, n) == Prefixed(acc, ReadInts(d, ts, q, n - i))
  }

  /**
   * A round that read `x` from `q` and stopped at `q2` keeps that
   * invariant, or the whole list fails as the round did.
   */
  lemma ReadIntsLoopStep(d: Dialect, ts: seq<Token>, p0: nat, n: int, acc: seq<int>, q: nat, i: int, x: Result<int>, q2: nat)
    requires i < n && ReadIntsLoop(d, ts, p0, n, acc, q, i) && Follows(x, ReadInt(d, ts, q), q2)
    ensures x.Ok? ==> ReadIntsLoop(d, ts, p0, n, acc + [x.value], q2, i + 1)
    ensures x.Err? ==> ReadInts(d, ts, p0, n) == Err(x.error)
  {
    if x.Ok? {
      assert n - i - 1 == n - (i + 1);
      PrefixedCons(acc, x.value, ReadInts(d, ts, q2, n - i - 1));
    }
  }

  /** process_array_of_ints: a count, then that many integers. */
  function ArrayOfInts(d: Dialect, ts: seq<Token>, p: nat): (r: Result<Parsed<seq<int>>>)
    ensures r.Ok? ==> p < |ts| && r.value.next == p + 1 + |r.value.value|
  {
    var n :- ReadInt(d, ts, p);
    var xs :- ReadInts(d, ts, n.next, n.value);
    Ok(Parsed(xs.value, xs.next))
  }

  /**
   * A read that succeeded took, as its last token, a Section marker. Every
   * section routine ends so, at its end marker or, when skipping, at the
   * next marker.
   */
  ghost predicate EndsAtMarker(ts: seq<Token>, next: nat) {
    0 < next <= |ts| && ts[next - 1].kind == Section
  }

  /** read_end_section_marker(name): one token, which must be the Section marker `name`. */
  function EndMarker(ts: seq<Token>, p: nat, name: string): (r: Result<Parsed<()>>)
    ensures r.Ok? ==> p < |ts| && r.value.next == p + 1 && EndsAtMarker(ts, r.value.next)
  {
    var t :- Next(ts, p);
    if t.value.kind != Section || t.value.str != name then Err(TagNotFound(name))
    else Ok(Parsed((), t.next))
  }

  /** skip_section after the opening marker: tokens up to and including the next Section token. */
  function SkipSection(ts: seq<Token>, p: nat): (r: Result<Parsed<()>>)
    decreases |ts| - p
    ensures r.Ok? ==> p < r.value.next <= |ts|
    ensures r.Ok? ==> EndsAtMarker(ts, r.value.next)
  {
    var t :- Next(ts, p);
    if t.value.kind == Section then Ok(Parsed((), t.next))
    else
      var s :- SkipSection(ts, t.next);
      Ok(Parsed((), s.next))
  }

  // -------------------------------------------------------------- sections

  /** process_mesh_format_section after the opening marker. */
  function MeshFormatSection(doc: Document, ts: seq<Token>, p: nat): (r: Result<Parsed<Document>>)
    ensures r.Ok? ==> p < r.value.next <= |ts|
    ensures r.Ok? ==> EndsAtMarker(ts, r.value.next)
  {
    var version :- ReadFloat(Current, ts, p);
    var fileType :- ReadInt(Current, ts, version.next);
    var dataSize :- Next(ts, fileType.next);
    var binary := fileType.value == 1;
    var blob := if binary then Blob(ts, dataSize.next) else Parsed(doc.endianness, dataSize.next);
    var end :- EndMarker(ts, blob.next, "$EndMeshFormat");
    Ok(Parsed(doc.(version := version.value, binary := binary, endianness := blob.value), end.next))
  }

  /** read_blob<int>(): the raw word that follows, unless the stream is at its end. */
  function Blob(ts: seq<Token>, p: nat): (r: Parsed<int>)
    ensures p <= r.next <= p + 1
  {
    if p < |ts| && ts[p].kind != EndOfFile then Parsed(ts[p].num, p + 1) else Parsed(0, p)
  }

  /** One (dimension, tag, name) triple of $PhysicalNames. */
  function PhysicalNameRecord(d: Dialect, ts: seq<Token>, p: nat): (r: Result<Parsed<PhysicalName>>)
    ensures r.Ok? ==> r.value.next == p + 3
  {
    var dimension :- ReadInt(d, ts, p);
    var tag :- ReadInt(d, ts, dimension.next);
    var name :- ReadString(d, ts, tag.next);
    Ok(Parsed(PhysicalName(dimension.value, tag.value, name.value), name.next))
  }

  function PhysicalNameList(d: Dialect, ts: seq<Token>, p: nat, n: int): (r: Result<Parsed<seq<PhysicalName>>>)
    decreases n
    ensures r.Ok? ==> |r.value.value| == Count(n) && r.value.next == p + 3 * Count(n)
  {
    if n <= 0 then Ok(Parsed([], p))
    else
      var x :- PhysicalNameRecord(d, ts, p);
      Prefixed([x.value], PhysicalNameList(d, ts, x.next, n - 1))
  }

  /** The invariant of the loop reading `PhysicalNameList`, as for ReadIntsLoop. */
  ghost predicate PhysicalNameListLoop(d: Dialect, ts: seq<Token>, p0: nat, n: int, acc: seq<PhysicalName>, q: nat, i: int) {
    PhysicalNameList(d, ts, p0, n) == Prefixed(acc, PhysicalNameList(d, ts, q, n - i))
  }

  /**
   * A round that read `x` from `q` and stopped at `q2` keeps that
   * invariant, or the whole list fails as the round did.
   */
  lemma PhysicalNameListLoopStep(d: Dialect, ts: seq<Token>, p0: nat, n: int, acc: seq<PhysicalName>, q: nat, i: int, x: Result<PhysicalName>, q2: nat)
    requires i < n && PhysicalNameListLoop(d, ts, p0, n, acc, q, i) && Follows(x, PhysicalNameRecord(d, ts, q), q2)
    ensures x.Ok? ==> PhysicalNameListLoop(d, ts, p0, n, acc + [x.value], q2, i + 1)
    ensures x.Err? ==> PhysicalNameList(d, ts, p0, n) == Err(x.error)
  {
    if x.Ok? {
      assert n - i - 1 == n - (i + 1);
      PrefixedCons(acc, x.value, PhysicalNameList(d, ts, q2, n - i - 1));
    }
  }

  /** The body of $PhysicalNames and its end marker. */
  function PhysicalNamesSection(d: Dialect, ts: seq<Token>, p: nat): (r: Result<Parsed<seq<PhysicalName>>>)
    ensures r.Ok? ==> p < r.value.next <= |ts|
    ensures r.Ok? ==> EndsAtMarker(ts, r.value.next)
  {
    var n :- ReadInt(d, ts, p);
    var names :- PhysicalNameList(d, ts, n.next, n.value);
    var end :- EndMarker(ts, names.next, "$EndPhysicalNames");
    Ok(Parsed(names.value, end.next))
  }

  /** One point entity: tag, x, y, z and its physical tags. */
  function PointEntityRecord(d: Dialect, ts: seq<Token>, p: nat): (r: Result<Parsed<PointEntity>>)
    ensures r.Ok? ==> p < r.value.next
  {
    var tag :- ReadInt(d, ts, p);
    var x :- ReadFloat(d, ts, tag.next);
    var y :- ReadFloat(d, ts, x.next);
    var z :- ReadFloat(d, ts, y.next);
    var physicalTags :- ArrayOfInts(d, ts, z.next);
    Ok(Parsed(PointEntity(tag.value, x.value, y.value, z.value, physicalTags.value), physicalTags.next))
  }

  function PointEntityList(d: Dialect, ts: seq<Token>, p: nat, n: int): (r: Result<Parsed<seq<PointEntity>>>)
    decreases n
    ensures r.Ok? ==> p <= r.value.next && |r.value.value| == Count(n)
  {
    if n <= 0 then Ok(Parsed([], p))
    else
      var x :- PointEntityRecord(d, ts, p);
      Prefixed([x.value], PointEntityList(d, ts, x.next, n - 1))
  }

  /** The invariant of the loop reading `PointEntityList`, as for ReadIntsLoop. */
  ghost predicate PointEntityListLoop(d: Dialect, ts: seq<Token>, p0: nat, n: int, acc: seq<PointEntity>, q: nat, i: int) {
    PointEntityList(d, ts, p0, n) == Prefixed(acc, PointEntityList(d, ts, q, n - i))
  }

  /**
   * A round that read `x` from `q` and stopped at `q2` keeps that
   * invariant, or the whole list fails as the round did.
   */
  lemma PointEntityListLoopStep(d: Dialect, ts: seq<Token>, p0: nat, n: int, acc: seq<PointEntity>, q: nat, i: int, x: Result<PointEntity>, q2: nat)
    requires i < n && PointEntityListLoop(d, ts, p0, n, acc, q, i) && Follows(x, PointEntityRecord(d, ts, q), q2)
    ensures x.Ok? ==> PointEntityListLoop(d, ts, p0, n, acc + [x.value], q2, i + 1)
    ensures x.Err? ==> PointEntityList(d, ts, p0, n) == Err(x.error)
  {
    if x.Ok? {
      assert n - i - 1 == n - (i + 1);
      PrefixedCons(acc, x.value, PointEntityList(d, ts, q2, n - i - 1));
    }
  }

  /** The six bounding-box values of a curve, surface or volume. */
  function BoundingBox(d: Dialect, ts: seq<Token>, p: nat): (r: Result<Parsed<seq<Float>>>)
    ensures r.Ok? ==> |r.value.value| == 6 && r.value.next == p + 6
  {
    var minX :- ReadFloat(d, ts, p);
    var minY :- ReadFloat(d, ts, minX.next);
    var minZ :- ReadFloat(d, ts, minY.next);
    var maxX :- ReadFloat(d, ts, minZ.next);
    var maxY :- ReadFloat(d, ts, maxX.next);
    var maxZ :- ReadFloat(d, ts, maxY.next);
    Ok(Parsed([minX.value, minY.value, minZ.value, maxX.value, maxY.value, maxZ.value], maxZ.next))
  }

  /** One curve, surface or volume entity. */
  function MultiDEntityRecord(d: Dialect, ts: seq<Token>, p: nat): (r: Result<Parsed<MultiDEntity>>)
    ensures r.Ok? ==> p < r.value.next
  {
    var tag :- ReadInt(d, ts, p);
    var box :- BoundingBox(d, ts, tag.next);
    var physicalTags :- ArrayOfInts(d, ts, box.next);
    var boundingTags :- ArrayOfInts(d, ts, physicalTags.next);
    var b := box.value;
    Ok(Parsed(MultiDEntity(tag.value, b[0], b[1], b[2], b[3], b[4], b[5],
                           physicalTags.value, boundingTags.value), boundingTags.next))
  }

  function MultiDEntityList(d: Dialect, ts: seq<Token>, p: nat, n: int): (r: Result<Parsed<seq<MultiDEntity>>>)
    decreases n
    ensures r.Ok? ==> p <= r.value.next && |r.value.value| == Count(n)
  {
    if n <= 0 then Ok(Parsed([], p))
    else
      var x :- MultiDEntityRecord(d, ts, p);
      Prefixed([x.value], MultiDEntityList(d, ts, x.next, n - 1))
  }

  /** The invariant of the loop reading `MultiDEntityList`, as for ReadIntsLoop. */
  ghost predicate MultiDEntityListLoop(d: Dialect, ts: seq<Token>, p0: nat, n: int, acc: seq<MultiDEntity>, q: nat, i: int) {
    MultiDEntityList(d, ts, p0, n) == Prefixed(acc, MultiDEntityList(d, ts, q, n - i))
  }

  /**
   * A round that read `x` from `q` and stopped at `q2` keeps that
   * invariant, or the whole list fails as the round did.
   */
  lemma MultiDEntityListLoopStep(d: Dialect, ts: seq<Token>, p0: nat, n: int, acc: seq<MultiDEntity>, q: nat, i: int, x: Result<MultiDEntity>, q2: nat)
    requires i < n && MultiDEntityListLoop(d, ts, p0, n, acc, q, i) && Follows(x, MultiDEntityRecord(d, ts, q), q2)
    ensures x.Ok? ==> MultiDEntityListLoop(d, ts, p0, n, acc + [x.value], q2, i + 1)
    ensures x.Err? ==> MultiDEntityList(d, ts, p0, n) == Err(x.error)
  {
    if x.Ok? {
      assert n - i - 1 == n - (i + 1);
      PrefixedCons(acc, x.value, MultiDEntityList(d, ts, q2, n - i - 1));
    }
  }

  /** The four entity counts $Entities starts with. */
  datatype EntityCounts = EntityCounts(points: int, curves: int, surfaces: int, volumes: int)

  function EntityCountsRecord(d: Dialect, ts: seq<Token>, p: nat): (r: Result<Parsed<EntityCounts>>)
    ensures r.Ok? ==> r.value.next == p + 4
  {
    var numPoints :- ReadInt(d, ts, p);
    var numCurves :- ReadInt(d, ts, numPoints.next);
    var numSurfaces :- ReadInt(d, ts, numCurves.next);
    var numVolumes :- ReadInt(d, ts, numSurfaces.next);
    Ok(Parsed(EntityCounts(numPoints.value, numCurves.value, numSurfaces.value, numVolumes.value), numVolumes.next))
  }

  /** The four entity counts, then the four entity lists of those lengths. */
  function EntityLists(d: Dialect, ts: seq<Token>, p: nat): (r: Result<Parsed<Entities>>)
    ensures r.Ok? ==> p < r.value.next
  {
    var c :- EntityCountsRecord(d, ts, p);
    var points :- PointEntityList(d, ts, c.next, c.value.points);
    var curves :- MultiDEntityList(d, ts, points.next, c.value.curves);
    var surfaces :- MultiDEntityList(d, ts, curves.next, c.value.surfaces);
    var volumes :- MultiDEntityList(d, ts, surfaces.next, c.value.volumes);
    Ok(Parsed(Entities(points.value, curves.value, surfaces.value, volumes.value), volumes.next))
  }

  /** The body of $Entities (four counts, then the four lists) and its end marker. */
  function EntitiesSection(d: Dialect, ts: seq<Token>, p: nat): (r: Result<Parsed<Entities>>)
    ensures r.Ok? ==> p < r.value.next <= |ts|
    ensures r.Ok? ==> EndsAtMarker(ts, r.value.next)
  {
    var lists :- EntityLists(d, ts, p);
    var end :- EndMarker(ts, lists.next, "$EndEntities");
    Ok(Parsed(lists.value, end.next))
  }

  /** How many parametric values a node of dimension `dim` carries. */
  function ParCount(dim: int): nat {
    (if dim >= 1 then 1 else 0) + (if dim >= 2 then 1 else 0) + (if dim == 3 then 1 else 0)
  }

  /** A float read as a one-element list, when `present`; nothing otherwise. */
  function OptionalFloat(d: Dialect, ts: seq<Token>, p: nat, present: bool): (r: Result<Parsed<seq<Float>>>)
    ensures r.Ok? ==> |r.value.value| == (if present then 1 else 0)
    ensures r.Ok? ==> r.value.next == p + |r.value.value|
  {
    if present then
      var v :- ReadFloat(d, ts, p);
      Ok(Parsed([v.value], v.next))
    else Ok(Parsed([], p))
  }

  /** The parametric values of one node: u if dim >= 1, v if dim >= 2, w if dim == 3. */
  function ParametricCoords(d: Dialect, ts: seq<Token>, p: nat, dim: int): (r: Result<Parsed<seq<Float>>>)
    ensures r.Ok? ==> |r.value.value| == ParCount(dim)
    ensures r.Ok? ==> r.value.next == p + ParCount(dim)
  {
    var u :- OptionalFloat(d, ts, p, dim >= 1);
    var v :- OptionalFloat(d, ts, u.next, dim >= 2);
    var w :- OptionalFloat(d, ts, v.next, dim == 3);
    Ok(Parsed(u.value + v.value + w.value, w.next))
  }

  /** Three floats. */
  function ReadPoint(d: Dialect, ts: seq<Token>, p: nat): (r: Result<Parsed<Point>>)
    ensures r.Ok? ==> r.value.next == p + 3
  {
    var x :- ReadFloat(d, ts, p);
    var y :- ReadFloat(d, ts, x.next);
    var z :- ReadFloat(d, ts, y.next);
    Ok(Parsed(Point(x.value, y.value, z.value), z.next))
  }

  /** The coordinates and, if `parametric`, the parametric values of a block's nodes. */
  datatype NodeCoordinates = NodeCoordinates(coordinates: seq<Point>, parCoords: seq<seq<Float>>)

  /** The state of the coordinate loop that has collected `acc` and has `r` still to come. */
  function CoordsPrefixed(acc: NodeCoordinates, r: Result<Parsed<NodeCoordinates>>): Result<Parsed<NodeCoordinates>> {
    match r
    case Ok(p) => Ok(Parsed(NodeCoordinates(acc.coordinates + p.value.coordinates,
                                            acc.parCoords + p.value.parCoords), p.next))
    case Err(e) => Err(e)
  }

  lemma CoordsPrefixedEmpty(r: Result<Parsed<NodeCoordinates>>)
    ensures CoordsPrefixed(NodeCoordinates([], []), r) == r
  {
    if r.Ok? {
      assert [] + r.value.value.coordinates == r.value.value.coordinates;
      assert [] + r.value.value.parCoords == r.value.value.parCoords;
    }
  }

  lemma CoordsPrefixedNil(acc: NodeCoordinates, p: nat)
    ensures CoordsPrefixed(acc, Ok(Parsed(NodeCoordinates([], []), p))) == Ok(Parsed(acc, p))
  {
    assert acc.coordinates + [] == acc.coordinates;
    assert acc.parCoords + [] == acc.parCoords;
  }

  lemma CoordsPrefixedCons(acc: NodeCoordinates, step: NodeCoordinates, r: Result<Parsed<NodeCoordinates>>)
    ensures CoordsPrefixed(acc, CoordsPrefixed(step, r))
            == CoordsPrefixed(NodeCoordinates(acc.coordinates + step.coordinates,
                                              acc.parCoords + step.parCoords), r)
  {
    if r.Ok? {
      var p := r.value.value;
      assert acc.coordinates + (step.coordinates + p.coordinates)
             == (acc.coordinates + step.coordinates) + p.coordinates;
      assert acc.parCoords + (step.parCoords + p.parCoords)
             == (acc.parCoords + step.parCoords) + p.parCoords;
    }
  }

  /** The per-tag loop of a node block: one point for each of `k` tags, with parametric values. */
  function NodeCoords(ts: seq<Token>, p: nat, dim: int, parametric: bool, k: int): (r: Result<Parsed<NodeCoordinates>>)
    decreases k
    ensures r.Ok? ==> p <= r.value.next
    ensures r.Ok? ==> |r.value.value.coordinates| == Count(k)
    ensures r.Ok? ==> |r.value.value.parCoords| == (if parametric then Count(k) else 0)
  {
    if k <= 0 then Ok(Parsed(NodeCoordinates([], []), p))
    else
      var pt :- ReadPoint(Current, ts, p);
      var pc :- if parametric then ParametricCoords(Current, ts, pt.next, dim) else Ok(Parsed([], pt.next));
      CoordsPrefixed(NodeCoordinates([pt.value], if parametric then [pc.value] else []),
                     NodeCoords(ts, pc.next, dim, parametric, k - 1))
  }

  /** The invariant of the per-tag loop, as for ReadIntsLoop. */
  ghost predicate NodeCoordsLoop(ts: seq<Token>, dim: int, parametric: bool, p0: nat, k: int,
                                 acc: NodeCoordinates, q: nat, i: int) {
    NodeCoords(ts, p0, dim, parametric, k) == CoordsPrefixed(acc, NodeCoords(ts, q, dim, parametric, k - i))
  }

  /**
   * A round that read the point `pt` from `q` up to `q1` and, when
   * `parametric`, the values `pc` from `q1` up to `q2`, keeps that
   * invariant, or the whole loop fails as the round did.
   */
  lemma NodeCoordsLoopStep(ts: seq<Token>, dim: int, parametric: bool, p0: nat, k: int,
                           acc: NodeCoordinates, q: nat, i: int,
                           pt: Result<Point>, q1: nat, pc: Result<seq<Float>>, q2: nat)
    requires i < k && NodeCoordsLoop(ts, dim, parametric, p0, k, acc, q, i)
    requires Follows(pt, ReadPoint(Current, ts, q), q1)
    requires pt.Ok? && parametric ==> Follows(pc, ParametricCoords(Current, ts, q1, dim), q2)
    requires pt.Err? || !parametric ==> pc == Ok([]) && q2 == q1
    ensures pt.Err? ==> NodeCoords(ts, p0, dim, parametric, k) == Err(pt.error)
    ensures pt.Ok? && pc.Err? ==> NodeCoords(ts, p0, dim, parametric, k) == Err(pc.error)
    ensures pt.Ok? && pc.Ok? ==>
              NodeCoordsLoop(ts, dim, parametric, p0, k,
                             NodeCoordinates(acc.coordinates + [pt.value],
                                             if parametric then acc.parCoords + [pc.value] else acc.parCoords),
                             q2, i + 1)
  {
    if pt.Ok? && pc.Ok? {
      assert k - i - 1 == k - (i + 1);
      var step := NodeCoordinates([pt.value], if parametric then [pc.value] else []);
      assert acc.parCoords + [] == acc.parCoords;
      CoordsPrefixedCons(acc, step, NodeCoords(ts, q2, dim, parametric, k - i - 1));
    }
  }

  /** One entity block of $Nodes. */
  function NodeBlock(ts: seq<Token>, p: nat): (r: Result<Parsed<Node>>)
    ensures r.Ok? ==> p < r.value.next
  {
    var dimension :- ReadInt(Current, ts, p);
    var entityTag :- ReadInt(Current, ts, dimension.next);
    var parametric :- ReadInt(Current, ts, entityTag.next);
    var tags :- ArrayOfInts(Current, ts, parametric.next);
    var coords :- NodeCoords(ts, tags.next, dimension.value, parametric.value == 1, |tags.value|);
    Ok(Parsed(Node(dimension.value, entityTag.value, parametric.value == 1, tags.value,
                   coords.value.coordinates, coords.value.parCoords), coords.next))
  }

  function NodeBlockList(ts: seq<Token>, p: nat, n: int): (r: Result<Parsed<seq<Node>>>)
    decreases n
    ensures r.Ok? ==> p <= r.value.next && |r.value.value| == Count(n)
  {
    if n <= 0 then Ok(Parsed([], p))
    else
      var x :- NodeBlock(ts, p);
      Prefixed([x.value], NodeBlockList(ts, x.next, n - 1))
  }

  /** The invariant of the loop reading `NodeBlockList`, as for ReadIntsLoop. */
  ghost predicate NodeBlockListLoop(ts: seq<Token>, p0: nat, n: int, acc: seq<Node>, q: nat, i: int) {
    NodeBlockList(ts, p0, n) == Prefixed(acc, NodeBlockList(ts, q, n - i))
  }

  /**
   * A round that read `x` from `q` and stopped at `q2` keeps that
   * invariant, or the whole list fails as the round did.
   */
  lemma NodeBlockListLoopStep(ts: seq<Token>, p0: nat, n: int, acc: seq<Node>, q: nat, i: int, x: Result<Node>, q2: nat)
    requires i < n && NodeBlockListLoop(ts, p0, n, acc, q, i) && Follows(x, NodeBlock(ts, q), q2)
    ensures x.Ok? ==> NodeBlockListLoop(ts, p0, n, acc + [x.value], q2, i + 1)
    ensures x.Err? ==> NodeBlockList(ts, p0, n) == Err(x.error)
  {
    if x.Ok? {
      assert n - i - 1 == n - (i + 1);
      PrefixedCons(acc, x.value, NodeBlockList(ts, q2, n - i - 1));
    }
  }

  /** The four-integer header that $Nodes and $Elements start with: the block count first. */
  function SectionHeader(d: Dialect, ts: seq<Token>, p: nat): (r: Result<Parsed<int>>)
    ensures r.Ok? ==> r.value.next == p + 4
  {
    var numBlocks :- ReadInt(d, ts, p);
    var total :- ReadInt(d, ts, numBlocks.next);
    var minTag :- ReadInt(d, ts, total.next);
    var maxTag :- ReadInt(d, ts, minTag.next);
    Ok(Parsed(numBlocks.value, maxTag.next))
  }

  /** The body of $Nodes and its end marker. */
  function NodesSection(ts: seq<Token>, p: nat): (r: Result<Parsed<seq<Node>>>)
    ensures r.Ok? ==> p < r.value.next <= |ts|
    ensures r.Ok? ==> EndsAtMarker(ts, r.value.next)
  {
    var numBlocks :- SectionHeader(Current, ts, p);
    var blocks :- NodeBlockList(ts, numBlocks.next, numBlocks.value);
    var end :- EndMarker(ts, blocks.next, "$EndNodes");
    Ok(Parsed(blocks.value, end.next))
  }

  /** One element: its tag and `arity` node tags. */
  function ElementRecord(ts: seq<Token>, p: nat, arity: int): (r: Result<Parsed<Element>>)
    ensures r.Ok? ==> p < r.value.next && |r.value.value.nodeTags| == Count(arity)
  {
    var tag :- ReadInt(Current, ts, p);
    var nodeTags :- ReadInts(Current, ts, tag.next, arity);
    Ok(Parsed(Element(tag.value, nodeTags.value), nodeTags.next))
  }

  function ElementList(ts: seq<Token>, p: nat, arity: int, n: int): (r: Result<Parsed<seq<Element>>>)
    decreases n
    ensures r.Ok? ==> p <= r.value.next && |r.value.value| == Count(n)
  {
    if n <= 0 then Ok(Parsed([], p))
    else
      var x :- ElementRecord(ts, p, arity);
      Prefixed([x.value], ElementList(ts, x.next, arity, n - 1))
  }

  /** The invariant of the loop reading `ElementList`, as for ReadIntsLoop. */
  ghost predicate ElementListLoop(ts: seq<Token>, arity: int, p0: nat, n: int, acc: seq<Element>, q: nat, i: int) {
    ElementList(ts, p0, arity, n) == Prefixed(acc, ElementList(ts, q, arity, n - i))
  }

  /**
   * A round that read `x` from `q` and stopped at `q2` keeps that
   * invariant, or the whole list fails as the round did.
   */
  lemma ElementListLoopStep(ts: seq<Token>, arity: int, p0: nat, n: int, acc: seq<Element>, q: nat, i: int, x: Result<Element>, q2: nat)
    requires i < n && ElementListLoop(ts, arity, p0, n, acc, q, i) && Follows(x, ElementRecord(ts, q, arity), q2)
    ensures x.Ok? ==> ElementListLoop(ts, arity, p0, n, acc + [x.value], q2, i + 1)
    ensures x.Err? ==> ElementList(ts, p0, arity, n) == Err(x.error)
  {
    if x.Ok? {
      assert n - i - 1 == n - (i + 1);
      PrefixedCons(acc, x.value, ElementList(ts, q2, arity, n - i - 1));
    }
  }

  /** One entity block of $Elements; the arity is looked up before the element count is read. */
  function ElementBlockRecord(ts: seq<Token>, p: nat): (r: Result<Parsed<ElementBlock>>)
    ensures r.Ok? ==> p < r.value.next
  {
    var dimension :- ReadInt(Current, ts, p);
    var tag :- ReadInt(Current, ts, dimension.next);
    var elementType :- ReadInt(Current, ts, tag.next);
    var arity :- GetNodesPerElement(elementType.value);
    var count :- ReadInt(Current, ts, elementType.next);
    var elements :- ElementList(ts, count.next, arity, count.value);
    Ok(Parsed(ElementBlock(dimension.value, tag.value, elementType.value, elements.value), elements.next))
  }

  function ElementBlockList(ts: seq<Token>, p: nat, n: int): (r: Result<Parsed<seq<ElementBlock>>>)
    decreases n
    ensures r.Ok? ==> p <= r.value.next && |r.value.value| == Count(n)
  {
    if n <= 0 then Ok(Parsed([], p))
    else
      var x :- ElementBlockRecord(ts, p);
      Prefixed([x.value], ElementBlockList(ts, x.next, n - 1))
  }

  /** The invariant of the loop reading `ElementBlockList`, as for ReadIntsLoop. */
  ghost predicate ElementBlockListLoop(ts: seq<Token>, p0: nat, n: int, acc: seq<ElementBlock>, q: nat, i: int) {
    ElementBlockList(ts, p0, n) == Prefixed(acc, ElementBlockList(ts, q, n - i))
  }

  /**
   * A round that read `x` from `q` and stopped at `q2` keeps that
   * invariant, or the whole list fails as the round did.
   */
  lemma ElementBlockListLoopStep(ts: seq<Token>, p0: nat, n: int, acc: seq<ElementBlock>, q: nat, i: int, x: Result<ElementBlock>, q2: nat)
    requires i < n && ElementBlockListLoop(ts, p0, n, acc, q, i) && Follows(x, ElementBlockRecord(ts, q), q2)
    ensures x.Ok? ==> ElementBlockListLoop(ts, p0, n, acc + [x.value], q2, i + 1)
    ensures x.Err? ==> ElementBlockList(ts, p0, n) == Err(x.error)
  {
    if x.Ok? {
      assert n - i - 1 == n - (i + 1);
      PrefixedCons(acc, x.value, ElementBlockList(ts, q2, n - i - 1));
    }
  }

  /** The body of $Elements and its end marker. */
  function ElementsSection(ts: seq<Token>, p: nat): (r: Result<Parsed<seq<ElementBlock>>>)
    ensures r.Ok? ==> p < r.value.next <= |ts|
    ensures r.Ok? ==> EndsAtMarker(ts, r.value.next)
  {
    var numBlocks :- SectionHeader(Current, ts, p);
    var blocks :- ElementBlockList(ts, numBlocks.next, numBlocks.value);
    var end :- EndMarker(ts, blocks.next, "$EndElements");
    Ok(Parsed(blocks.value, end.next))
  }

  // ------------------------------------------------------ document updates

  function ApplyPhysicalNames(doc: Document, ts: seq<Token>, p: nat): (r: Result<Parsed<Document>>)
    ensures r.Ok? ==> p < r.value.next <= |ts|
    ensures r.Ok? ==> EndsAtMarker(ts, r.value.next)
  {
    var names :- PhysicalNamesSection(Current, ts, p);
    Ok(Parsed(doc.(physicalNames := doc.physicalNames + names.value), names.next))
  }

  function ApplyEntities(doc: Document, ts: seq<Token>, p: nat): (r: Result<Parsed<Document>>)
    ensures r.Ok? ==> p < r.value.next <= |ts|
    ensures r.Ok? ==> EndsAtMarker(ts, r.value.next)
  {
    var e :- EntitiesSection(Current, ts, p);
    Ok(Parsed(AddEntities(doc, e.value), e.next))
  }

  /** The document with the four entity lists of `e` appended to its own. */
  function AddEntities(doc: Document, e: Entities): Document {
    doc.(pointEntities := doc.pointEntities + e.points,
         curveEntities := doc.curveEntities + e.curves,
         surfaceEntities := doc.surfaceEntities + e.surfaces,
         volumeEntities := doc.volumeEntities + e.volumes)
  }

  function ApplyNodes(doc: Document, ts: seq<Token>, p: nat): (r: Result<Parsed<Document>>)
    ensures r.Ok? ==> p < r.value.next <= |ts|
    ensures r.Ok? ==> EndsAtMarker(ts, r.value.next)
  {
    var blocks :- NodesSection(ts, p);
    Ok(Parsed(doc.(nodes := doc.nodes + blocks.value), blocks.next))
  }

  function ApplyElements(doc: Document, ts: seq<Token>, p: nat): (r: Result<Parsed<Document>>)
    ensures r.Ok? ==> p < r.value.next <= |ts|
    ensures r.Ok? ==> EndsAtMarker(ts, r.value.next)
  {
    var blocks :- ElementsSection(ts, p);
    Ok(Parsed(doc.(elementBlocks := doc.elementBlocks + blocks.value), blocks.next))
  }

  function ApplySkip(doc: Document, ts: seq<Token>, p: nat): (r: Result<Parsed<Document>>)
    ensures r.Ok? ==> p < r.value.next <= |ts|
    ensures r.Ok? ==> EndsAtMarker(ts, r.value.next)
  {
    var s :- SkipSection(ts, p);
    Ok(Parsed(doc, s.next))
  }

  /** The section names process_section routes to a parser of their own. */
  predicate IsParsedSection(name: string) {
    name in {"$MeshFormat", "$PhysicalNames", "$Entities", "$Nodes", "$Elements"}
  }

  /**
   * process_section: the body of the section whose opening marker had text
   * `name`. $PartitionedEntities, $Periodic, $GhostElements,
   * $Parametrizations, $NodeData, $ElementData, $ElementNodeData,
   * $InterpolationScheme and every other name are skipped alike.
   */
  function SectionStep(doc: Document, name: string, ts: seq<Token>, p: nat): (r: Result<Parsed<Document>>)
    ensures r.Ok? ==> p < r.value.next <= |ts|
    ensures r.Ok? ==> EndsAtMarker(ts, r.value.next)
  {
    if name == "$MeshFormat" then MeshFormatSection(doc, ts, p)
    else if name == "$PhysicalNames" then ApplyPhysicalNames(doc, ts, p)
    else if name == "$Entities" then ApplyEntities(doc, ts, p)
    else if name == "$Nodes" then ApplyNodes(doc, ts, p)
    else if name == "$Elements" then ApplyElements(doc, ts, p)
    else ApplySkip(doc, ts, p)
  }

  /**
   * The do-while loop of MshFile::parse from position `p`, where a section
   * is to start: the document it leaves, or the first error.
   */
  function ParseFrom(doc: Document, ts: seq<Token>, p: nat): (r: Result<Document>)
    decreases |ts| - p
  {
    if p >= |ts| then Err(UnexpectedEndOfFile)
    else if ts[p].kind != Section then Err(ExpectedSectionStart)
    else
      var s :- SectionStep(doc, ts[p].str, ts, p + 1);
      if s.next >= |ts| then Err(UnexpectedEndOfFile)
      else if ts[s.next].kind == EndOfFile then Ok(s.value)
      else ParseFrom(s.value, ts, s.next)
  }

  /**
   * One turn of the loop, for a section at `p` that leaves the document
   * and the position `s`: the result is decided by the token at `s.next`.
   */
  lemma ParseFromStep(doc: Document, ts: seq<Token>, p: nat, s: Parsed<Document>)
    requires p < |ts| && ts[p].kind == Section
    requires SectionStep(doc, ts[p].str, ts, p + 1) == Ok(s)
    ensures ParseFrom(doc, ts, p) ==
            if s.next >= |ts| then Err(UnexpectedEndOfFile)
            else if ts[s.next].kind == EndOfFile then Ok(s.value)
            else ParseFrom(s.value, ts, s.next)
  {
  }

  /** One turn of the loop, for a section at `p` that fails. */
  lemma ParseFromFails(doc: Document, ts: seq<Token>, p: nat)
    requires p < |ts| && ts[p].kind == Section
    requires SectionStep(doc, ts[p].str, ts, p + 1).Err?
    ensures ParseFrom(doc, ts, p) == Err(SectionStep(doc, ts[p].str, ts, p + 1).error)
  {
  }

  /** MshFile::parse on a freshly constructed object reading `ts`. */
  function Parse(ts: seq<Token>): Result<Document> {
    ParseFrom(InitialDocument, ts, 0)
  }
}
