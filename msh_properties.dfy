/**
 * What the section grammar of module MshFormat promises, and so what the
 * MshFile class (proved to follow it step by step) does: which tokens each
 * routine consumes, what it builds from them, and which error ends a parse.
 */
module MshProperties {
  import opened Results
  import opened Tokens
  import Enums
  import opened MshFormat

  // ---------------------------------------------------------- token reading

  /** Both dialects coerce exactly the Number tokens to integers, to their value. */
  lemma IntOfNumber(d: Dialect, t: Token)
    ensures IntOf(d, t).Ok? <==> t.kind == Number
    ensures IntOf(d, t).Ok? ==> IntOf(d, t).value == t.num
  {
  }

  /**
   * `n` integers read from `p` succeed exactly when the next Count(n)
   * tokens exist and are all numbers; the values are theirs, in order.
   */
  lemma {:induction false} ReadIntsValues(d: Dialect, ts: seq<Token>, p: nat, n: int)
    decreases n
    ensures ReadInts(d, ts, p, n).Ok? <==>
              (n > 0 ==> p + n <= |ts|) && forall k :: p <= k < p + Count(n) ==> ts[k].kind == Number
    ensures ReadInts(d, ts, p, n).Ok? ==>
              forall k :: 0 <= k < Count(n) ==> ReadInts(d, ts, p, n).value.value[k] == ts[p + k].num
  {
    if n > 0 {
      ReadIntsValues(d, ts, p + 1, n - 1);
      var rest := ReadInts(d, ts, p + 1, n - 1);
      assert Count(n - 1) == n - 1 && Count(n) == n;
      if p < |ts| && ts[p].kind == Number {
        IntOfNumber(d, ts[p]);
        assert ReadInts(d, ts, p, n) == Prefixed([ts[p].num], rest);
        if rest.Ok? {
          var values := [ts[p].num] + rest.value.value;
          forall k | 0 <= k < n
            ensures values[k] == ts[p + k].num
          {
            if k > 0 {
              assert values[k] == rest.value.value[k - 1];
            }
          }
        }
      } else {
        if p < |ts| {
          IntOfNumber(d, ts[p]);
        }
        assert ReadInts(d, ts, p, n).Err?;
        assert !(p < |ts| && ts[p].kind == Number);
      }
    }
  }

  /**
   * process_array_of_ints: a Number token holding the count, then that
   * many integers; the array has Count(count) entries, signs kept.
   */
  lemma ArrayOfIntsValues(d: Dialect, ts: seq<Token>, p: nat)
    ensures var r := ArrayOfInts(d, ts, p);
            r.Ok? ==> ts[p].kind == Number && |r.value.value| == Count(ts[p].num)
                      && r.value.next == p + 1 + Count(ts[p].num) <= |ts|
                      && forall k :: 0 <= k < |r.value.value| ==> r.value.value[k] == ts[p + 1 + k].num
  {
    if p < |ts| {
      IntOfNumber(d, ts[p]);
      ReadIntsValues(d, ts, p + 1, ts[p].num);
    }
  }

  // -------------------------------------------------------- markers, skipping

  /**
   * read_end_section_marker(name) takes one token and succeeds exactly when
   * it is the Section marker `name`; otherwise it reports "`name` tag not
   * found.", or the end of the file when there is no token left.
   */
  lemma EndMarkerExact(ts: seq<Token>, p: nat, name: string)
    ensures EndMarker(ts, p, name).Ok? <==> p < |ts| && ts[p].kind == Section && ts[p].str == name
    ensures EndMarker(ts, p, name).Ok? ==> EndMarker(ts, p, name).value.next == p + 1
    ensures p < |ts| && EndMarker(ts, p, name).Err? ==> EndMarker(ts, p, name).error == TagNotFound(name)
    ensures p >= |ts| ==> EndMarker(ts, p, name) == Err(UnexpectedEndOfFile)
  {
  }

  /**
   * skip_section stops right after the first Section token at or after `p`,
   * whatever its name, and fails only when there is none.
   */
  lemma {:induction false} SkipSectionStopsAtMarker(ts: seq<Token>, p: nat)
    decreases |ts| - p
    ensures SkipSection(ts, p).Ok? <==> exists k :: p <= k < |ts| && ts[k].kind == Section
    ensures SkipSection(ts, p).Err? ==> SkipSection(ts, p).error == UnexpectedEndOfFile
    ensures SkipSection(ts, p).Ok? ==>
              forall k :: p <= k < SkipSection(ts, p).value.next - 1 ==> ts[k].kind != Section
  {
    if p < |ts| && ts[p].kind != Section {
      SkipSectionStopsAtMarker(ts, p + 1);
      if exists k :: p <= k < |ts| && ts[k].kind == Section {
        var k :| p <= k < |ts| && ts[k].kind == Section;
        assert p + 1 <= k;
      }
    }
  }

  // ------------------------------------------------------------- MeshFormat

  /**
   * process_mesh_format_section succeeds exactly when two numbers, a
   * data-size token of any kind, the blob word when binary, and
   * $EndMeshFormat follow. The version is the first token, binary holds
   * exactly when the file type is 1, and only then is a blob read after
   * the data size; the other fields are left as they were.
   */
  lemma MeshFormatFields(doc: Document, ts: seq<Token>, p: nat)
    ensures var r := MeshFormatSection(doc, ts, p);
            r.Ok? <==>
              p + 2 < |ts| && ts[p].kind == Number && ts[p + 1].kind == Number
              && var after := if ts[p + 1].num == 1 then Blob(ts, p + 3).next else p + 3;
                 after < |ts| && ts[after].kind == Section && ts[after].str == "$EndMeshFormat"
    ensures var r := MeshFormatSection(doc, ts, p);
            r.Ok? ==>
              p + 3 < |ts| && ts[p].kind == Number && ts[p + 1].kind == Number
              && var binary := ts[p + 1].num == 1;
                 var after := if binary then Blob(ts, p + 3).next else p + 3;
                 r.value.value == doc.(version := Float(ts[p].str), binary := binary,
                                       endianness := if binary then Blob(ts, p + 3).value else doc.endianness)
                 && r.value.next == after + 1
                 && ts[after].kind == Section && ts[after].str == "$EndMeshFormat"
  {
    if p + 2 < |ts| {
      var after := if ts[p + 1].num == 1 then Blob(ts, p + 3).next else p + 3;
      EndMarkerExact(ts, after, "$EndMeshFormat");
    }
  }

  /** The data-size token is taken with no check on its kind or value. */
  lemma DataSizeUnchecked(doc: Document, ts: seq<Token>, ts': seq<Token>, p: nat)
    requires |ts'| == |ts| && p + 2 < |ts|
    requires forall k :: 0 <= k < |ts| && k != p + 2 ==> ts'[k] == ts[k]
    ensures MeshFormatSection(doc, ts', p) == MeshFormatSection(doc, ts, p)
  {
    assert ts'[p] == ts[p] && ts'[p + 1] == ts[p + 1];
    if p + 3 < |ts| {
      assert ts'[p + 3] == ts[p + 3];
    }
    if p + 4 < |ts| {
      assert ts'[p + 4] == ts[p + 4];
    }
  }

  // ---------------------------------------------------------- PhysicalNames

  /** The record at `q` reads as `name` and ends three tokens on. */
  ghost predicate NameAt(d: Dialect, ts: seq<Token>, q: nat, name: PhysicalName) {
    PhysicalNameRecord(d, ts, q) == Ok(Parsed(name, q + 3))
  }

  /** The i-th name of the list read from `p` is the triple at p + 3i. */
  lemma {:induction false} NameAtIndex(d: Dialect, ts: seq<Token>, p: nat, n: int, i: nat)
    requires PhysicalNameList(d, ts, p, n).Ok? && i < Count(n)
    decreases i
    ensures NameAt(d, ts, p + 3 * i, PhysicalNameList(d, ts, p, n).value.value[i])
  {
    var x := PhysicalNameRecord(d, ts, p);
    var tail := PhysicalNameList(d, ts, p + 3, n - 1);
    assert x.Ok? && tail.Ok?;
    assert PhysicalNameList(d, ts, p, n).value.value == [x.value.value] + tail.value.value;
    if i > 0 {
      NameAtIndex(d, ts, p + 3, n - 1, i - 1);
      assert p + 3 * i == (p + 3) + 3 * (i - 1);
    }
  }

  /**
   * The names are appended in the order read: the i-th is the
   * (dimension, tag, name) triple at p + 3i.
   */
  lemma PhysicalNamesInOrder(d: Dialect, ts: seq<Token>, p: nat, n: int)
    ensures var r := PhysicalNameList(d, ts, p, n);
            r.Ok? ==> forall i :: 0 <= i < Count(n) ==> NameAt(d, ts, p + 3 * i, r.value.value[i])
  {
    var r := PhysicalNameList(d, ts, p, n);
    if r.Ok? {
      forall i | 0 <= i < Count(n)
        ensures NameAt(d, ts, p + 3 * i, r.value.value[i])
      {
        NameAtIndex(d, ts, p, n, i);
      }
    }
  }

  /**
   * $PhysicalNames appends exactly as many names as its count token says
   * (none for a count of zero or less), the triples that follow the count
   * in the order read, and changes nothing else.
   */
  lemma PhysicalNamesAppended(doc: Document, ts: seq<Token>, p: nat)
    ensures var r := ApplyPhysicalNames(doc, ts, p);
            r.Ok? ==>
              p < |ts| && ts[p].kind == Number
              && var n := Count(ts[p].num);
                 var names := r.value.value.physicalNames;
                 var added := names[|doc.physicalNames|..];
                 r.value.value == doc.(physicalNames := names)
                 && names == doc.physicalNames + added && |added| == n
                 && (forall i :: 0 <= i < n ==> NameAt(Current, ts, p + 1 + 3 * i, added[i]))
                 && r.value.next == p + 2 + 3 * n
                 && ts[p + 1 + 3 * n].kind == Section && ts[p + 1 + 3 * n].str == "$EndPhysicalNames"
  {
    var r := ApplyPhysicalNames(doc, ts, p);
    if r.Ok? {
      IntOfNumber(Current, ts[p]);
      var list := PhysicalNameList(Current, ts, p + 1, ts[p].num).value;
      PhysicalNamesInOrder(Current, ts, p + 1, ts[p].num);
      EndMarkerExact(ts, list.next, "$EndPhysicalNames");
      assert r.value.value.physicalNames[|doc.physicalNames|..] == list.value;
    }
  }

  // --------------------------------------------------------------- Entities

  /** The tokens from `from` up to `to` exist and are all numbers. */
  ghost predicate Numbers(ts: seq<Token>, from: nat, to: nat) {
    to <= |ts| && forall k :: from <= k < to ==> ts[k].kind == Number
  }

  /**
   * One point entity: the tag, x, y and z are the first four tokens, all
   * numbers, and the physical tags the counted list after them (whose
   * values ArrayOfIntsValues gives); the record reads exactly when those
   * are there.
   */
  lemma PointEntityFields(d: Dialect, ts: seq<Token>, p: nat)
    ensures PointEntityRecord(d, ts, p).Ok? <==> Numbers(ts, p, p + 4) && ArrayOfInts(d, ts, p + 4).Ok?
    ensures var r := PointEntityRecord(d, ts, p);
            r.Ok? ==>
              var e := r.value.value;
              e.tag == ts[p].num
              && e.x == Float(ts[p + 1].str) && e.y == Float(ts[p + 2].str) && e.z == Float(ts[p + 3].str)
              && ArrayOfInts(d, ts, p + 4) == Ok(Parsed(e.physicalTags, r.value.next))
  {
    if Numbers(ts, p, p + 4) {
      IntOfNumber(d, ts[p]);
      assert FloatOf(d, ts[p + 1]).Ok? && FloatOf(d, ts[p + 2]).Ok? && FloatOf(d, ts[p + 3]).Ok?;
    } else if p < |ts| && ts[p].kind == Number {
      IntOfNumber(d, ts[p]);
    }
  }

  /** The six floats of a bounding box: the next six tokens, all numbers. */
  lemma BoundingBoxFields(d: Dialect, ts: seq<Token>, p: nat)
    ensures BoundingBox(d, ts, p).Ok? <==> Numbers(ts, p, p + 6)
    ensures BoundingBox(d, ts, p).Ok? ==>
              BoundingBox(d, ts, p).value.value
              == [Float(ts[p].str), Float(ts[p + 1].str), Float(ts[p + 2].str),
                  Float(ts[p + 3].str), Float(ts[p + 4].str), Float(ts[p + 5].str)]
  {
    if Numbers(ts, p, p + 6) {
      assert FloatOf(d, ts[p]).Ok? && FloatOf(d, ts[p + 1]).Ok? && FloatOf(d, ts[p + 2]).Ok?;
      assert FloatOf(d, ts[p + 3]).Ok? && FloatOf(d, ts[p + 4]).Ok? && FloatOf(d, ts[p + 5]).Ok?;
    }
  }

  /**
   * One curve, surface or volume: the tag and the six bounding-box values
   * are the first seven tokens, all numbers, then come the counted
   * physical tags and the counted bounding tags; the record reads exactly
   * when those are there.
   */
  lemma MultiDEntityFields(d: Dialect, ts: seq<Token>, p: nat)
    ensures MultiDEntityRecord(d, ts, p).Ok? <==>
              Numbers(ts, p, p + 7) && ArrayOfInts(d, ts, p + 7).Ok?
              && ArrayOfInts(d, ts, ArrayOfInts(d, ts, p + 7).value.next).Ok?
    ensures var r := MultiDEntityRecord(d, ts, p);
            r.Ok? ==>
              var e := r.value.value;
              var physical := ArrayOfInts(d, ts, p + 7).value;
              e.tag == ts[p].num
              && e.minX == Float(ts[p + 1].str) && e.minY == Float(ts[p + 2].str) && e.minZ == Float(ts[p + 3].str)
              && e.maxX == Float(ts[p + 4].str) && e.maxY == Float(ts[p + 5].str) && e.maxZ == Float(ts[p + 6].str)
              && e.physicalTags == physical.value
              && ArrayOfInts(d, ts, physical.next) == Ok(Parsed(e.boundingTags, r.value.next))
  {
    BoundingBoxFields(d, ts, p + 1);
    if p < |ts| {
      IntOfNumber(d, ts[p]);
    }
  }

  /** The four counts of $Entities: four number tokens, in the order points, curves, surfaces, volumes. */
  lemma EntityCountsFields(d: Dialect, ts: seq<Token>, p: nat)
    ensures EntityCountsRecord(d, ts, p).Ok? <==> Numbers(ts, p, p + 4)
    ensures EntityCountsRecord(d, ts, p).Ok? ==>
              EntityCountsRecord(d, ts, p).value.value
              == EntityCounts(ts[p].num, ts[p + 1].num, ts[p + 2].num, ts[p + 3].num)
  {
    forall k | p <= k < p + 4 && k < |ts| {
      IntOfNumber(d, ts[k]);
    }
  }

  /** The four lists hold as many entities as their counts say. */
  lemma EntityListsCounts(d: Dialect, ts: seq<Token>, p: nat)
    ensures var r := EntityLists(d, ts, p);
            r.Ok? ==>
              Numbers(ts, p, p + 4)
              && |r.value.value.points| == Count(ts[p].num) && |r.value.value.curves| == Count(ts[p + 1].num)
              && |r.value.value.surfaces| == Count(ts[p + 2].num) && |r.value.value.volumes| == Count(ts[p + 3].num)
  {
    EntityCountsFields(d, ts, p);
  }

  /** Where a list read stopped, or `q` when it failed. */
  ghost function ListEnd<T>(r: Result<Parsed<seq<T>>>, q: nat): nat {
    if r.Ok? then r.value.next else q
  }

  /** The i-th point entity of the list read from `q` is the record read where the first `i` stop. */
  ghost predicate PointAt(d: Dialect, ts: seq<Token>, q: nat, i: nat, pt: PointEntity) {
    var before := PointEntityList(d, ts, q, i);
    before.Ok? && PointEntityRecord(d, ts, before.value.next).Ok?
    && PointEntityRecord(d, ts, before.value.next).value.value == pt
  }

  /** As PointAt, for curves, surfaces and volumes. */
  ghost predicate MultiDAt(d: Dialect, ts: seq<Token>, q: nat, i: nat, en: MultiDEntity) {
    var before := MultiDEntityList(d, ts, q, i);
    before.Ok? && MultiDEntityRecord(d, ts, before.value.next).Ok?
    && MultiDEntityRecord(d, ts, before.value.next).value.value == en
  }

  /** One round of PointEntityList that read `x`. */
  lemma PointEntityListOf(d: Dialect, ts: seq<Token>, p: nat, n: int, x: Result<Parsed<PointEntity>>)
    requires n > 0 && PointEntityRecord(d, ts, p) == x
    ensures PointEntityList(d, ts, p, n) ==
            if x.Ok? then Prefixed([x.value.value], PointEntityList(d, ts, x.value.next, n - 1)) else Err(x.error)
  {
  }

  lemma PointAtLater(d: Dialect, ts: seq<Token>, p: nat, i: nat, x: Parsed<PointEntity>, en: PointEntity)
    requires i > 0 && PointEntityRecord(d, ts, p) == Ok(x) && PointAt(d, ts, x.next, i - 1, en)
    ensures PointAt(d, ts, p, i, en)
  {
    PointEntityListOf(d, ts, p, i, Ok(x));
  }

  lemma {:induction false} PointAtIndex(d: Dialect, ts: seq<Token>, p: nat, n: int, i: nat)
    requires PointEntityList(d, ts, p, n).Ok? && i < Count(n)
    decreases i
    ensures PointAt(d, ts, p, i, PointEntityList(d, ts, p, n).value.value[i])
  {
    var x := PointEntityRecord(d, ts, p);
    PointEntityListOf(d, ts, p, n, x);
    var tail := PointEntityList(d, ts, x.value.next, n - 1);
    assert PointEntityList(d, ts, p, n).value.value == [x.value.value] + tail.value.value;
    if i > 0 {
      PointAtIndex(d, ts, x.value.next, n - 1, i - 1);
      PointAtLater(d, ts, p, i, x.value, tail.value.value[i - 1]);
    } else {
      assert PointEntityList(d, ts, p, 0) == Ok(Parsed([], p));
    }
  }

  /** One round of MultiDEntityList that read `x`. */
  lemma MultiDEntityListOf(d: Dialect, ts: seq<Token>, p: nat, n: int, x: Result<Parsed<MultiDEntity>>)
    requires n > 0 && MultiDEntityRecord(d, ts, p) == x
    ensures MultiDEntityList(d, ts, p, n) ==
            if x.Ok? then Prefixed([x.value.value], MultiDEntityList(d, ts, x.value.next, n - 1)) else Err(x.error)
  {
  }

  lemma MultiDAtLater(d: Dialect, ts: seq<Token>, p: nat, i: nat, x: Parsed<MultiDEntity>, en: MultiDEntity)
    requires i > 0 && MultiDEntityRecord(d, ts, p) == Ok(x) && MultiDAt(d, ts, x.next, i - 1, en)
    ensures MultiDAt(d, ts, p, i, en)
  {
    MultiDEntityListOf(d, ts, p, i, Ok(x));
  }

  lemma {:induction false} MultiDAtIndex(d: Dialect, ts: seq<Token>, p: nat, n: int, i: nat)
    requires MultiDEntityList(d, ts, p, n).Ok? && i < Count(n)
    decreases i
    ensures MultiDAt(d, ts, p, i, MultiDEntityList(d, ts, p, n).value.value[i])
  {
    var x := MultiDEntityRecord(d, ts, p);
    MultiDEntityListOf(d, ts, p, n, x);
    var tail := MultiDEntityList(d, ts, x.value.next, n - 1);
    assert MultiDEntityList(d, ts, p, n).value.value == [x.value.value] + tail.value.value;
    if i > 0 {
      MultiDAtIndex(d, ts, x.value.next, n - 1, i - 1);
      MultiDAtLater(d, ts, p, i, x.value, tail.value.value[i - 1]);
    } else {
      assert MultiDEntityList(d, ts, p, 0) == Ok(Parsed([], p));
    }
  }

  /** The point entities are kept in the order read: the i-th is the record read after the first i. */
  lemma PointsInOrder(d: Dialect, ts: seq<Token>, p: nat, n: int)
    ensures var r := PointEntityList(d, ts, p, n);
            r.Ok? ==> forall i :: 0 <= i < Count(n) ==> PointAt(d, ts, p, i, r.value.value[i])
  {
    var r := PointEntityList(d, ts, p, n);
    if r.Ok? {
      forall i | 0 <= i < Count(n)
        ensures PointAt(d, ts, p, i, r.value.value[i])
      {
        PointAtIndex(d, ts, p, n, i);
      }
    }
  }

  /** The curve, surface or volume entities are kept in the order read. */
  lemma MultiDInOrder(d: Dialect, ts: seq<Token>, p: nat, n: int)
    ensures var r := MultiDEntityList(d, ts, p, n);
            r.Ok? ==> forall i :: 0 <= i < Count(n) ==> MultiDAt(d, ts, p, i, r.value.value[i])
  {
    var r := MultiDEntityList(d, ts, p, n);
    if r.Ok? {
      forall i | 0 <= i < Count(n)
        ensures MultiDAt(d, ts, p, i, r.value.value[i])
      {
        MultiDAtIndex(d, ts, p, n, i);
      }
    }
  }

  /**
   * The four lists of `e` are the entities read after the four counts at
   * `p`, one list after the other, each in the order read.
   */
  ghost predicate EntitiesReadAt(d: Dialect, ts: seq<Token>, p: nat, e: Entities)
    requires p + 4 <= |ts|
  {
    var q1 := ListEnd(PointEntityList(d, ts, p + 4, ts[p].num), p + 4);
    var q2 := ListEnd(MultiDEntityList(d, ts, q1, ts[p + 1].num), q1);
    var q3 := ListEnd(MultiDEntityList(d, ts, q2, ts[p + 2].num), q2);
    (forall i :: 0 <= i < |e.points| ==> PointAt(d, ts, p + 4, i, e.points[i]))
    && (forall i :: 0 <= i < |e.curves| ==> MultiDAt(d, ts, q1, i, e.curves[i]))
    && (forall i :: 0 <= i < |e.surfaces| ==> MultiDAt(d, ts, q2, i, e.surfaces[i]))
    && (forall i :: 0 <= i < |e.volumes| ==> MultiDAt(d, ts, q3, i, e.volumes[i]))
  }

  /** The entities of $Entities are the records read, list by list, in the order read. */
  lemma EntityListsInOrder(d: Dialect, ts: seq<Token>, p: nat)
    ensures var r := EntityLists(d, ts, p);
            r.Ok? ==> p + 4 <= |ts| && EntitiesReadAt(d, ts, p, r.value.value)
  {
    var r := EntityLists(d, ts, p);
    if r.Ok? {
      EntityCountsFields(d, ts, p);
      var c := EntityCountsRecord(d, ts, p).value;
      var points := PointEntityList(d, ts, p + 4, ts[p].num);
      var curves := MultiDEntityList(d, ts, points.value.next, ts[p + 1].num);
      var surfaces := MultiDEntityList(d, ts, curves.value.next, ts[p + 2].num);
      var volumes := MultiDEntityList(d, ts, surfaces.value.next, ts[p + 3].num);
      assert r.value.value == Entities(points.value.value, curves.value.value, surfaces.value.value, volumes.value.value);
      PointsInOrder(d, ts, p + 4, ts[p].num);
      MultiDInOrder(d, ts, points.value.next, ts[p + 1].num);
      MultiDInOrder(d, ts, curves.value.next, ts[p + 2].num);
      MultiDInOrder(d, ts, surfaces.value.next, ts[p + 3].num);
    }
  }

  /**
   * $Entities starts with four number tokens, the counts of points,
   * curves, surfaces and volumes, and appends exactly that many entities
   * to each of the four lists, the records read in the order read,
   * changing nothing else.
   */
  lemma EntitiesAppended(doc: Document, ts: seq<Token>, p: nat)
    ensures var r := ApplyEntities(doc, ts, p);
            r.Ok? ==>
              Numbers(ts, p, p + 4)
              && var e := r.value.value;
                 e == doc.(pointEntities := e.pointEntities, curveEntities := e.curveEntities,
                           surfaceEntities := e.surfaceEntities, volumeEntities := e.volumeEntities)
                 && e.pointEntities[..|doc.pointEntities|] == doc.pointEntities
                 && |e.pointEntities| == |doc.pointEntities| + Count(ts[p].num)
                 && e.curveEntities[..|doc.curveEntities|] == doc.curveEntities
                 && |e.curveEntities| == |doc.curveEntities| + Count(ts[p + 1].num)
                 && e.surfaceEntities[..|doc.surfaceEntities|] == doc.surfaceEntities
                 && |e.surfaceEntities| == |doc.surfaceEntities| + Count(ts[p + 2].num)
                 && e.volumeEntities[..|doc.volumeEntities|] == doc.volumeEntities
                 && |e.volumeEntities| == |doc.volumeEntities| + Count(ts[p + 3].num)
                 && EntitiesReadAt(Current, ts, p, Entities(e.pointEntities[|doc.pointEntities|..],
                                                            e.curveEntities[|doc.curveEntities|..],
                                                            e.surfaceEntities[|doc.surfaceEntities|..],
                                                            e.volumeEntities[|doc.volumeEntities|..]))
  {
    var r := ApplyEntities(doc, ts, p);
    if r.Ok? {
      var lists := EntityLists(Current, ts, p);
      EntityListsCounts(Current, ts, p);
      var e := lists.value.value;
      assert r.value.value == AddEntities(doc, e);
      AppendedPrefix(doc.pointEntities, e.points);
      AppendedPrefix(doc.curveEntities, e.curves);
      AppendedPrefix(doc.surfaceEntities, e.surfaces);
      AppendedPrefix(doc.volumeEntities, e.volumes);
      EntityListsInOrder(Current, ts, p);
    }
  }

  /** What was there before is the prefix of what is there after an append. */
  lemma AppendedPrefix<T>(a: seq<T>, b: seq<T>)
    ensures (a + b)[..|a|] == a && (a + b)[|a|..] == b && |a + b| == |a| + |b|
  {
  }

  // ------------------------------------------------- $Nodes and $Elements header

  /**
   * The four-integer header needs four number tokens; its value is the
   * first, the block count, whatever the total and the tag range say.
   */
  lemma SectionHeaderFields(d: Dialect, ts: seq<Token>, p: nat)
    ensures SectionHeader(d, ts, p).Ok? <==> Numbers(ts, p, p + 4)
    ensures SectionHeader(d, ts, p).Ok? ==> SectionHeader(d, ts, p).value.value == ts[p].num
  {
    forall k | p <= k < p + 4 && k < |ts| {
      IntOfNumber(d, ts[k]);
    }
  }

  /** `ts'` holds the same tokens as `ts` from `q` on. */
  ghost predicate SameFrom(ts: seq<Token>, ts': seq<Token>, q: nat) {
    |ts'| == |ts| && forall k :: q <= k < |ts| ==> ts'[k] == ts[k]
  }

  lemma SameFromLater(ts: seq<Token>, ts': seq<Token>, p: nat, q: nat)
    requires p <= q && SameFrom(ts, ts', p)
    ensures SameFrom(ts, ts', q)
  {
  }

  /** Reading integers from `p` looks at no token before `p`. */
  lemma {:induction false} ReadIntsFrame(ts: seq<Token>, ts': seq<Token>, p: nat, n: int)
    requires SameFrom(ts, ts', p)
    decreases n
    ensures ReadInts(Current, ts', p, n) == ReadInts(Current, ts, p, n)
  {
    if n > 0 && p < |ts| {
      assert ts'[p] == ts[p];
      ReadIntsFrame(ts, ts', p + 1, n - 1);
    }
  }

  lemma ArrayOfIntsFrame(ts: seq<Token>, ts': seq<Token>, p: nat)
    requires SameFrom(ts, ts', p)
    ensures ArrayOfInts(Current, ts', p) == ArrayOfInts(Current, ts, p)
  {
    if p < |ts| {
      assert ts'[p] == ts[p];
      ReadIntsFrame(ts, ts', p + 1, ts[p].num);
    }
  }

  lemma PointFrame(ts: seq<Token>, ts': seq<Token>, p: nat, dim: int)
    requires SameFrom(ts, ts', p)
    ensures ReadPoint(Current, ts', p) == ReadPoint(Current, ts, p)
    ensures ReadPoint(Current, ts, p).Ok? ==>
              ParametricCoords(Current, ts', p + 3, dim) == ParametricCoords(Current, ts, p + 3, dim)
  {
    if p + 3 <= |ts| {
      assert ts'[p] == ts[p] && ts'[p + 1] == ts[p + 1] && ts'[p + 2] == ts[p + 2];
    } else if p + 2 <= |ts| {
      assert ts'[p] == ts[p] && ts'[p + 1] == ts[p + 1];
    } else if p + 1 <= |ts| {
      assert ts'[p] == ts[p];
    }
    if p + 3 < |ts| {
      assert ts'[p + 3] == ts[p + 3];
      if p + 4 < |ts| {
        assert ts'[p + 4] == ts[p + 4];
        if p + 5 < |ts| {
          assert ts'[p + 5] == ts[p + 5];
        }
      }
    }
  }

  /** One round of NodeCoords that read the point `pt` and the parametric coordinates `pc`. */
  lemma NodeCoordsOf(ts: seq<Token>, p: nat, dim: int, parametric: bool, k: int,
                     pt: Parsed<Point>, pc: Parsed<seq<Float>>)
    requires k > 0 && ReadPoint(Current, ts, p) == Ok(pt)
    requires (if parametric then ParametricCoords(Current, ts, pt.next, dim) else Ok(Parsed([], pt.next))) == Ok(pc)
    ensures NodeCoords(ts, p, dim, parametric, k) ==
            CoordsPrefixed(NodeCoordinates([pt.value], if parametric then [pc.value] else []),
                           NodeCoords(ts, pc.next, dim, parametric, k - 1))
  {
  }

  lemma {:induction false} NodeCoordsFrame(ts: seq<Token>, ts': seq<Token>, p: nat, dim: int, parametric: bool, k: int)
    requires SameFrom(ts, ts', p)
    decreases k
    ensures NodeCoords(ts', p, dim, parametric, k) == NodeCoords(ts, p, dim, parametric, k)
  {
    if k > 0 {
      PointFrame(ts, ts', p, dim);
      var pt := ReadPoint(Current, ts, p);
      if pt.Ok? {
        var pc := if parametric then ParametricCoords(Current, ts, p + 3, dim) else Ok(Parsed([], p + 3));
        if pc.Ok? {
          SameFromLater(ts, ts', p, pc.value.next);
          NodeCoordsFrame(ts, ts', pc.value.next, dim, parametric, k - 1);
          NodeCoordsOf(ts, p, dim, parametric, k, pt.value, pc.value);
          NodeCoordsOf(ts', p, dim, parametric, k, pt.value, pc.value);
        }
      }
    }
  }

  lemma NodeBlockFrame(ts: seq<Token>, ts': seq<Token>, p: nat)
    requires SameFrom(ts, ts', p)
    ensures NodeBlock(ts', p) == NodeBlock(ts, p)
  {
    ReadIntFrame(ts, ts', p);
    if ReadInt(Current, ts, p).Ok? {
      ReadIntFrame(ts, ts', p + 1);
      if ReadInt(Current, ts, p + 1).Ok? {
        ReadIntFrame(ts, ts', p + 2);
        if ReadInt(Current, ts, p + 2).Ok? {
          ArrayOfIntsFrame(ts, ts', p + 3);
          var tags := ArrayOfInts(Current, ts, p + 3);
          if tags.Ok? {
            assert ts'[p] == ts[p] && ts'[p + 2] == ts[p + 2];
            NodeCoordsFrame(ts, ts', tags.value.next, ts[p].num, ts[p + 2].num == 1, |tags.value.value|);
          }
        }
      }
    }
  }

  /** One round of NodeBlockList that read `x`. */
  lemma NodeBlockListOf(ts: seq<Token>, p: nat, n: int, x: Result<Parsed<Node>>)
    requires n > 0 && NodeBlock(ts, p) == x
    ensures NodeBlockList(ts, p, n) ==
            if x.Ok? then Prefixed([x.value.value], NodeBlockList(ts, x.value.next, n - 1)) else Err(x.error)
  {
  }

  /** Two streams that agree from `p` on, and whose lists after the block at `p` agree, agree on the list at `p`. */
  lemma NodeBlockListSame(ts: seq<Token>, ts': seq<Token>, p: nat, n: int, x: Result<Parsed<Node>>)
    requires SameFrom(ts, ts', p)
    requires n > 0 && NodeBlock(ts, p) == x
    requires x.Ok? ==> NodeBlockList(ts', x.value.next, n - 1) == NodeBlockList(ts, x.value.next, n - 1)
    ensures NodeBlockList(ts', p, n) == NodeBlockList(ts, p, n)
  {
    NodeBlockFrame(ts, ts', p);
    NodeBlockListOf(ts, p, n, x);
    NodeBlockListOf(ts', p, n, x);
  }

  /** NodeBlockListFrame for a list whose first block reads as `x`. */
  lemma {:induction false} NodeBlockListFrameAt(ts: seq<Token>, ts': seq<Token>, p: nat, n: int, x: Result<Parsed<Node>>)
    requires SameFrom(ts, ts', p) && n > 0 && NodeBlock(ts, p) == x
    decreases n, 0
    ensures NodeBlockList(ts', p, n) == NodeBlockList(ts, p, n)
  {
    if x.Ok? {
      var q := x.value.next;
      SameFromLater(ts, ts', p, q);
      NodeBlockListFrame(ts, ts', q, n - 1);
    }
    NodeBlockListSame(ts, ts', p, n, x);
  }

  lemma {:induction false} NodeBlockListFrame(ts: seq<Token>, ts': seq<Token>, p: nat, n: int)
    requires SameFrom(ts, ts', p)
    decreases n, 1
    ensures NodeBlockList(ts', p, n) == NodeBlockList(ts, p, n)
  {
    if n > 0 {
      var x := NodeBlock(ts, p);
      NodeBlockListFrameAt(ts, ts', p, n, x);
    }
  }


  lemma {:induction false} ElementListFrame(ts: seq<Token>, ts': seq<Token>, p: nat, arity: int, n: int)
    requires SameFrom(ts, ts', p)
    decreases n
    ensures ElementList(ts', p, arity, n) == ElementList(ts, p, arity, n)
  {
    if n > 0 && p < |ts| {
      assert ts'[p] == ts[p];
      ReadIntsFrame(ts, ts', p + 1, arity);
      var x := ElementRecord(ts, p, arity);
      if x.Ok? {
        ElementListFrame(ts, ts', x.value.next, arity, n - 1);
      }
    }
  }

  lemma ReadIntFrame(ts: seq<Token>, ts': seq<Token>, p: nat)
    requires SameFrom(ts, ts', p)
    ensures ReadInt(Current, ts', p) == ReadInt(Current, ts, p)
  {
    if p < |ts| {
      assert ts'[p] == ts[p];
    }
  }

  /** An element block whose header reads, as the element list after it gives it. */
  lemma ElementBlockRecordOf(ts: seq<Token>, p: nat)
    requires Numbers(ts, p, p + 4) && GetNodesPerElement(ts[p + 2].num).Ok?
    ensures ElementBlockRecord(ts, p)
            == match ElementList(ts, p + 4, GetNodesPerElement(ts[p + 2].num).value, ts[p + 3].num)
               case Ok(e) => Ok(Parsed(ElementBlock(ts[p].num, ts[p + 1].num, ts[p + 2].num, e.value), e.next))
               case Err(x) => Err(x)
  {
  }

  /** An element block of known type whose element count does not read fails as that read. */
  lemma ElementCountFails(ts: seq<Token>, p: nat)
    requires Numbers(ts, p, p + 3) && GetNodesPerElement(ts[p + 2].num).Ok? && ReadInt(Current, ts, p + 3).Err?
    ensures ElementBlockRecord(ts, p) == Err(ReadInt(Current, ts, p + 3).error)
  {
  }

  lemma ElementBlockRecordFrame(ts: seq<Token>, ts': seq<Token>, p: nat)
    requires SameFrom(ts, ts', p)
    ensures ElementBlockRecord(ts', p) == ElementBlockRecord(ts, p)
  {
    ReadIntFrame(ts, ts', p);
    if ReadInt(Current, ts, p).Ok? {
      ReadIntFrame(ts, ts', p + 1);
      if ReadInt(Current, ts, p + 1).Ok? {
        ReadIntFrame(ts, ts', p + 2);
        if ReadInt(Current, ts, p + 2).Ok? {
          assert ts'[p] == ts[p] && ts'[p + 1] == ts[p + 1] && ts'[p + 2] == ts[p + 2];
          assert Numbers(ts, p, p + 3) && Numbers(ts', p, p + 3);
          if GetNodesPerElement(ts[p + 2].num).Err? {
            ArityTableDomain(ts[p + 2].num);
            UnknownTypeFailsFirst(ts, p);
            UnknownTypeFailsFirst(ts', p);
          } else if ReadInt(Current, ts, p + 3).Err? {
            ReadIntFrame(ts, ts', p + 3);
            ElementCountFails(ts, p);
            ElementCountFails(ts', p);
          } else {
            assert ts'[p + 3] == ts[p + 3];
            ElementBlockRecordOf(ts, p);
            ElementBlockRecordOf(ts', p);
            ElementListFrame(ts, ts', p + 4, GetNodesPerElement(ts[p + 2].num).value, ts[p + 3].num);
          }
        }
      }
    }
  }

  /** One round of ElementBlockList that read `x`. */
  lemma ElementBlockListOf(ts: seq<Token>, p: nat, n: int, x: Result<Parsed<ElementBlock>>)
    requires n > 0 && ElementBlockRecord(ts, p) == x
    ensures ElementBlockList(ts, p, n) ==
            if x.Ok? then Prefixed([x.value.value], ElementBlockList(ts, x.value.next, n - 1)) else Err(x.error)
  {
  }

  /** Two streams that agree from `p` on, and whose lists after the block at `p` agree, agree on the list at `p`. */
  lemma ElementBlockListSame(ts: seq<Token>, ts': seq<Token>, p: nat, n: int, x: Result<Parsed<ElementBlock>>)
    requires SameFrom(ts, ts', p)
    requires n > 0 && ElementBlockRecord(ts, p) == x
    requires x.Ok? ==> ElementBlockList(ts', x.value.next, n - 1) == ElementBlockList(ts, x.value.next, n - 1)
    ensures ElementBlockList(ts', p, n) == ElementBlockList(ts, p, n)
  {
    ElementBlockRecordFrame(ts, ts', p);
    ElementBlockListOf(ts, p, n, x);
    ElementBlockListOf(ts', p, n, x);
  }

  lemma {:induction false} ElementBlockListFrame(ts: seq<Token>, ts': seq<Token>, p: nat, n: int)
    requires SameFrom(ts, ts', p)
    decreases n
    ensures ElementBlockList(ts', p, n) == ElementBlockList(ts, p, n)
  {
    if n > 0 {
      var x := ElementBlockRecord(ts, p);
      if x.Ok? {
        var q := x.value.next;
        SameFromLater(ts, ts', p, q);
        ElementBlockListFrame(ts, ts', q, n - 1);
        ElementBlockListSame(ts, ts', p, n, x);
      } else {
        ElementBlockListSame(ts, ts', p, n, x);
      }
    }
  }


  /** The header's result does not depend on the values of its last three numbers. */
  lemma HeaderSame(ts: seq<Token>, ts': seq<Token>, p: nat)
    requires |ts'| == |ts| && p + 4 <= |ts|
    requires ts'[p] == ts[p]
    requires forall k :: p + 1 <= k < p + 4 ==> ts'[k].kind == ts[k].kind
    ensures SectionHeader(Current, ts', p) == SectionHeader(Current, ts, p)
  {
    IntOfNumber(Current, ts[p + 1]);
    IntOfNumber(Current, ts'[p + 1]);
    IntOfNumber(Current, ts[p + 2]);
    IntOfNumber(Current, ts'[p + 2]);
    IntOfNumber(Current, ts[p + 3]);
    IntOfNumber(Current, ts'[p + 3]);
  }

  lemma NodesHeaderUnchecked(ts: seq<Token>, ts': seq<Token>, p: nat)
    requires |ts'| == |ts| && p + 4 <= |ts|
    requires ts'[p] == ts[p] && SameFrom(ts, ts', p + 4)
    requires forall k :: p + 1 <= k < p + 4 ==> ts'[k].kind == ts[k].kind
    ensures NodesSection(ts', p) == NodesSection(ts, p)
  {
    HeaderSame(ts, ts', p);
    var header := SectionHeader(Current, ts, p);
    if header.Ok? {
      NodeBlockListFrame(ts, ts', p + 4, header.value.value);
      var blocks := NodeBlockList(ts, p + 4, header.value.value);
      if blocks.Ok? && blocks.value.next < |ts| {
        assert ts'[blocks.value.next] == ts[blocks.value.next];
      }
    }
  }

  lemma ElementsHeaderUnchecked(ts: seq<Token>, ts': seq<Token>, p: nat)
    requires |ts'| == |ts| && p + 4 <= |ts|
    requires ts'[p] == ts[p] && SameFrom(ts, ts', p + 4)
    requires forall k :: p + 1 <= k < p + 4 ==> ts'[k].kind == ts[k].kind
    ensures ElementsSection(ts', p) == ElementsSection(ts, p)
  {
    HeaderSame(ts, ts', p);
    var header := SectionHeader(Current, ts, p);
    if header.Ok? {
      ElementBlockListFrame(ts, ts', p + 4, header.value.value);
      var blocks := ElementBlockList(ts, p + 4, header.value.value);
      if blocks.Ok? && blocks.value.next < |ts| {
        assert ts'[blocks.value.next] == ts[blocks.value.next];
      }
    }
  }

  /**
   * The total and the minimum and maximum tags of the $Nodes and
   * $Elements headers are read and never checked: two token sequences
   * that differ only in the values of those three numbers give the same
   * section, or the same error.
   */
  lemma HeaderTotalsUnchecked(doc: Document, ts: seq<Token>, ts': seq<Token>, p: nat)
    requires |ts'| == |ts| && p + 4 <= |ts|
    requires forall k :: 0 <= k < |ts| && !(p + 1 <= k < p + 4) ==> ts'[k] == ts[k]
    requires forall k :: p + 1 <= k < p + 4 ==> ts'[k].kind == ts[k].kind
    ensures ApplyNodes(doc, ts', p) == ApplyNodes(doc, ts, p)
    ensures ApplyElements(doc, ts', p) == ApplyElements(doc, ts, p)
  {
    assert ts'[p] == ts[p];
    NodesHeaderUnchecked(ts, ts', p);
    ElementsHeaderUnchecked(ts, ts', p);
  }

  // ------------------------------------------------------------------ Nodes

  /** Every parametric node of a block carries ParCount(dim) values: 0, 1, 2 or 3. */
  lemma {:induction false} NodeCoordsShape(ts: seq<Token>, p: nat, dim: int, parametric: bool, k: int)
    decreases k
    ensures var r := NodeCoords(ts, p, dim, parametric, k);
            r.Ok? ==> forall i :: 0 <= i < |r.value.value.parCoords| ==> |r.value.value.parCoords[i]| == ParCount(dim)
  {
    var r := NodeCoords(ts, p, dim, parametric, k);
    if k > 0 && r.Ok? {
      var pt := ReadPoint(Current, ts, p).value;
      var pc := (if parametric then ParametricCoords(Current, ts, pt.next, dim) else Ok(Parsed([], pt.next))).value;
      var rest := NodeCoords(ts, pc.next, dim, parametric, k - 1);
      NodeCoordsShape(ts, pc.next, dim, parametric, k - 1);
      var step := if parametric then [pc.value] else [];
      assert r.value.value.parCoords == step + rest.value.value.parCoords;
      forall i | 0 <= i < |r.value.value.parCoords|
        ensures |r.value.value.parCoords[i]| == ParCount(dim)
      {
        if i >= |step| {
          assert r.value.value.parCoords[i] == rest.value.value.parCoords[i - |step|];
        }
      }
    }
  }

  /**
   * One node block: a point per tag, and parametric values per tag exactly
   * when the parametric flag read is 1, each of ParCount(dimension) values.
   */
  lemma NodeBlockShape(ts: seq<Token>, p: nat)
    ensures var r := NodeBlock(ts, p);
            r.Ok? ==>
              var b := r.value.value;
              |b.coordinates| == |b.tags|
              && |b.parCoords| == (if b.parametric then |b.tags| else 0)
              && (b.parametric <==> ts[p + 2].num == 1)
              && forall i :: 0 <= i < |b.parCoords| ==> |b.parCoords[i]| == ParCount(b.dimension)
  {
    var r := NodeBlock(ts, p);
    if r.Ok? {
      var dimension := ReadInt(Current, ts, p).value;
      var entityTag := ReadInt(Current, ts, dimension.next).value;
      var parametric := ReadInt(Current, ts, entityTag.next).value;
      var tags := ArrayOfInts(Current, ts, parametric.next).value;
      NodeCoordsShape(ts, tags.next, dimension.value, parametric.value == 1, |tags.value|);
    }
  }

  /** The i-th node block of the list read from `q` is the block read where the first `i` stop. */
  ghost predicate NodeAt(ts: seq<Token>, q: nat, i: nat, b: Node) {
    var before := NodeBlockList(ts, q, i);
    before.Ok? && NodeBlock(ts, before.value.next).Ok? && NodeBlock(ts, before.value.next).value.value == b
  }

  lemma NodeAtLater(ts: seq<Token>, p: nat, i: nat, x: Parsed<Node>, b: Node)
    requires i > 0 && NodeBlock(ts, p) == Ok(x) && NodeAt(ts, x.next, i - 1, b)
    ensures NodeAt(ts, p, i, b)
  {
    NodeBlockListOf(ts, p, i, Ok(x));
  }

  lemma {:induction false} NodeAtIndex(ts: seq<Token>, p: nat, n: int, i: nat)
    requires NodeBlockList(ts, p, n).Ok? && i < Count(n)
    decreases i
    ensures NodeAt(ts, p, i, NodeBlockList(ts, p, n).value.value[i])
  {
    var x := NodeBlock(ts, p);
    NodeBlockListOf(ts, p, n, x);
    var tail := NodeBlockList(ts, x.value.next, n - 1);
    assert NodeBlockList(ts, p, n).value.value == [x.value.value] + tail.value.value;
    if i > 0 {
      NodeAtIndex(ts, x.value.next, n - 1, i - 1);
      NodeAtLater(ts, p, i, x.value, tail.value.value[i - 1]);
    } else {
      assert NodeBlockList(ts, p, 0) == Ok(Parsed([], p));
    }
  }

  /**
   * $Nodes appends exactly as many node blocks as the first number of its
   * header says, the blocks read in the order read, and changes nothing else.
   */
  lemma NodesAppended(doc: Document, ts: seq<Token>, p: nat)
    ensures var r := ApplyNodes(doc, ts, p);
            r.Ok? ==>
              Numbers(ts, p, p + 4)
              && var nodes := r.value.value.nodes;
                 r.value.value == doc.(nodes := nodes)
                 && nodes[..|doc.nodes|] == doc.nodes
                 && |nodes| == |doc.nodes| + Count(ts[p].num)
                 && var added := nodes[|doc.nodes|..];
                    forall i :: 0 <= i < |added| ==> NodeAt(ts, p + 4, i, added[i])
  {
    var r := ApplyNodes(doc, ts, p);
    if r.Ok? {
      SectionHeaderFields(Current, ts, p);
      var blocks := NodesSection(ts, p).value.value;
      AppendedPrefix(doc.nodes, blocks);
      forall i | 0 <= i < |blocks|
        ensures NodeAt(ts, p + 4, i, blocks[i])
      {
        NodeAtIndex(ts, p + 4, ts[p].num, i);
      }
    }
  }

  // --------------------------------------------------------------- Elements

  /** Every element of a list read with `arity` has Count(arity) node tags. */
  lemma {:induction false} ElementListArity(ts: seq<Token>, p: nat, arity: int, n: int)
    decreases n
    ensures var r := ElementList(ts, p, arity, n);
            r.Ok? ==> forall i :: 0 <= i < |r.value.value| ==> |r.value.value[i].nodeTags| == Count(arity)
  {
    var r := ElementList(ts, p, arity, n);
    if n > 0 && r.Ok? {
      var x := ElementRecord(ts, p, arity).value;
      var rest := ElementList(ts, x.next, arity, n - 1);
      ElementListArity(ts, x.next, arity, n - 1);
      assert r.value.value == [x.value] + rest.value.value;
      forall i | 0 <= i < |r.value.value|
        ensures |r.value.value[i].nodeTags| == Count(arity)
      {
        if i > 0 {
          assert r.value.value[i] == rest.value.value[i - 1];
        }
      }
    }
  }

  /**
   * An element block read has a known type, the declared number of
   * elements, and get_nodes_per_element(type) node tags in each element.
   */
  lemma ElementBlockShape(ts: seq<Token>, p: nat)
    ensures var r := ElementBlockRecord(ts, p);
            r.Ok? ==>
              var b := r.value.value;
              b.elementType == ts[p + 2].num
              && GetNodesPerElement(b.elementType).Ok?
              && |b.elements| == Count(ts[p + 3].num)
              && forall i :: 0 <= i < |b.elements| ==>
                   |b.elements[i].nodeTags| == GetNodesPerElement(b.elementType).value
  {
    var r := ElementBlockRecord(ts, p);
    if r.Ok? {
      var elementType := ts[p + 2].num;
      var arity := GetNodesPerElement(elementType).value;
      var count := ts[p + 3].num;
      ElementListArity(ts, p + 4, arity, count);
    }
  }

  /** The i-th element block of the list read from `q` is the block read where the first `i` stop. */
  ghost predicate ElementBlockAt(ts: seq<Token>, q: nat, i: nat, b: ElementBlock) {
    var before := ElementBlockList(ts, q, i);
    before.Ok? && ElementBlockRecord(ts, before.value.next).Ok? && ElementBlockRecord(ts, before.value.next).value.value == b
  }

  lemma ElementBlockAtLater(ts: seq<Token>, p: nat, i: nat, x: Parsed<ElementBlock>, b: ElementBlock)
    requires i > 0 && ElementBlockRecord(ts, p) == Ok(x) && ElementBlockAt(ts, x.next, i - 1, b)
    ensures ElementBlockAt(ts, p, i, b)
  {
    ElementBlockListOf(ts, p, i, Ok(x));
  }

  lemma {:induction false} ElementBlockAtIndex(ts: seq<Token>, p: nat, n: int, i: nat)
    requires ElementBlockList(ts, p, n).Ok? && i < Count(n)
    decreases i
    ensures ElementBlockAt(ts, p, i, ElementBlockList(ts, p, n).value.value[i])
  {
    var x := ElementBlockRecord(ts, p);
    ElementBlockListOf(ts, p, n, x);
    var tail := ElementBlockList(ts, x.value.next, n - 1);
    assert ElementBlockList(ts, p, n).value.value == [x.value.value] + tail.value.value;
    if i > 0 {
      ElementBlockAtIndex(ts, x.value.next, n - 1, i - 1);
      ElementBlockAtLater(ts, p, i, x.value, tail.value.value[i - 1]);
    } else {
      assert ElementBlockList(ts, p, 0) == Ok(Parsed([], p));
    }
  }

  /**
   * $Elements appends exactly as many element blocks as the first number
   * of its header says, the blocks read in the order read, and changes
   * nothing else.
   */
  lemma ElementsAppended(doc: Document, ts: seq<Token>, p: nat)
    ensures var r := ApplyElements(doc, ts, p);
            r.Ok? ==>
              Numbers(ts, p, p + 4)
              && var blocks := r.value.value.elementBlocks;
                 r.value.value == doc.(elementBlocks := blocks)
                 && blocks[..|doc.elementBlocks|] == doc.elementBlocks
                 && |blocks| == |doc.elementBlocks| + Count(ts[p].num)
                 && var added := blocks[|doc.elementBlocks|..];
                    forall i :: 0 <= i < |added| ==> ElementBlockAt(ts, p + 4, i, added[i])
  {
    var r := ApplyElements(doc, ts, p);
    if r.Ok? {
      SectionHeaderFields(Current, ts, p);
      var blocks := ElementsSection(ts, p).value.value;
      AppendedPrefix(doc.elementBlocks, blocks);
      forall i | 0 <= i < |blocks|
        ensures ElementBlockAt(ts, p + 4, i, blocks[i])
      {
        ElementBlockAtIndex(ts, p + 4, ts[p].num, i);
      }
    }
  }

  /** get_nodes_per_element knows exactly the element codes: 1..31, 92 and 93. */
  lemma ArityTableDomain(code: int)
    ensures GetNodesPerElement(code).Ok? <==> Enums.IsElementCode(code)
    ensures GetNodesPerElement(code).Ok? ==> GetNodesPerElement(code).value >= 1
    ensures GetNodesPerElement(code).Ok? <==> Enums.FromCode(code).Some? && code != Enums.ElementType.NONE.Code()
  {
    Enums.FromCodeCorrect(code);
  }

  /**
   * The arity is looked up right after the type is read: a block of
   * unknown type fails with that error before its element count is read,
   * whatever follows.
   */
  lemma UnknownTypeFailsFirst(ts: seq<Token>, p: nat)
    requires p + 3 <= |ts| && ts[p].kind == Number && ts[p + 1].kind == Number && ts[p + 2].kind == Number
    requires !Enums.IsElementCode(ts[p + 2].num)
    ensures ElementBlockRecord(ts, p) == Err(UnknownElementType(ts[p + 2].num))
  {
    ArityTableDomain(ts[p + 2].num);
  }

  // ------------------------------------------------------------------ parse

  /** A token other than a Section marker where a section should start stops parse. */
  lemma NotASectionStart(doc: Document, ts: seq<Token>, p: nat)
    requires p < |ts| && ts[p].kind != Section
    ensures ParseFrom(doc, ts, p) == Err(ExpectedSectionStart)
  {
  }

  /** An empty file, whose lexer delivers only the end of the file, fails the same way. */
  lemma EmptyFileFails()
    ensures Parse([EofToken]) == Err(ExpectedSectionStart)
    ensures ExpectedSectionStart.Message() == "Expected start of section marker not found."
  {
  }

  /** A section parse does not know is skipped and leaves the document unchanged. */
  lemma UnknownSectionSkipped(doc: Document, name: string, ts: seq<Token>, p: nat)
    requires !IsParsedSection(name)
    ensures var r := SectionStep(doc, name, ts, p);
            (r.Ok? <==> SkipSection(ts, p).Ok?)
            && (r.Ok? ==> r.value.value == doc && r.value.next == SkipSection(ts, p).value.next)
  {
  }

  /** The document `a` is `b` with possibly more entries at the end of each list. */
  ghost predicate Extends(a: Document, b: Document) {
    b.physicalNames <= a.physicalNames && b.pointEntities <= a.pointEntities
    && b.curveEntities <= a.curveEntities && b.surfaceEntities <= a.surfaceEntities
    && b.volumeEntities <= a.volumeEntities && b.nodes <= a.nodes && b.elementBlocks <= a.elementBlocks
  }

  /** Every section routine appends to the document's lists and never drops an entry. */
  lemma SectionStepAppends(doc: Document, name: string, ts: seq<Token>, p: nat)
    ensures var r := SectionStep(doc, name, ts, p);
            r.Ok? ==> Extends(r.value.value, doc)
  {
  }

  /**
   * parse only appends: whatever the order of the sections, each list of
   * the result starts with the entries the document had before.
   */
  lemma {:induction false} ParseAppends(doc: Document, ts: seq<Token>, p: nat)
    decreases |ts| - p
    ensures ParseFrom(doc, ts, p).Ok? ==> Extends(ParseFrom(doc, ts, p).value, doc)
  {
    if p < |ts| && ts[p].kind == Section {
      var s := SectionStep(doc, ts[p].str, ts, p + 1);
      if s.Ok? {
        SectionStepAppends(doc, ts[p].str, ts, p + 1);
        ParseFromStep(doc, ts, p, s.value);
        if s.value.next < |ts| && ts[s.value.next].kind != EndOfFile {
          ParseAppends(s.value.value, ts, s.value.next);
        }
      }
    }
  }

  /** Somewhere after `p + 1`, an EndOfFile token comes straight after a Section token. */
  ghost predicate EofAfterMarker(ts: seq<Token>, p: nat) {
    exists e :: p + 1 < e < |ts| && ts[e].kind == EndOfFile && ts[e - 1].kind == Section
  }

  lemma EofAfterMarkerAt(ts: seq<Token>, p: nat, e: nat)
    requires p + 1 < e < |ts| && ts[e].kind == EndOfFile && ts[e - 1].kind == Section
    ensures EofAfterMarker(ts, p)
  {
  }

  lemma EofAfterMarkerEarlier(ts: seq<Token>, p: nat, q: nat)
    requires p <= q && EofAfterMarker(ts, q)
    ensures EofAfterMarker(ts, p)
  {
    var e :| q + 1 < e < |ts| && ts[e].kind == EndOfFile && ts[e - 1].kind == Section;
    EofAfterMarkerAt(ts, p, e);
  }

  /**
   * A parse that succeeds starts at a Section marker, and somewhere after
   * that marker's successor an EndOfFile token comes straight after a
   * Section token. It is not always the first such pair: a skipped
   * section passes over an EndOfFile token that follows its opening
   * marker. ParseConsumesStream pins the pair down for a scanned stream.
   */
  lemma {:induction false} ParseEndsAtEof(doc: Document, ts: seq<Token>, p: nat)
    decreases |ts| - p
    ensures ParseFrom(doc, ts, p).Ok? ==> p < |ts| && ts[p].kind == Section && EofAfterMarker(ts, p)
  {
    if p < |ts| && ts[p].kind == Section {
      var s := SectionStep(doc, ts[p].str, ts, p + 1);
      if s.Ok? {
        var e := s.value.next;
        ParseFromStep(doc, ts, p, s.value);
        if e < |ts| && ts[e].kind == EndOfFile {
          EofAfterMarkerAt(ts, p, e);
        } else if e < |ts| {
          ParseEndsAtEof(s.value.value, ts, e);
          if ParseFrom(s.value.value, ts, e).Ok? {
            EofAfterMarkerEarlier(ts, p, e);
          }
        }
      }
    }
  }

  /**
   * For a stream whose only EndOfFile token can be its last one, as a
   * scanner delivers it, a parse that succeeds read the whole stream: it
   * ends in EndOfFile, preceded by the Section marker that closed the last
   * section.
   */
  lemma ParseConsumesStream(ts: seq<Token>)
    requires forall k :: 0 <= k < |ts| - 1 ==> ts[k].kind != EndOfFile
    ensures Parse(ts).Ok? ==> 2 <= |ts| && ts[|ts| - 1].kind == EndOfFile && ts[|ts| - 2].kind == Section
  {
    ParseEndsAtEof(InitialDocument, ts, 0);
    if Parse(ts).Ok? {
      var e :| 1 < e < |ts| && ts[e].kind == EndOfFile && ts[e - 1].kind == Section;
      assert e == |ts| - 1;
    }
  }

  /** A file holding only $MeshFormat 4.1, ASCII: version 4.1, ASCII, nothing else read. */
  lemma HeaderOnlyFile()
    ensures Parse([Token(Section, "$MeshFormat", 1, 0), Token(Number, "4.1", 2, 4),
                   Token(Number, "0", 2, 0), Token(Number, "8", 2, 8),
                   Token(Section, "$EndMeshFormat", 3, 0), EofToken])
            == Ok(InitialDocument.(version := Float("4.1")))
  {
  }

  /** A header whose end marker is missing fails with "$EndMeshFormat tag not found." */
  lemma MissingEndMarker()
    ensures Parse([Token(Section, "$MeshFormat", 1, 0), Token(Number, "4.1", 2, 4),
                   Token(Number, "0", 2, 0), Token(Number, "8", 2, 8),
                   Token(Section, "$PhysicalNames", 3, 0), EofToken])
            == Err(TagNotFound("$EndMeshFormat"))
    ensures TagNotFound("$EndMeshFormat").Message() == "$EndMeshFormat tag not found."
  {
    assert TagNotFound("$EndMeshFormat").Message() == "$EndMeshFormat tag not found.";
  }

  /** Sections come in any order: a file without $MeshFormat parses. */
  lemma MeshFormatNotRequired()
    ensures Parse([Token(Section, "$PhysicalNames", 1, 0), Token(Number, "0", 2, 0),
                   Token(Section, "$EndPhysicalNames", 3, 0), EofToken])
            == Ok(InitialDocument)
  {
    var ts := [Token(Section, "$PhysicalNames", 1, 0), Token(Number, "0", 2, 0),
               Token(Section, "$EndPhysicalNames", 3, 0), EofToken];
    assert PhysicalNamesSection(Current, ts, 1) == Ok(Parsed([], 3));
    assert InitialDocument.(physicalNames := InitialDocument.physicalNames + []) == InitialDocument;
  }
}
