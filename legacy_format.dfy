/**
 * The grammar of the earlier parser (src/gmshparsercppMshFile.cpp), as
 * functions from the token queue and the position of its front to a
 * value and the position after it. It shares the record readers of module
 * MshFormat, read with the legacy Token coercions; it differs in that every
 * section routine first pops its own opening marker, $MeshFormat must come
 * first and reads no blob, entities are consumed but not stored, and
 * $Nodes and $Elements are skipped.
 */
module LegacyFormat {
  import opened Results
  import opened Tokens
  import opened MshFormat

  /** The fields the earlier parser fills in. */
  datatype State = State(version: Float, binary: bool, physicalNames: seq<PhysicalName>)

  /** The state the constructor leaves: version 0, ASCII, no physical names. */
  const InitialState: State := State(ZeroVersion, false, [])

  /** The queue parse builds: ends with the EndOfFile token it appends. */
  ghost predicate EndsWithEof(ts: seq<Token>) {
    ts != [] && ts[|ts| - 1].kind == EndOfFile
  }

  // ------------------------------------------------------------ sections

  /** process_mesh_format_section: marker, version, file type, data size, end marker; no blob. */
  function MeshFormatSection(s: State, ts: seq<Token>, p: nat): (r: Result<Parsed<State>>)
    ensures r.Ok? ==> p < r.value.next && EndsAtMarker(ts, r.value.next)
  {
    var start :- Next(ts, p);
    var version :- ReadFloat(Legacy, ts, start.next);
    var fileType :- ReadInt(Legacy, ts, version.next);
    var dataSize :- Next(ts, fileType.next);
    var end :- EndMarker(ts, dataSize.next, "$EndMeshFormat");
    Ok(Parsed(s.(version := version.value, binary := fileType.value == 1), end.next))
  }

  /** process_physical_names_section: marker, then the shared $PhysicalNames body. */
  function PhysicalNamesSection(s: State, ts: seq<Token>, p: nat): (r: Result<Parsed<State>>)
    ensures r.Ok? ==> p < r.value.next && EndsAtMarker(ts, r.value.next)
  {
    var start :- Next(ts, p);
    var names :- MshFormat.PhysicalNamesSection(Legacy, ts, start.next);
    Ok(Parsed(s.(physicalNames := s.physicalNames + names.value), names.next))
  }

  /** process_entities_section: marker, then the shared $Entities body, whose values are dropped. */
  function EntitiesSection(s: State, ts: seq<Token>, p: nat): (r: Result<Parsed<State>>)
    ensures r.Ok? ==> p < r.value.next && EndsAtMarker(ts, r.value.next)
  {
    var start :- Next(ts, p);
    var e :- MshFormat.EntitiesSection(Legacy, ts, start.next);
    Ok(Parsed(s, e.next))
  }

  /** skip_section: the opening marker, then tokens up to and including the next Section token. */
  function SkipSection(s: State, ts: seq<Token>, p: nat): (r: Result<Parsed<State>>)
    ensures r.Ok? ==> p < r.value.next && EndsAtMarker(ts, r.value.next)
  {
    var start :- Next(ts, p);
    var rest :- MshFormat.SkipSection(ts, start.next);
    Ok(Parsed(s, rest.next))
  }

  /** One entity block of this variant's process_nodes_section: a single coordinate triple. */
  function NodeBlock(ts: seq<Token>, p: nat): (r: Result<Parsed<()>>)
    ensures r.Ok? ==> p < r.value.next
  {
    var dimension :- ReadInt(Legacy, ts, p);
    var tag :- ReadInt(Legacy, ts, dimension.next);
    var parametric :- ReadInt(Legacy, ts, tag.next);
    var nodeTags :- ArrayOfInts(Legacy, ts, parametric.next);
    var pt :- ReadPoint(Legacy, ts, nodeTags.next);
    var pc :- if parametric.value == 1 then ParametricCoords(Legacy, ts, pt.next, dimension.value)
              else Ok(Parsed([], pt.next));
    Ok(Parsed((), pc.next))
  }

  function NodeBlocks(ts: seq<Token>, p: nat, n: int): (r: Result<Parsed<()>>)
    decreases n
    ensures r.Ok? ==> p <= r.value.next
  {
    if n <= 0 then Ok(Parsed((), p))
    else
      var b :- NodeBlock(ts, p);
      NodeBlocks(ts, b.next, n - 1)
  }

  /** The invariant of the block loop of process_nodes_section after `i` rounds, standing at `q`. */
  ghost predicate NodeBlocksLoop(ts: seq<Token>, p0: nat, n: int, q: nat, i: int) {
    NodeBlocks(ts, p0, n) == NodeBlocks(ts, q, n - i)
  }

  /** A round that read from `q` and stopped at `q2` keeps that invariant, or the whole loop fails as it did. */
  lemma NodeBlocksLoopStep(ts: seq<Token>, p0: nat, n: int, q: nat, i: int, r: Result<()>, q2: nat)
    requires i < n && NodeBlocksLoop(ts, p0, n, q, i) && Follows(r, NodeBlock(ts, q), q2)
    ensures r.Ok? ==> NodeBlocksLoop(ts, p0, n, q2, i + 1)
    ensures r.Err? ==> NodeBlocks(ts, p0, n) == Err(r.error)
  {
    assert n - i - 1 == n - (i + 1);
  }

  /** process_nodes_section of this variant (not reached from the section loop). */
  function NodesSection(s: State, ts: seq<Token>, p: nat): (r: Result<Parsed<State>>)
    ensures r.Ok? ==> p < r.value.next && EndsAtMarker(ts, r.value.next)
  {
    var start :- Next(ts, p);
    var numBlocks :- SectionHeader(Legacy, ts, start.next);
    var blocks :- NodeBlocks(ts, numBlocks.next, numBlocks.value);
    var end :- EndMarker(ts, blocks.next, "$EndNodes");
    Ok(Parsed(s, end.next))
  }

  /**
   * One element of this variant: its tag, then the outcome `lookup` of the
   * arity lookup for the block's type (the lookup is pure, so the block
   * passes its outcome down), then the node tags.
   */
  function Element(ts: seq<Token>, p: nat, lookup: Result<nat>): (r: Result<Parsed<()>>)
    ensures r.Ok? ==> p < r.value.next
  {
    var tag :- ReadInt(Legacy, ts, p);
    var arity :- lookup;
    var nodeTags :- ReadInts(Legacy, ts, tag.next, arity);
    Ok(Parsed((), nodeTags.next))
  }

  function Elements(ts: seq<Token>, p: nat, lookup: Result<nat>, n: int): (r: Result<Parsed<()>>)
    decreases n
    ensures r.Ok? ==> p <= r.value.next
  {
    if n <= 0 then Ok(Parsed((), p))
    else
      var e :- Element(ts, p, lookup);
      Elements(ts, e.next, lookup, n - 1)
  }

  /** The invariant of the per-element loop after `j` rounds, standing at `q`. */
  ghost predicate ElementsLoop(ts: seq<Token>, lookup: Result<nat>, p0: nat, n: int, q: nat, j: int) {
    Elements(ts, p0, lookup, n) == Elements(ts, q, lookup, n - j)
  }

  /** A round that read from `q` and stopped at `q2` keeps that invariant, or the whole loop fails as it did. */
  lemma ElementsLoopStep(ts: seq<Token>, lookup: Result<nat>, p0: nat, n: int, q: nat, j: int, r: Result<()>, q2: nat)
    requires j < n && ElementsLoop(ts, lookup, p0, n, q, j) && Follows(r, Element(ts, q, lookup), q2)
    ensures r.Ok? ==> ElementsLoop(ts, lookup, p0, n, q2, j + 1)
    ensures r.Err? ==> Elements(ts, p0, lookup, n) == Err(r.error)
  {
    assert n - j - 1 == n - (j + 1);
  }

  function ElementBlock(ts: seq<Token>, p: nat): (r: Result<Parsed<()>>)
    ensures r.Ok? ==> p < r.value.next
  {
    var dimension :- ReadInt(Legacy, ts, p);
    var tag :- ReadInt(Legacy, ts, dimension.next);
    var elementType :- ReadInt(Legacy, ts, tag.next);
    var count :- ReadInt(Legacy, ts, elementType.next);
    var elements :- Elements(ts, count.next, GetNodesPerElement(elementType.value), count.value);
    Ok(Parsed((), elements.next))
  }

  function ElementBlocks(ts: seq<Token>, p: nat, n: int): (r: Result<Parsed<()>>)
    decreases n
    ensures r.Ok? ==> p <= r.value.next
  {
    if n <= 0 then Ok(Parsed((), p))
    else
      var b :- ElementBlock(ts, p);
      ElementBlocks(ts, b.next, n - 1)
  }

  /** The invariant of the block loop of process_elements_section after `i` rounds, standing at `q`. */
  ghost predicate ElementBlocksLoop(ts: seq<Token>, p0: nat, n: int, q: nat, i: int) {
    ElementBlocks(ts, p0, n) == ElementBlocks(ts, q, n - i)
  }

  /** A round that read from `q` and stopped at `q2` keeps that invariant, or the whole loop fails as it did. */
  lemma ElementBlocksLoopStep(ts: seq<Token>, p0: nat, n: int, q: nat, i: int, r: Result<()>, q2: nat)
    requires i < n && ElementBlocksLoop(ts, p0, n, q, i) && Follows(r, ElementBlock(ts, q), q2)
    ensures r.Ok? ==> ElementBlocksLoop(ts, p0, n, q2, i + 1)
    ensures r.Err? ==> ElementBlocks(ts, p0, n) == Err(r.error)
  {
    assert n - i - 1 == n - (i + 1);
  }

  /** process_elements_section of this variant (not reached from the section loop). */
  function ElementsSection(s: State, ts: seq<Token>, p: nat): (r: Result<Parsed<State>>)
    ensures r.Ok? ==> p < r.value.next && EndsAtMarker(ts, r.value.next)
  {
    var start :- Next(ts, p);
    var numBlocks :- SectionHeader(Legacy, ts, start.next);
    var blocks :- ElementBlocks(ts, numBlocks.next, numBlocks.value);
    var end :- EndMarker(ts, blocks.next, "$EndElements");
    Ok(Parsed(s, end.next))
  }

  /**
   * The dispatch of process_optional_sections on the marker at position
   * `p`: $PhysicalNames and $Entities are parsed, every other name,
   * $Nodes and $Elements included, is skipped.
   */
  function OptionalSection(s: State, name: string, ts: seq<Token>, p: nat): (r: Result<Parsed<State>>)
    ensures r.Ok? ==> p < r.value.next && EndsAtMarker(ts, r.value.next)
  {
    if name == "$PhysicalNames" then PhysicalNamesSection(s, ts, p)
    else if name == "$Entities" then EntitiesSection(s, ts, p)
    else SkipSection(s, ts, p)
  }

  /** A read that ended at a marker has not taken the final EndOfFile token. */
  lemma MarkerKeepsEof(ts: seq<Token>, next: nat)
    requires EndsWithEof(ts) && EndsAtMarker(ts, next)
    ensures next < |ts|
  {
  }

  /** process_optional_sections: sections until the token at the front is EndOfFile. */
  function OptionalSections(s: State, ts: seq<Token>, p: nat): (r: Result<State>)
    requires EndsWithEof(ts) && p < |ts|
    decreases |ts| - p
  {
    if ts[p].kind == EndOfFile then Ok(s)
    else if ts[p].kind != Section then Err(ExpectedSectionMarker)
    else
      var step :- OptionalSection(s, ts[p].str, ts, p);
      MarkerKeepsEof(ts, step.next);
      OptionalSections(step.value, ts, step.next)
  }

  /** process_tokens: $MeshFormat first, then the optional sections. */
  function ProcessTokens(s: State, ts: seq<Token>, p: nat): (r: Result<State>)
    requires EndsWithEof(ts) && p < |ts|
  {
    if ts[p].kind != Section then Err(ExpectedSectionStart)
    else if ts[p].str != "$MeshFormat" then Err(ExpectedMeshFormat)
    else
      var m :- MeshFormatSection(s, ts, p);
      MarkerKeepsEof(ts, m.next);
      OptionalSections(m.value, ts, m.next)
  }

  /**
   * The position of the first token at or after `i` that yylex reports as the
   * end of input (a token of kind EndOfFile), or the length of the file when
   * there is none.
   */
  function ScanEnd(file: seq<Token>, i: nat): (e: nat)
    requires i <= |file|
    ensures i <= e <= |file|
    ensures e < |file| ==> file[e].kind == EndOfFile
    decreases |file| - i
  {
    if i == |file| || file[i].kind == EndOfFile then i else ScanEnd(file, i + 1)
  }

  /** The tokens yylex returns before it reports the end of input. */
  function Scanned(file: seq<Token>): seq<Token> {
    file[..ScanEnd(file, 0)]
  }

}
