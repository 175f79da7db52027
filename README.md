# gmshparsercpp MSH section parser, modelled in Dafny

gmshparsercpp reads Gmsh MSH files. A lexer turns the file into tokens:
numbers, quoted strings, `$Section` markers, and the end of the file. The
parser then walks the sections and fills in the file's fields:

- the version, the ASCII/binary flag and the endianness word;
- the physical names;
- the point, curve, surface and volume entities;
- the node blocks and the element blocks.

The repository holds two parsers, and both are modelled here.

- **The current parser.** `MshFile` in `src/MshFile.cpp`, reading from
  `MshLexer` (`include/gmshparsercpp/MshLexer.h`) one token at a time with
  one token of lookahead. Sections may come in any order. Each section
  routine starts after its opening marker.
- **The earlier parser.** `MshFile` in `src/gmshparsercppMshFile.cpp` and
  `include/gmshparsercppMshFile.h`. `parse` first queues every token of
  the file and one `EndOfFile` token in a `std::deque`. `$MeshFormat`
  must come first and reads no binary blob. Every section routine pops
  its own opening marker. `$Entities` is consumed but nothing is stored,
  and `$Nodes` and `$Elements` are skipped.

The `ElementType` enumeration and its two formatters
(`include/gmshparsercpp/Enums.h`) are modelled too.

## How the model is built

- **The grammar as functions.** Module `MshFormat` describes the file
  format. Each routine is a function of the token sequence `ts` and a
  position `p`, and returns the value read and the position after it, or
  the error the C++ code throws (`Results.Error`; `Message()` gives the
  exception text). The record readers take a `Dialect` argument, so one
  definition serves both parsers and only the coercion errors differ.
- **The classes as imperative code.** `MshFile.MshFile` and
  `LegacyMshFile.MshFile` are classes with the C++ fields. Their methods
  have the C++ loops, with loop invariants.
- **Methods proved against the functions.** Every method is proved to
  return what the matching function returns on the tokens not yet
  consumed, and to leave the fields as that function says (`Follows`,
  `Steps`). So every lemma proved about the functions
  (modules `MshProperties` and `LegacyProperties`) holds of the class.
- **The current lexer.** `MshLexer.Lexer` holds the token stream its
  `read_token` produces and the lookahead cache `have_token`/`curr`.
- **The earlier parser's queue.** Class `TokenQueues.TokenQueue` is the
  deque. It records every token pushed and how many were popped.

## Model

| member | source | states |
|---|---|---|
| Tokens.KindOfCode | src/gmshparsercppMshFile.cpp:49 | the cast of a scanner code 0..3 to a token kind gives the kind with that EType code |
| MshLexer.CoercionKinds | include/gmshparsercpp/MshLexer.h:19-44 | as_int and as_float accept exactly Number tokens and as_string exactly String tokens, yielding the value, else "Token is not a number" / "Token is not a string" |
| MshLexer.Lexer.constructor | include/gmshparsercpp/MshLexer.h:47 | a new lexer is at the start of its stream with an empty cache |
| MshLexer.Lexer.ReadToken | include/gmshparsercpp/MshLexer.h:66-67 | produces the next token of the stream and advances by one; at the end it fails and does not move |
| MshLexer.Lexer.Peek | include/gmshparsercpp/MshLexer.h:49-50 | returns the next undelivered token and caches it, without changing how many tokens read() has delivered |
| MshLexer.Lexer.Read | include/gmshparsercpp/MshLexer.h:52-53 | delivers the next token, whether cached or not, advances the delivered count by one, and empties the cache |
| MshLexer.Lexer.ReadBlob | include/gmshparsercpp/MshLexer.h:55-63 | takes the raw word that follows, bypassing the cache; at the end of the stream it takes nothing |
| MshLexer.PeekPeekRead | include/gmshparsercpp/MshLexer.h:49-53 | two peeks and a read return the same token, and only the read consumes it |
| Enums.CodesDistinct | include/gmshparsercpp/Enums.h:18-53 | each enumerator's value decodes back to it, so values are distinct; NONE is -1 and the others are element codes |
| Enums.FromCodeCorrect | include/gmshparsercpp/Enums.h:18-53 | an integer is an enumerator value exactly when it is -1, 1..31, 92 or 93 |
| Enums.FmtNamesAreIdentifiers | include/gmshparsercpp/Enums.h:59-146 | the fmt formatter names each enumerator by its identifier, except LINE4, which falls to "Unknown" |
| Enums.StdNamesAreIdentifiers | include/gmshparsercpp/Enums.h:150-236 | the std formatter names each enumerator by its identifier, except LINE4, which falls to "Unknown" |
| Enums.UnknownNames | include/gmshparsercpp/Enums.h:142-143 | a value gets "Unknown" exactly when it is no enumerator or is LINE4; no enumerator's identifier is "Unknown" |
| Enums.FormattersAgree | include/gmshparsercpp/Enums.h:59-236 | the fmt and std formatters give every value the same name |
| MshFormat.GetNodesPerElement | src/MshFile.cpp:334-376 | the node count for each element type; any other code fails with "Unknown element type '<code>'" |
| MshFormat.ReadInts | src/MshFile.cpp:318-321 | n integers take exactly max(n, 0) tokens and yield that many values |
| MshFormat.ArrayOfInts | src/MshFile.cpp:313-323 | one count token, then as many integers as the array holds |
| MshFormat.EndMarker | src/MshFile.cpp:148-154 | on success it takes one token, and that token is a Section marker |
| MshFormat.SkipSection | src/MshFile.cpp:325-332 | on success it takes at least one token, and the last one taken is a Section marker |
| MshFormat.MeshFormatSection | src/MshFile.cpp:156-165 | on success the section ends just after a Section marker, within the stream |
| MshFormat.Blob | include/gmshparsercpp/MshLexer.h:55-63 | read_blob takes at most one word |
| MshFormat.PhysicalNameList | src/MshFile.cpp:171-177 | n names take exactly 3·max(n, 0) tokens and yield max(n, 0) names |
| MshFormat.NodeCoords | src/MshFile.cpp:260-276 | k nodes yield k points, and k parametric points when the block is parametric, none otherwise |
| MshFormat.ElementRecord | src/MshFile.cpp:299-305 | an element read with arity a has max(a, 0) node tags |
| MshFormat.SectionStep | src/MshFile.cpp:94-125 | every section routine, when it succeeds, ends just after a Section marker |
| MshFile.MshFile.constructor | src/MshFile.cpp:7-18 | the opened file has version 0, ASCII, endianness 0, every list empty, and nothing read |
| MshFile.MshFile.GetVersion | src/MshFile.cpp:25-29 | returns the version field |
| MshFile.MshFile.IsAscii | src/MshFile.cpp:31-35 | true exactly when the binary flag is not set |
| MshFile.MshFile.Read | include/gmshparsercpp/MshLexer.h:52-53 | takes the next token of the stream, as Next does |
| MshFile.MshFile.Peek | src/MshFile.cpp:82-90 | the next token, or the end of the stream; nothing is consumed |
| MshFile.MshFile.ReadInt | include/gmshparsercpp/MshLexer.h:19-26 | read().as_int(): one token, which must be a Number |
| MshFile.MshFile.ReadFloat | include/gmshparsercpp/MshLexer.h:28-35 | read().as_float(): one token, which must be a Number |
| MshFile.MshFile.ReadString | include/gmshparsercpp/MshLexer.h:37-44 | read().as_string(): one token, which must be a String |
| MshFile.MshFile.ReadEndSectionMarker | src/MshFile.cpp:148-154 | reads one token and fails with "<name> tag not found." unless it is the Section marker named |
| MshFile.MshFile.ProcessArrayOfInts | src/MshFile.cpp:313-323 | returns what ArrayOfInts reads from the current position, and stops where it stops |
| MshFile.MshFile.ReadInts | src/MshFile.cpp:318-321 | the counted loop returns what ReadInts reads, and stops where it stops |
| MshFile.MshFile.SkipSection | src/MshFile.cpp:325-332 | the do-while takes what SkipSection takes |
| MshFile.MshFile.ReadBlob | src/MshFile.cpp:162-163 | reads the endianness word as Blob does |
| MshFile.MshFile.ProcessMeshFormatSection | src/MshFile.cpp:156-165 | sets version, binary and endianness as MeshFormatSection computes, and leaves the rest alone |
| MshFile.MshFile.ReadPhysicalName | src/MshFile.cpp:172-175 | reads one (dimension, tag, name) record |
| MshFile.MshFile.ReadPhysicalNames | src/MshFile.cpp:171-177 | the counted loop reads the names PhysicalNameList reads |
| MshFile.MshFile.ProcessPhysicalNamesSection | src/MshFile.cpp:167-180 | appends the section's names to physical_names |
| MshFile.MshFile.ReadPointEntity | src/MshFile.cpp:191-197 | reads a tag, three coordinates and the physical tags |
| MshFile.MshFile.ReadMultiDEntity | src/MshFile.cpp:201-211 | reads a tag, a bounding box, the physical tags and the bounding tags |
| MshFile.MshFile.ReadPointEntities | src/MshFile.cpp:190-198 | the counted loop reads the point entities PointEntityList reads |
| MshFile.MshFile.ReadMultiDEntities | src/MshFile.cpp:200-212 | the counted loop reads the curve, surface or volume entities MultiDEntityList reads |
| MshFile.MshFile.ReadEntityCounts | src/MshFile.cpp:185-188 | reads the four entity counts |
| MshFile.MshFile.ReadEntityLists | src/MshFile.cpp:190-240 | reads the four entity lists in their order: points, curves, surfaces, volumes |
| MshFile.MshFile.ProcessEntitiesSection | src/MshFile.cpp:182-243 | appends the four lists to the entity fields and ends at $EndEntities |
| MshFile.MshFile.ReadParametricCoords | src/MshFile.cpp:266-275 | reads u, v, w only as the dimension allows |
| MshFile.MshFile.ReadPoint | src/MshFile.cpp:261-265 | reads x, y, z |
| MshFile.MshFile.ReadNodeCoordinates | src/MshFile.cpp:260-276 | the per-tag loop reads a point per node tag, and parametric values when the block is parametric |
| MshFile.MshFile.ReadNodeBlock | src/MshFile.cpp:254-277 | reads dimension, entity tag and parametric flag, then the tags, then the coordinates |
| MshFile.MshFile.ReadSectionHeader | src/MshFile.cpp:248-251 | reads the block count and three unused header integers |
| MshFile.MshFile.ReadNodeBlocks | src/MshFile.cpp:253-278 | the counted loop reads the node blocks NodeBlockList reads |
| MshFile.MshFile.ProcessNodesSection | src/MshFile.cpp:245-281 | appends the node blocks to nodes and ends at $EndNodes |
| MshFile.MshFile.ReadElement | src/MshFile.cpp:299-305 | reads an element tag and the number of node tags its type has |
| MshFile.MshFile.ReadElements | src/MshFile.cpp:298-306 | the counted loop reads the elements ElementList reads |
| MshFile.MshFile.ReadElementBlock | src/MshFile.cpp:292-307 | reads dimension, tag and type, looks up the arity before reading the count, then reads the elements |
| MshFile.MshFile.ReadElementBlocks | src/MshFile.cpp:291-308 | the counted loop reads the element blocks ElementBlockList reads |
| MshFile.MshFile.ProcessElementsSection | src/MshFile.cpp:283-311 | appends the blocks to element_blocks and ends at $EndElements |
| MshFile.MshFile.ProcessSection | src/MshFile.cpp:94-125 | dispatches on the marker's text: five named sections are parsed, every other name is skipped |
| MshFile.MshFile.Parse | src/MshFile.cpp:79-92 | the do-while leaves the document ParseFrom computes, or fails with its error |
| MshFile.ParseFile | src/MshFile.cpp:79-92 | constructing the object and calling parse gives exactly the document Parse computes from the stream |
| MshProperties.IntOfNumber | include/gmshparsercpp/MshLexer.h:19-26 | both parsers' integer coercions accept exactly the Number tokens, yielding their value |
| MshProperties.ReadIntsValues | src/MshFile.cpp:318-321 | reading n integers succeeds exactly when the next max(n,0) tokens are Numbers; the values are theirs, in order |
| MshProperties.ArrayOfIntsValues | src/MshFile.cpp:313-323 | an array is a Number count followed by that many integers; the values are those tokens', in order |
| MshProperties.EndMarkerExact | src/MshFile.cpp:148-154 | the end marker succeeds exactly when the next token is the Section marker named; otherwise "<name> tag not found.", or the end of the file |
| MshProperties.SkipSectionStopsAtMarker | src/MshFile.cpp:325-332 | skip_section stops right after the first Section token, whatever its name, and fails only when there is none |
| MshProperties.MeshFormatFields | src/MshFile.cpp:156-165 | succeeds exactly when two Numbers, a data-size token of any kind, the endianness word when binary, and $EndMeshFormat follow; version from the first token; binary exactly when the file type is 1; only then is the endianness read |
| MshProperties.DataSizeUnchecked | src/MshFile.cpp:161 | the data-size token is read but never checked: any token there gives the same result |
| MshProperties.PhysicalNamesInOrder | src/MshFile.cpp:171-177 | the i-th name is the record read at position p + 3i |
| MshProperties.PhysicalNamesAppended | src/MshFile.cpp:167-180 | physical_names grows by exactly max(count, 0) names, the triples after the count in read order, followed by $EndPhysicalNames; nothing else changes |
| MshProperties.EntityCountsFields | src/MshFile.cpp:184-187 | the four counts are four Number tokens, in the order points, curves, surfaces, volumes |
| MshProperties.PointEntityFields | src/MshFile.cpp:192-196 | a point entity reads exactly when four Numbers and a counted tag list follow; tag, x, y and z are those tokens, the physical tags that list |
| MshProperties.BoundingBoxFields | src/MshFile.cpp:203-208 | a bounding box is six Number tokens: min x, y, z, then max x, y, z |
| MshProperties.MultiDEntityFields | src/MshFile.cpp:202-210 | a curve, surface or volume reads exactly when seven Numbers and two counted lists follow; tag and box from those tokens, then the physical tags, then the bounding tags |
| MshProperties.EntityListsCounts | src/MshFile.cpp:184-240 | each of the four lists holds exactly max(count, 0) entities for its own count |
| MshProperties.PointsInOrder | src/MshFile.cpp:190-198 | the i-th point entity of a list is the record read after the first i, so the points are pushed back in the order read |
| MshProperties.MultiDInOrder | src/MshFile.cpp:200-212 | the i-th curve, surface or volume entity of a list is the record read after the first i |
| MshProperties.EntityListsInOrder | src/MshFile.cpp:184-240 | the four lists are read one after another from p + 4, each list's entities the records read in order |
| MshProperties.EntitiesAppended | src/MshFile.cpp:182-243 | each of the four entity lists keeps what it held and grows by exactly its declared count; the i-th appended point, curve, surface or volume is the record read after the first i of its list, the lists read one after another from p + 4; nothing else changes |
| MshProperties.SectionHeaderFields | src/MshFile.cpp:248-251 | the $Nodes and $Elements header reads exactly when four Numbers follow; its value is the first, the block count |
| MshProperties.HeaderTotalsUnchecked | src/MshFile.cpp:286-289 | the total and the minimum and maximum tags of the $Nodes and $Elements headers are never checked: other values there give the same section or the same error |
| MshProperties.NodeCoordsShape | src/MshFile.cpp:266-275 | every parametric point has one, two or three values by the dimension (none below 1) |
| MshProperties.NodeBlockShape | src/MshFile.cpp:253-278 | a block has one point per tag, a parametric point per tag exactly when its flag read 1, and none otherwise |
| MshProperties.NodesAppended | src/MshFile.cpp:246-281 | nodes keeps what it held and grows by exactly the declared block count; the i-th appended block is the one read after the first i blocks from p + 4; nothing else changes |
| MshProperties.ElementListArity | src/MshFile.cpp:298-306 | every element in a list has the arity's number of node tags |
| MshProperties.ElementBlockShape | src/MshFile.cpp:292-307 | a block's type is known, it holds the declared count of elements, and each has get_nodes_per_element(type) node tags |
| MshProperties.ElementsAppended | src/MshFile.cpp:284-311 | element_blocks keeps what it held and grows by exactly the declared block count; the i-th appended block is the one read after the first i blocks from p + 4; nothing else changes |
| MshProperties.ArityTableDomain | src/MshFile.cpp:334-376 | get_nodes_per_element succeeds exactly on the ElementType values other than NONE, and always gives at least 1 |
| MshProperties.UnknownTypeFailsFirst | src/MshFile.cpp:295-297 | a block of unknown type fails before its element count is read, whatever follows |
| MshProperties.NotASectionStart | src/MshFile.cpp:84-89 | a token that is not a Section marker where a section should start gives "Expected start of section marker not found." |
| MshProperties.EmptyFileFails | test/MshFile_test.cpp:9-19 | an empty file fails with "Expected start of section marker not found." |
| MshProperties.UnknownSectionSkipped | src/MshFile.cpp:103-124 | a section name parse does not know is skipped and leaves the document unchanged |
| MshProperties.SectionStepAppends | src/MshFile.cpp:94-125 | each section routine only appends to the document's lists |
| MshProperties.ParseAppends | src/MshFile.cpp:79-92 | whatever the order of the sections, parse only appends to each list |
| MshProperties.ParseEndsAtEof | src/MshFile.cpp:79-92 | a parse that succeeds began at a Section marker at `p`, and some EndOfFile token directly after a Section token follows `p + 1` (not necessarily the first such pair: a skipped section passes over one) |
| MshProperties.ParseConsumesStream | src/MshFile.cpp:79-92 | on a stream whose only EndOfFile token can be the last, a parse that succeeds consumed the whole stream: it ends in EndOfFile right after the Section marker that closed the last section |
| MshProperties.HeaderOnlyFile | test/MshFile_test.cpp:21-28 | a file with only an ASCII 4.1 header parses to version 4.1, ASCII |
| MshProperties.MissingEndMarker | test/MshFile_test.cpp:38-48 | a header without its end marker fails with "$EndMeshFormat tag not found." |
| MshProperties.MeshFormatNotRequired | src/MshFile.cpp:79-125 | a file without $MeshFormat parses: sections may come in any order |
| TokenQueues.TokenQueue.constructor | include/gmshparsercppMshFile.h:110-111 | the queue starts empty |
| TokenQueues.TokenQueue.NonEmpty | src/gmshparsercppMshFile.cpp:122 | size() > 0 exactly when some pushed token has not been popped |
| TokenQueues.TokenQueue.Front | src/gmshparsercppMshFile.cpp:116 | front() is the first token not yet popped |
| TokenQueues.TokenQueue.PushBack | src/gmshparsercppMshFile.cpp:51-53 | push_back adds the token at the end and pops nothing |
| TokenQueues.TokenQueue.PopFront | src/gmshparsercppMshFile.cpp:123-124 | pop_front removes and returns the first token not yet popped |
| LegacyToken.CoercionKinds | include/gmshparsercppMshFile.h:24-49 | as_int and as_float accept exactly Number tokens and as_string exactly String tokens, else "Token is not an integer" / "a float" / "a string" |
| LegacyToken.MarkersNeverCoerce | include/gmshparsercppMshFile.h:24-49 | Section and EndOfFile tokens coerce to nothing; as_int and as_float accept the same tokens |
| LegacyToken.AgreesWithLexerToken | include/gmshparsercppMshFile.h:14-50 | both Token structs accept the same token kinds and differ in their error messages; float and string values agree; integer values agree only in the model (see "## Left out") |
| LegacyFormat.MeshFormatSection | src/gmshparsercppMshFile.cpp:139-151 | on success the section ends just after a Section marker |
| LegacyFormat.PhysicalNamesSection | src/gmshparsercppMshFile.cpp:153-168 | on success the section ends just after a Section marker |
| LegacyFormat.EntitiesSection | src/gmshparsercppMshFile.cpp:170-225 | on success the section ends just after a Section marker |
| LegacyFormat.SkipSection | src/gmshparsercppMshFile.cpp:298-306 | on success it takes the opening marker and more, ending just after a Section marker |
| LegacyFormat.NodesSection | src/gmshparsercppMshFile.cpp:227-257 | on success the section ends just after a Section marker |
| LegacyFormat.ElementsSection | src/gmshparsercppMshFile.cpp:259-284 | on success the section ends just after a Section marker |
| LegacyFormat.OptionalSection | src/gmshparsercppMshFile.cpp:79-105 | every optional section, when it succeeds, ends just after a Section marker |
| LegacyFormat.ScanEnd | src/gmshparsercppMshFile.cpp:48-52 | the scan stops at the first EndOfFile token, or at the end of the file |
| LegacyMshFile.MshFile.constructor | src/gmshparsercppMshFile.cpp:15-24 | the opened file has version 0, ASCII, no names, and an empty queue |
| LegacyMshFile.MshFile.GetVersion | src/gmshparsercppMshFile.cpp:31-35 | returns the version field |
| LegacyMshFile.MshFile.IsAscii | src/gmshparsercppMshFile.cpp:37-41 | true exactly when the binary flag is not set |
| LegacyMshFile.MshFile.Peek | src/gmshparsercppMshFile.cpp:113-117 | the front of the queue, which stays queued |
| LegacyMshFile.MshFile.Read | src/gmshparsercppMshFile.cpp:119-129 | pops the front of the queue; an empty queue gives "Unexpected end of file." |
| LegacyMshFile.MshFile.ReadInt | include/gmshparsercppMshFile.h:24-31 | read().as_int(): one token, which must be a Number |
| LegacyMshFile.MshFile.ReadFloat | include/gmshparsercppMshFile.h:33-40 | read().as_float(): one token, which must be a Number |
| LegacyMshFile.MshFile.ReadString | include/gmshparsercppMshFile.h:42-49 | read().as_string(): one token, which must be a String |
| LegacyMshFile.MshFile.ReadEndSectionMarker | src/gmshparsercppMshFile.cpp:131-137 | reads one token and fails with "<name> tag not found." unless it is the Section marker named |
| LegacyMshFile.MshFile.ProcessArrayOfInts | src/gmshparsercppMshFile.cpp:286-296 | returns what ArrayOfInts reads with this parser's coercions |
| LegacyMshFile.MshFile.ReadInts | src/gmshparsercppMshFile.cpp:291-294 | the counted loop returns what ReadInts reads |
| LegacyMshFile.MshFile.ProcessMeshFormatSection | src/gmshparsercppMshFile.cpp:139-151 | pops the marker, then sets version and binary as LegacyFormat.MeshFormatSection computes; no blob is read |
| LegacyMshFile.MshFile.ReadPhysicalName | src/gmshparsercppMshFile.cpp:160-163 | reads one (dimension, tag, name) record |
| LegacyMshFile.MshFile.ReadPhysicalNames | src/gmshparsercppMshFile.cpp:159-165 | the counted loop reads the names PhysicalNameList reads |
| LegacyMshFile.MshFile.ProcessPhysicalNamesSection | src/gmshparsercppMshFile.cpp:153-168 | pops the marker and appends the section's names to physical_names |
| LegacyMshFile.MshFile.ReadPointEntity | src/gmshparsercppMshFile.cpp:181-185 | reads a tag, three coordinates and the physical tags |
| LegacyMshFile.MshFile.ReadPointEntities | src/gmshparsercppMshFile.cpp:180-186 | the counted loop reads what PointEntityList reads |
| LegacyMshFile.MshFile.ReadBoundingBox | src/gmshparsercppMshFile.cpp:190-195 | reads the six bounding-box coordinates |
| LegacyMshFile.MshFile.ReadMultiDEntity | src/gmshparsercppMshFile.cpp:189-197 | reads a tag, a bounding box, the physical tags and the bounding tags |
| LegacyMshFile.MshFile.ReadMultiDEntities | src/gmshparsercppMshFile.cpp:188-198 | the counted loop reads what MultiDEntityList reads |
| LegacyMshFile.MshFile.ReadEntityCounts | src/gmshparsercppMshFile.cpp:175-178 | reads the four entity counts |
| LegacyMshFile.MshFile.ReadEntityLists | src/gmshparsercppMshFile.cpp:180-222 | reads the four entity lists in order |
| LegacyMshFile.MshFile.ProcessEntitiesSection | src/gmshparsercppMshFile.cpp:170-225 | pops the marker, consumes the section, stores nothing and ends at $EndEntities |
| LegacyMshFile.MshFile.ReadNodeBlock | src/gmshparsercppMshFile.cpp:238-253 | reads the block header and tags, then a single coordinate triple and its parametric values |
| LegacyMshFile.MshFile.ReadSectionHeader | src/gmshparsercppMshFile.cpp:232-235 | reads the block count and three unused header integers |
| LegacyMshFile.MshFile.ReadNodeBlocks | src/gmshparsercppMshFile.cpp:237-254 | the counted loop reads what LegacyFormat.NodeBlocks reads |
| LegacyMshFile.MshFile.ProcessNodesSection | src/gmshparsercppMshFile.cpp:227-257 | pops the marker, reads the blocks and ends at $EndNodes |
| LegacyMshFile.MshFile.ReadElement | src/gmshparsercppMshFile.cpp:275-279 | reads an element tag, then fails if the type is unknown, else reads its node tags |
| LegacyMshFile.MshFile.ReadElements | src/gmshparsercppMshFile.cpp:274-280 | the counted loop reads what LegacyFormat.Elements reads |
| LegacyMshFile.MshFile.ReadElementBlock | src/gmshparsercppMshFile.cpp:270-280 | reads dimension, tag, type and count, then the elements |
| LegacyMshFile.MshFile.ReadElementBlocks | src/gmshparsercppMshFile.cpp:269-281 | the counted loop reads what LegacyFormat.ElementBlocks reads |
| LegacyMshFile.MshFile.ProcessElementsSection | src/gmshparsercppMshFile.cpp:259-284 | pops the marker, reads the blocks and ends at $EndElements |
| LegacyMshFile.MshFile.SkipSection | src/gmshparsercppMshFile.cpp:298-306 | pops the marker, then tokens up to and including the next Section token |
| LegacyMshFile.MshFile.ProcessOptionalSections | src/gmshparsercppMshFile.cpp:74-111 | the while loop leaves the state OptionalSections computes, or fails with its error |
| LegacyMshFile.MshFile.ProcessTokens | src/gmshparsercppMshFile.cpp:58-72 | leaves the state ProcessTokens computes, or fails with its error |
| LegacyMshFile.MshFile.Enqueue | src/gmshparsercppMshFile.cpp:46-53 | the queue ends up holding the scanned tokens, then one EndOfFile token |
| LegacyMshFile.MshFile.Parse | src/gmshparsercppMshFile.cpp:43-56 | queues the file, then leaves the state ProcessTokens computes from the queue, or fails with its error |
| LegacyProperties.ScanEndFirst | src/gmshparsercppMshFile.cpp:48-52 | no token the scanner delivers is an EndOfFile token |
| LegacyProperties.ScannedFacts | src/gmshparsercppMshFile.cpp:46-53 | the queue is a prefix of the file with no EndOfFile token, then exactly one EndOfFile token, at its end |
| LegacyProperties.MeshFormatFirst | src/gmshparsercppMshFile.cpp:58-72 | a first token that is no marker gives "Expected start of section marker not found."; any marker but $MeshFormat gives "Expected $MeshFormat section marker not found."; the result's version and binary flag are the ones $MeshFormat set |
| LegacyProperties.MeshFormatFields | src/gmshparsercppMshFile.cpp:139-151 | whatever marker it pops, the section takes exactly five tokens, reads no blob and sets binary exactly when the file type is 1 |
| LegacyProperties.OptionalSectionKeeps | src/gmshparsercppMshFile.cpp:79-105 | no optional section touches version or binary; only $PhysicalNames changes the state, by appending |
| LegacyProperties.OthersSkipped | src/gmshparsercppMshFile.cpp:84-105 | $Nodes, $Elements and every name but $PhysicalNames and $Entities skip to just past the next Section token, whatever lies between, and leave the state unchanged |
| LegacyProperties.OptionalSectionsKeep | src/gmshparsercppMshFile.cpp:74-111 | the optional sections keep version and binary; the physical names held before stay a prefix of the names after |
| LegacyProperties.StrayTokenRejected | src/gmshparsercppMshFile.cpp:108-109 | a token that is no marker between sections gives "Expected section marker not found." |
| LegacyProperties.UnknownTypeEmptyBlock | src/gmshparsercppMshFile.cpp:272-279 | an element block of unknown type with no elements is accepted here, where the current parser rejects it |
| LegacyProperties.HeaderOnlyFile | src/gmshparsercppMshFile.cpp:58-72 | a file with only an ASCII 4.1 header gives version 4.1, ASCII, no names |
| LegacyProperties.BinaryHeaderWithoutBlob | src/gmshparsercppMshFile.cpp:146-150 | a binary header needs no blob: the end marker follows the data size |
| LegacyProperties.PhysicalNamesFirstRejected | src/gmshparsercppMshFile.cpp:62-68 | a file that starts with $PhysicalNames is rejected with "Expected $MeshFormat section marker not found." |

## Left out

- Opening and closing the file (the constructors' "Unable to open file" error, `close`, the destructors). A constructor here takes the file's tokens.
- Character-level lexing. `MshLexer::read_token`, `peek_char` and `read_char` are in a source file that is not part of this model. The earlier parser's flex scanner `yylex` is not part of it either. Both are given as the token sequence they produce.
- The numeric conversions `std::stoi` and `std::stod`. A token carries the integer its text denotes (`num`), and a double is kept as its text (`Tokens.Float`).
- LegacyToken.AgreesWithLexerToken: its integer values agree only in the model, where both `AsInt`s return the token's modelled `num`. The source converts differently: `std::stoi` in include/gmshparsercpp/MshLexer.h:23, and `std::stod` truncated to `int` in include/gmshparsercppMshFile.h:28. On a text such as "1e3" the first gives 1 and the second 1000.
- The earlier `as_int` truncates a `double` to an `int`. That truncation, the 32-bit range of `int`, and overflow of the counts are not modelled: integers are unbounded.
- `read_blob<int>` takes raw bytes from the character stream. It is modelled as taking the word the stream holds at that point. Byte order and the `sizeof(int)` bytes are not modelled.
- On an error the C++ objects keep whatever fields were already filled in. The model says only which error is raised, not what partial state is left.
- The current parser's `process_tokens` and `process_optional_sections` (src/MshFile.cpp:127-146) are never called by `parse`, and the second has an empty body. They are not modelled.
- LegacyFormat.NodesSection, LegacyFormat.ElementsSection and their class methods: the earlier `$Nodes` and `$Elements` routines are never reached, because `process_optional_sections` skips both sections. They are modelled as written but are not what that parser does with those sections. As written, the nodes routine reads a single coordinate triple per block.
- LegacyFormat.Element: the element type's arity is looked up once per element, after the element tag. The lookup is pure, so the model passes its outcome in.
- LegacyMshFile.MshFile.Parse and Enqueue: modelled for the first call on a newly constructed object, with an empty queue. A second `parse` call would queue the file again after the tokens left over.
- LegacyMshFile.MshFile.Peek: `front()` on an empty deque is undefined behaviour in C++. Peek's precondition excludes it, and the queue always ends with the EndOfFile token that no section consumes.
- MshFormat.GetNodesPerElement: the two parsers' `get_nodes_per_element` share one definition, because one switches on the enumerator and the other on its integer code with the same labels and results.
- MshLexer.Lexer.ReadToken: `MshLexer::read` is implemented in MshLexer.cpp, which this model does not cover. Past the last token the model reports "Unexpected end of file." Two results rest on that choice: the error half of MshProperties.SkipSectionStopsAtMarker, and the end-of-stream branch of MshFormat.ParseFrom. If `read` instead kept returning EndOfFile tokens, `skip_section` (src/MshFile.cpp:325-332) would never stop on a file that ends inside a skipped section.
- MshLexer.Lexer.ReadBlob with a token in the lookahead cache: not modelled. Its one caller (src/MshFile.cpp:163) reads the blob right after `read()`, which leaves the cache empty.
