/**
 * Properties of the earlier parser's grammar (module LegacyFormat): what
 * parse puts in its queue, the fixed place of $MeshFormat, what each
 * optional section does to the state, and where it parts ways with the
 * current parser.
 */
module LegacyProperties {
  import opened Results
  import opened Tokens
  import Enums
  import MshFormat
  import MshProperties
  import opened LegacyFormat

  // ------------------------------------------------------------ the queue

  /** No token before ScanEnd(file, i), from `i` on, marks the end of input. */
  lemma {:induction false} ScanEndFirst(file: seq<Token>, i: nat)
    requires i <= |file|
    decreases |file| - i
    ensures forall k :: i <= k < ScanEnd(file, i) ==> file[k].kind != EndOfFile
  {
    if i < |file| && file[i].kind != EndOfFile {
      ScanEndFirst(file, i + 1);
    }
  }

  /**
   * parse queues the tokens yylex delivers before the end of input, a
   * prefix of the file holding no EndOfFile token, and then one EndOfFile
   * token of its own: the queue holds exactly one, at its end.
   */
  lemma ScannedFacts(file: seq<Token>)
    ensures Scanned(file) <= file
    ensures forall k :: 0 <= k < |Scanned(file)| ==> Scanned(file)[k].kind != EndOfFile
    ensures |Scanned(file)| < |file| ==> file[|Scanned(file)|].kind == EndOfFile
    ensures (forall k :: 0 <= k < |file| ==> file[k].kind != EndOfFile) ==> Scanned(file) == file
    ensures var q := Scanned(file) + [EofToken];
            EndsWithEof(q) && forall k :: 0 <= k < |q| ==> (q[k].kind == EndOfFile <==> k == |q| - 1)
  {
    ScanEndFirst(file, 0);
    var q := Scanned(file) + [EofToken];
    forall k | 0 <= k < |q|
      ensures q[k].kind == EndOfFile <==> k == |q| - 1
    {
      if k < |q| - 1 {
        assert q[k] == file[k];
      }
    }
  }

  // --------------------------------------------------------- process_tokens

  /**
   * process_tokens: the first token must be a Section marker, else
   * "Expected start of section marker not found."; it must be
   * $MeshFormat, else "Expected $MeshFormat section marker not found.";
   * the version and file type of the result are the ones that section read.
   */
  lemma {:induction false} MeshFormatFirst(s: State, ts: seq<Token>, p: nat)
    requires EndsWithEof(ts) && p < |ts|
    ensures ts[p].kind != Section ==> ProcessTokens(s, ts, p) == Err(ExpectedSectionStart)
    ensures ts[p].kind == Section && ts[p].str != "$MeshFormat" ==> ProcessTokens(s, ts, p) == Err(ExpectedMeshFormat)
    ensures var r := ProcessTokens(s, ts, p);
            r.Ok? ==> ts[p].kind == Section && ts[p].str == "$MeshFormat"
                      && MeshFormatSection(s, ts, p).Ok?
                      && r.value.version == MeshFormatSection(s, ts, p).value.value.version
                      && r.value.binary == MeshFormatSection(s, ts, p).value.value.binary
  {
    if ts[p].kind == Section && ts[p].str == "$MeshFormat" {
      var m := MeshFormatSection(s, ts, p);
      if m.Ok? {
        MarkerKeepsEof(ts, m.value.next);
        OptionalSectionsKeep(m.value.value, ts, m.value.next);
      }
    }
  }

  /**
   * process_mesh_format_section of this variant: whatever marker it pops,
   * it takes exactly five tokens, reads no blob, and sets binary exactly
   * when the file type is 1.
   */
  lemma MeshFormatFields(s: State, ts: seq<Token>, p: nat)
    ensures var r := MeshFormatSection(s, ts, p);
            r.Ok? <==> p + 4 < |ts| && ts[p + 1].kind == Number && ts[p + 2].kind == Number
                       && ts[p + 4].kind == Section && ts[p + 4].str == "$EndMeshFormat"
    ensures var r := MeshFormatSection(s, ts, p);
            r.Ok? ==> r.value.next == p + 5
                      && r.value.value == s.(version := Float(ts[p + 1].str), binary := ts[p + 2].num == 1)
  {
    if p + 4 < |ts| {
      MshProperties.EndMarkerExact(ts, p + 4, "$EndMeshFormat");
    }
  }

  // ------------------------------------------------ process_optional_sections

  /**
   * One optional section: version and file type are never touched;
   * $PhysicalNames appends its names, $Entities and every skipped section
   * leave the state as it was.
   */
  lemma OptionalSectionKeeps(s: State, name: string, ts: seq<Token>, p: nat)
    ensures var r := OptionalSection(s, name, ts, p);
            r.Ok? ==> r.value.value.version == s.version && r.value.value.binary == s.binary
                      && s.physicalNames <= r.value.value.physicalNames
                      && (name != "$PhysicalNames" ==> r.value.value == s)
  {
  }

  /**
   * $Nodes, $Elements and every other section but $PhysicalNames and
   * $Entities are skipped: after the opening marker, everything up to and
   * including the next Section token is taken, whatever it holds, and the
   * skip fails only when no Section token follows.
   */
  lemma OthersSkipped(s: State, name: string, ts: seq<Token>, p: nat)
    requires name != "$PhysicalNames" && name != "$Entities"
    ensures var r := OptionalSection(s, name, ts, p);
            (r.Ok? <==> p < |ts| && exists k :: p + 1 <= k < |ts| && ts[k].kind == Section)
            && (r.Ok? ==> r.value.value == s
                          && ts[r.value.next - 1].kind == Section
                          && forall k :: p + 1 <= k < r.value.next - 1 ==> ts[k].kind != Section)
  {
    if p < |ts| {
      MshProperties.SkipSectionStopsAtMarker(ts, p + 1);
    }
  }

  /**
   * The optional sections keep the version and file type $MeshFormat set,
   * and the physical names held before stay a prefix of the names after.
   */
  lemma {:induction false} OptionalSectionsKeep(s: State, ts: seq<Token>, p: nat)
    requires EndsWithEof(ts) && p < |ts|
    decreases |ts| - p
    ensures var r := OptionalSections(s, ts, p);
            r.Ok? ==> r.value.version == s.version && r.value.binary == s.binary
                      && s.physicalNames <= r.value.physicalNames
  {
    if ts[p].kind == Section {
      var step := OptionalSection(s, ts[p].str, ts, p);
      if step.Ok? {
        OptionalSectionKeeps(s, ts[p].str, ts, p);
        MarkerKeepsEof(ts, step.value.next);
        OptionalSectionsKeep(step.value.value, ts, step.value.next);
      }
    }
  }

  /** Anything but a Section marker between sections: "Expected section marker not found." */
  lemma StrayTokenRejected(s: State, ts: seq<Token>, p: nat)
    requires EndsWithEof(ts) && p < |ts|
    requires ts[p].kind != Section && ts[p].kind != EndOfFile
    ensures OptionalSections(s, ts, p) == Err(ExpectedSectionMarker)
  {
  }

  // ------------------------------------------- against the current parser

  /**
   * The arity of an element block's type is looked up only when an
   * element is read: a block of unknown type with no elements is accepted
   * here, where the current parser rejects it.
   */
  lemma UnknownTypeEmptyBlock(ts: seq<Token>, p: nat)
    requires p + 4 <= |ts|
    requires ts[p].kind == Number && ts[p + 1].kind == Number && ts[p + 2].kind == Number && ts[p + 3].kind == Number
    requires !Enums.IsElementCode(ts[p + 2].num) && ts[p + 3].num <= 0
    ensures ElementBlock(ts, p) == Ok(MshFormat.Parsed((), p + 4))
    ensures MshFormat.ElementBlockRecord(ts, p) == Err(UnknownElementType(ts[p + 2].num))
  {
    MshProperties.UnknownTypeFailsFirst(ts, p);
    assert Elements(ts, p + 4, MshFormat.GetNodesPerElement(ts[p + 2].num), ts[p + 3].num) == Ok(MshFormat.Parsed((), p + 4));
  }

  /** A file holding only $MeshFormat 4.1, ASCII: version 4.1, ASCII, no names. */
  lemma HeaderOnlyFile()
    ensures ProcessTokens(InitialState,
                          [Token(Section, "$MeshFormat", 1, 0), Token(Number, "4.1", 2, 4),
                           Token(Number, "0", 2, 0), Token(Number, "8", 2, 8),
                           Token(Section, "$EndMeshFormat", 3, 0), EofToken], 0)
            == Ok(InitialState.(version := Float("4.1")))
  {
  }

  /** A binary header needs no blob token here: the end marker follows the data size. */
  lemma BinaryHeaderWithoutBlob()
    ensures ProcessTokens(InitialState,
                          [Token(Section, "$MeshFormat", 1, 0), Token(Number, "4.1", 2, 4),
                           Token(Number, "1", 2, 1), Token(Number, "8", 2, 8),
                           Token(Section, "$EndMeshFormat", 3, 0), EofToken], 0)
            == Ok(InitialState.(version := Float("4.1"), binary := true))
  {
  }

  /**
   * The file the current parser accepts without $MeshFormat
   * (MshProperties.MeshFormatNotRequired) is rejected here.
   */
  lemma PhysicalNamesFirstRejected()
    ensures ProcessTokens(InitialState,
                          [Token(Section, "$PhysicalNames", 1, 0), Token(Number, "0", 2, 0),
                           Token(Section, "$EndPhysicalNames", 3, 0), EofToken], 0)
            == Err(ExpectedMeshFormat)
  {
  }
}
