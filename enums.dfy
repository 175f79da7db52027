/**
 * include/gmshparsercpp/Enums.h: the ElementType enumeration and the two
 * formatters (fmt and std) that name its values.
 */
module Enums {
  import opened Results

  datatype ElementType =
    | NONE | LINE2 | TRI3 | QUAD4 | TET4 | HEX8 | PRISM6 | PYRAMID5
    | LINE3 | TRI6 | QUAD9 | TET10 | HEX27 | PRISM18 | PYRAMID14 | POINT
    | QUAD8 | HEX20 | PRISM15 | PYRAMID13 | ITRI9 | TRI10 | ITRI12 | TRI15
    | ITRI15 | TRI21 | LINE4 | LINE5 | LINE6 | TET20 | TET35 | TET56
    | HEX64 | HEX125
  {
    /** The enumerator's integer value. */
    function Code(): int {
      match this
      case NONE => -1
      case LINE2 => 1
      case TRI3 => 2
      case QUAD4 => 3
      case TET4 => 4
      case HEX8 => 5
      case PRISM6 => 6
      case PYRAMID5 => 7
      case LINE3 => 8
      case TRI6 => 9
      case QUAD9 => 10
      case TET10 => 11
      case HEX27 => 12
      case PRISM18 => 13
      case PYRAMID14 => 14
      case POINT => 15
      case QUAD8 => 16
      case HEX20 => 17
      case PRISM15 => 18
      case PYRAMID13 => 19
      case ITRI9 => 20
      case TRI10 => 21
      case ITRI12 => 22
      case TRI15 => 23
      case ITRI15 => 24
      case TRI21 => 25
      case LINE4 => 26
      case LINE5 => 27
      case LINE6 => 28
      case TET20 => 29
      case TET35 => 30
      case TET56 => 31
      case HEX64 => 92
      case HEX125 => 93
    }

    /** The identifier the enumerator is declared with. */
    function Identifier(): string {
      match this
      case NONE => "NONE"
      case LINE2 => "LINE2"
      case TRI3 => "TRI3"
      case QUAD4 => "QUAD4"
      case TET4 => "TET4"
      case HEX8 => "HEX8"
      case PRISM6 => "PRISM6"
      case PYRAMID5 => "PYRAMID5"
      case LINE3 => "LINE3"
      case TRI6 => "TRI6"
      case QUAD9 => "QUAD9"
      case TET10 => "TET10"
      case HEX27 => "HEX27"
      case PRISM18 => "PRISM18"
      case PYRAMID14 => "PYRAMID14"
      case POINT => "POINT"
      case QUAD8 => "QUAD8"
      case HEX20 => "HEX20"
      case PRISM15 => "PRISM15"
      case PYRAMID13 => "PYRAMID13"
      case ITRI9 => "ITRI9"
      case TRI10 => "TRI10"
      case ITRI12 => "ITRI12"
      case TRI15 => "TRI15"
      case ITRI15 => "ITRI15"
      case TRI21 => "TRI21"
      case LINE4 => "LINE4"
      case LINE5 => "LINE5"
      case LINE6 => "LINE6"
      case TET20 => "TET20"
      case TET35 => "TET35"
      case TET56 => "TET56"
      case HEX64 => "HEX64"
      case HEX125 => "HEX125"
    }
  }

  /** The enumerator whose value is `code`, if there is one. */
  function FromCode(code: int): Option<ElementType> {
    if code == -1 then Some(NONE)
    else if code == 1 then Some(LINE2)
    else if code == 2 then Some(TRI3)
    else if code == 3 then Some(QUAD4)
    else if code == 4 then Some(TET4)
    else if code == 5 then Some(HEX8)
    else if code == 6 then Some(PRISM6)
    else if code == 7 then Some(PYRAMID5)
    else if code == 8 then Some(LINE3)
    else if code == 9 then Some(TRI6)
    else if code == 10 then Some(QUAD9)
    else if code == 11 then Some(TET10)
    else if code == 12 then Some(HEX27)
    else if code == 13 then Some(PRISM18)
    else if code == 14 then Some(PYRAMID14)
    else if code == 15 then Some(POINT)
    else if code == 16 then Some(QUAD8)
    else if code == 17 then Some(HEX20)
    else if code == 18 then Some(PRISM15)
    else if code == 19 then Some(PYRAMID13)
    else if code == 20 then Some(ITRI9)
    else if code == 21 then Some(TRI10)
    else if code == 22 then Some(ITRI12)
    else if code == 23 then Some(TRI15)
    else if code == 24 then Some(ITRI15)
    else if code == 25 then Some(TRI21)
    else if code == 26 then Some(LINE4)
    else if code == 27 then Some(LINE5)
    else if code == 28 then Some(LINE6)
    else if code == 29 then Some(TET20)
    else if code == 30 then Some(TET35)
    else if code == 31 then Some(TET56)
    else if code == 92 then Some(HEX64)
    else if code == 93 then Some(HEX125)
    else None
  }

  /** The element codes: NONE is -1, the others are exactly 1..31, 92 and 93. */
  predicate IsElementCode(code: int) {
    (1 <= code <= 31) || code == 92 || code == 93
  }

  /** Every enumerator's value is decoded back to it, so no two enumerators share a value. */
  lemma CodesDistinct(e: ElementType)
    ensures FromCode(e.Code()) == Some(e)
    ensures e == NONE <==> e.Code() == -1
    ensures e != NONE ==> IsElementCode(e.Code())
  {
  }

  /** A value is an enumerator exactly when it is -1 or an element code, and decoding inverts Code. */
  lemma FromCodeCorrect(code: int)
    ensures FromCode(code).Some? <==> code == -1 || IsElementCode(code)
    ensures FromCode(code).Some? ==> FromCode(code).value.Code() == code
  {
  }

  /** The fmt::formatter<ElementType> specialisation, on any value of the enumeration's type. */
  function FmtName(value: int): string {
    match FromCode(value)
    case Some(NONE) => "NONE"
    case Some(POINT) => "POINT"
    case Some(LINE2) => "LINE2"
    case Some(LINE3) => "LINE3"
    case Some(LINE5) => "LINE5"
    case Some(LINE6) => "LINE6"
    case Some(TRI3) => "TRI3"
    case Some(TRI6) => "TRI6"
    case Some(TRI10) => "TRI10"
    case Some(TRI15) => "TRI15"
    case Some(TRI21) => "TRI21"
    case Some(ITRI9) => "ITRI9"
    case Some(ITRI12) => "ITRI12"
    case Some(ITRI15) => "ITRI15"
    case Some(QUAD4) => "QUAD4"
    case Some(QUAD8) => "QUAD8"
    case Some(QUAD9) => "QUAD9"
    case Some(TET4) => "TET4"
    case Some(TET10) => "TET10"
    case Some(TET20) => "TET20"
    case Some(TET35) => "TET35"
    case Some(TET56) => "TET56"
    case Some(HEX8) => "HEX8"
    case Some(HEX20) => "HEX20"
    case Some(HEX27) => "HEX27"
    case Some(HEX64) => "HEX64"
    case Some(HEX125) => "HEX125"
    case Some(PRISM6) => "PRISM6"
    case Some(PRISM18) => "PRISM18"
    case Some(PRISM15) => "PRISM15"
    case Some(PYRAMID5) => "PYRAMID5"
    case Some(PYRAMID13) => "PYRAMID13"
    case Some(PYRAMID14) => "PYRAMID14"
    case _ => "Unknown"
  }

  /** The std::formatter<ElementType> specialisation: a switch on the values themselves. */
  function StdName(value: int): string {
    if value == -1 then "NONE"
    else if value == 15 then "POINT"
    else if value == 1 then "LINE2"
    else if value == 8 then "LINE3"
    else if value == 27 then "LINE5"
    else if value == 28 then "LINE6"
    else if value == 2 then "TRI3"
    else if value == 9 then "TRI6"
    else if value == 21 then "TRI10"
    else if value == 23 then "TRI15"
    else if value == 25 then "TRI21"
    else if value == 20 then "ITRI9"
    else if value == 22 then "ITRI12"
    else if value == 24 then "ITRI15"
    else if value == 3 then "QUAD4"
    else if value == 16 then "QUAD8"
    else if value == 10 then "QUAD9"
    else if value == 4 then "TET4"
    else if value == 11 then "TET10"
    else if value == 29 then "TET20"
    else if value == 30 then "TET35"
    else if value == 31 then "TET56"
    else if value == 5 then "HEX8"
    else if value == 17 then "HEX20"
    else if value == 12 then "HEX27"
    else if value == 92 then "HEX64"
    else if value == 93 then "HEX125"
    else if value == 6 then "PRISM6"
    else if value == 13 then "PRISM18"
    else if value == 18 then "PRISM15"
    else if value == 7 then "PYRAMID5"
    else if value == 19 then "PYRAMID13"
    else if value == 14 then "PYRAMID14"
    else "Unknown"
  }

  /** The fmt formatter names every enumerator by its own identifier, except LINE4, which has no case. */
  lemma FmtNamesAreIdentifiers(e: ElementType)
    ensures e != LINE4 ==> FmtName(e.Code()) == e.Identifier()
    ensures FmtName(LINE4.Code()) == "Unknown"
  {
    CodesDistinct(e);
  }

  /** The std formatter names every enumerator by its own identifier, except LINE4, which has no case. */
  lemma StdNamesAreIdentifiers(e: ElementType)
    ensures e != LINE4 ==> StdName(e.Code()) == e.Identifier()
    ensures StdName(LINE4.Code()) == "Unknown"
  {
  }

  /** A value that is no enumerator, or is LINE4, is named "Unknown"; no enumerator's identifier is "Unknown". */
  lemma UnknownNames(value: int)
    ensures FmtName(value) == "Unknown" <==> FromCode(value).None? || value == LINE4.Code()
    ensures forall e: ElementType :: e.Identifier() != "Unknown"
  {
  }

  /** The fmt and std formatters give the same name to every value. */
  lemma FormattersAgree(value: int)
    ensures FmtName(value) == StdName(value)
  {
    FromCodeCorrect(value);
    if FromCode(value).Some? {
      FmtNamesAreIdentifiers(FromCode(value).value);
      StdNamesAreIdentifiers(FromCode(value).value);
    }
  }
}
