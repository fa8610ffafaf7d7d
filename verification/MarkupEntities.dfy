/** Text of an XML document in pieces: characters as they stand, and the five entities of section 4.6 of XML 1.0. */
module MarkupEntities {
  datatype Piece = Raw(c: char) | LessThan | Ampersand | GreaterThan | Apostrophe | Quotation

  function PieceText(p: Piece): (s: string)
    ensures s != ""
  {
    match p
    case Raw(c) => [c]
    case LessThan => "&lt;"
    case Ampersand => "&amp;"
    case GreaterThan => "&gt;"
    case Apostrophe => "&apos;"
    case Quotation => "&quot;"
  }

  function PieceSays(p: Piece): char {
    match p
    case Raw(c) => c
    case LessThan => '<'
    case Ampersand => '&'
    case GreaterThan => '>'
    case Apostrophe => '\''
    case Quotation => '\"'
  }

  function PiecesText(ps: seq<Piece>): string {
    if ps == [] then "" else PieceText(ps[0]) + PiecesText(ps[1..])
  }

  function Says(ps: seq<Piece>): string {
    if ps == [] then "" else [PieceSays(ps[0])] + Says(ps[1..])
  }

  predicate BeginsEntity(s: string) {
    "&lt;" <= s || "&amp;" <= s || "&gt;" <= s || "&apos;" <= s || "&quot;" <= s
  }

  // A character as it stands begins no entity.
  predicate PiecesOk(ps: seq<Piece>) {
    ps != [] ==> (ps[0].Raw? ==> !BeginsEntity(PiecesText(ps))) && PiecesOk(ps[1..])
  }

  function FirstEntity(s: string): (p: Piece)
    requires BeginsEntity(s)
    ensures !p.Raw? && PieceText(p) <= s
  {
    if "&lt;" <= s then LessThan
    else if "&amp;" <= s then Ampersand
    else if "&gt;" <= s then GreaterThan
    else if "&apos;" <= s then Apostrophe
    else Quotation
  }

  // Every text is such a list of pieces.
  lemma {:induction false} AnyText(s: string) returns (ps: seq<Piece>)
    ensures PiecesOk(ps) && PiecesText(ps) == s
    decreases |s|
  {
    if s == "" {
      return [];
    }
    var p := if BeginsEntity(s) then FirstEntity(s) else Raw(s[0]);
    var t := PieceText(p);
    var rest := AnyText(s[|t|..]);
    ps := [p] + rest;
    assert ps[1..] == rest && s == t + s[|t|..];
  }

  // How a character is written: angle brackets and ampersands as entities, in attributes both quotation marks too.
  function Written(c: char, attrib: bool): Piece {
    if c == '<' then LessThan
    else if c == '&' then Ampersand
    else if c == '>' then GreaterThan
    else if attrib && c == '\'' then Apostrophe
    else if attrib && c == '\"' then Quotation
    else Raw(c)
  }

  function WrittenAll(s: string, attrib: bool): seq<Piece> {
    if s == "" then [] else [Written(s[0], attrib)] + WrittenAll(s[1..], attrib)
  }

  lemma {:induction false} WrittenSays(s: string, attrib: bool)
    ensures var ps := WrittenAll(s, attrib); PiecesOk(ps) && Says(ps) == s
  {
    if s != "" {
      WrittenSays(s[1..], attrib);
      var ps := WrittenAll(s, attrib);
      assert ps[1..] == WrittenAll(s[1..], attrib);
      assert PiecesText(ps)[0] == PieceText(ps[0])[0];
      assert s == [s[0]] + s[1..];
    }
  }
}
