/** pieceXML and pieceTypeMap (image.go:210-227): which embedded glyph a piece
    uses, and how its header is rewritten so that the glyph lands in the
    piece's cell. The embedded files themselves are a parameter `asset`: a
    total lookup from file name to file text. */
module Glyphs {
  import opened Chess
  import opened GoStrings

  /** pieceTypeMap: the letter of each piece type in an asset name. */
  const PIECE_TYPE_MAP: map<Kind, string> :=
    map[King := "K", Queen := "Q", Rook := "R", Bishop := "B", Knight := "N", Pawn := "P"]

  /** The pieceTypeMap entry of a piece's type; indexing a Go map with a
      missing key (NoPiece has no type in it) gives the empty string. */
  function TypeLetter(p: Piece): string {
    if p.Piece? && p.kind in PIECE_TYPE_MAP then PIECE_TYPE_MAP[p.kind] else ""
  }

  /** The piece an asset name stands for, NoPiece if it names none. */
  function PieceOfAsset(name: string): Piece {
    if |name| != 13 || name[..7] != "pieces/" || name[9..] != ".svg" then NoPiece
    else
      var side := if name[7] == 'w' then Some(White) else if name[7] == 'b' then Some(Black) else None;
      var kind := KindOfLetter(name[8]);
      if side.Some? && kind.Some? then Piece(side.value, kind.value) else NoPiece
  }

  datatype Maybe<T> = None | Some(value: T)

  function KindOfLetter(c: char): Maybe<Kind> {
    match c
    case 'K' => Some(King)
    case 'Q' => Some(Queen)
    case 'R' => Some(Rook)
    case 'B' => Some(Bishop)
    case 'N' => Some(Knight)
    case 'P' => Some(Pawn)
    case _ => None
  }

  /** The embedded file a piece's glyph is read from:
      "pieces/" + colour letter + type letter + ".svg". */
  function AssetName(p: Piece): string {
    "pieces/" + SideName(p) + TypeLetter(p) + ".svg"
  }

  /** Every piece has an asset name of its own, from which it can be read
      back; NoPiece gets "pieces/-.svg", which names no glyph. */
  lemma AssetNameRoundTrip(p: Piece)
    ensures p != NoPiece ==> |AssetName(p)| == 13 && PieceOfAsset(AssetName(p)) == p
    ensures p == NoPiece ==> AssetName(p) == "pieces/-.svg" && PieceOfAsset(AssetName(p)) == NoPiece
  {
    var name := AssetName(p);
    if p != NoPiece {
      var letter := match p.kind
        case King => 'K' case Queen => 'Q' case Rook => 'R'
        case Bishop => 'B' case Knight => 'N' case Pawn => 'P';
      assert TypeLetter(p) == [letter];
      assert KindOfLetter(letter) == Some(p.kind);
      assert name == "pieces/" + SideName(p) + [letter] + ".svg";
      assert name[..7] == "pieces/" && name[9..] == ".svg" && name[8] == letter;
    }
  }

  /** The header every glyph file starts with: a 45 by 45 image. */
  const OLD_HEADER := "<svg xmlns=\"http://www.w3.org/2000/svg\" version=\"1.1\" width=\"45\" height=\"45\">"

  const HEADER_PREFIX := "<svg xmlns=\"http://www.w3.org/2000/svg\" version=\"1.1\" width=\"360\" height=\"360\" viewBox=\""
  const HEADER_SUFFIX := " 360 360\">"

  /** The header that replaces it: a 360 by 360 image whose viewBox origin is
      (-x, -y). */
  function NewHeader(x: int, y: int): string {
    HEADER_PREFIX + FormatInt(-1 * x) + " " + FormatInt(-1 * y) + HEADER_SUFFIX
  }

  /** Reads the viewBox origin back from a header built by NewHeader. */
  function ViewBoxOrigin(h: string): (int, int) {
    if |h| < |HEADER_PREFIX| + |HEADER_SUFFIX| then (0, 0)
    else
      var body := h[|HEADER_PREFIX|..|h| - |HEADER_SUFFIX|];
      var space := Index(body, " ");
      if space < 0 then (0, 0) else (ParseInt(body[..space]), ParseInt(body[space + 1..]))
  }

  /** The new header places the glyph's viewBox origin at (-x, -y), so
      different cells get different headers. */
  lemma NewHeaderOrigin(x: int, y: int)
    ensures ViewBoxOrigin(NewHeader(x, y)) == (-x, -y)
  {
    var a, b := FormatInt(-1 * x), FormatInt(-1 * y);
    var h := NewHeader(x, y);
    assert h == HEADER_PREFIX + (a + " " + b) + HEADER_SUFFIX;
    assert h[|HEADER_PREFIX|..|h| - |HEADER_SUFFIX|] == a + " " + b;
    IndexOfSeparator(a, b);
    assert (a + " " + b)[..|a|] == a;
    assert (a + " " + b)[|a| + 1..] == b;
    ParseFormatInt(-1 * x);
    ParseFormatInt(-1 * y);
  }

  /** pieceXML: the glyph file of `p` with its first header, if it has one,
      replaced by the header for cell (x, y). */
  function PieceXml(asset: string -> string, x: int, y: int, p: Piece): string {
    ReplaceFirst(asset(AssetName(p)), OLD_HEADER, NewHeader(x, y))
  }

  /** What pieceXML keeps and what it changes: a file without the 45 by 45
      header comes back as it is; otherwise the text before the first header is
      kept, the new header stands in its place, and the text after it is kept. */
  lemma PieceXmlReplacesHeader(asset: string -> string, x: int, y: int, p: Piece)
    ensures var text, xml := asset(AssetName(p)), PieceXml(asset, x, y, p);
      var i := Index(text, OLD_HEADER);
      && (i < 0 ==> xml == text)
      && (0 <= i ==>
            && |xml| == |text| - |OLD_HEADER| + |NewHeader(x, y)|
            && xml[..i] == text[..i]
            && OccursAt(xml, NewHeader(x, y), i)
            && xml[i + |NewHeader(x, y)|..] == text[i + |OLD_HEADER|..])
  {
  }
}
