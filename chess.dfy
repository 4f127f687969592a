/** The parts of the external chess library that the image package reads.
    Nothing here is defined by image.go: these are the encodings that library
    uses, stated once so that the rest of the model can rely on them.
    - A square is an index 0..63; its file is `sq % 8` (0 is file a) and its
      rank is `sq / 8` (0 is rank 1), so 0 is a1, 7 is h1 and 63 is h8.
    - File names print as "a".."h", rank names as "1".."8".
    - A piece colour prints as "w" or "b", and as "-" when there is no piece. */
module Chess {

  type Square = i: int | 0 <= i < 64

  const FILE_A := 0
  const RANK_1 := 0

  function File(sq: Square): (f: int)
    ensures 0 <= f < 8
  {
    sq % 8
  }

  function Rank(sq: Square): (r: int)
    ensures 0 <= r < 8
  {
    sq / 8
  }

  /** Every square is determined by its file and rank. */
  lemma SquareOfFileRank(sq: Square)
    ensures sq == 8 * Rank(sq) + File(sq)
  {
  }

  datatype Side = White | Black

  datatype Kind = King | Queen | Rook | Bishop | Knight | Pawn

  /** A piece, or the library's NoPiece sentinel for an empty square. */
  datatype Piece = NoPiece | Piece(side: Side, kind: Kind)

  /** A position as the library's SquareMap gives it: occupied squares only. */
  type Board = map<Square, Piece>

  /** Indexing a Go map yields the zero value, NoPiece, for an absent square. */
  function PieceAt(b: Board, sq: Square): Piece {
    if sq in b then b[sq] else NoPiece
  }

  function FileName(sq: Square): (s: string)
    ensures |s| == 1 && 'a' <= s[0] <= 'h'
  {
    ["abcdefgh"[File(sq)]]
  }

  function RankName(sq: Square): (s: string)
    ensures |s| == 1 && '1' <= s[0] <= '8'
  {
    ["12345678"[Rank(sq)]]
  }

  /** The colour letter of a piece, as the library prints it. */
  function SideName(p: Piece): string {
    match p
    case NoPiece => "-"
    case Piece(White, _) => "w"
    case Piece(Black, _) => "b"
  }
}
