/**
 * The chess-rules engine the session consumes (the `chess.js` library in the
 * source). Its rules are not modelled: a `Rules` value is an arbitrary
 * collection of total functions over an opaque `Position`, so everything proved
 * about the session holds for every engine.
 */
module ChessRules {
  import opened Wrappers

  datatype Color = White | Black
  datatype PieceType = Pawn | Knight | Bishop | Rook | Queen | King
  datatype Piece = Piece(kind: PieceType, color: Color)

  /** A board square such as "e4": a file letter and a rank digit. */
  datatype Square = Square(file: char, rank: char)

  /** A move as the engine accepts it: origin, destination and an optional promotion piece. */
  datatype Move = Move(from: Square, to: Square, promotion: Option<PieceType>)

  /** What a successful `move` call yields: the new position and the type of the piece it captured, if any. */
  datatype Applied = Applied(next: Position, captured: Option<PieceType>)

  /** A board position with its side to move (what the source round-trips through a FEN string). */
  type Position(==)

  datatype Rules = Rules(
    /** The standard starting position (`new Chess()`). */
    start: Position,
    /** The piece on a square (`game.get(sq)`), `None` for an empty square. */
    pieceAt: (Position, Square) -> Option<Piece>,
    /** The destinations of the legal moves from one square (`game.moves({ square, verbose })` mapped to `to`). */
    destinations: (Position, Square) -> seq<Square>,
    /** Every legal move of the side to move (`game.moves()`). */
    moves: Position -> seq<Move>,
    /** Applying a move (`game.move(...)`); `None` where the engine throws on an illegal move. */
    apply: (Position, Move) -> Option<Applied>,
    isGameOver: Position -> bool,
    isCheckmate: Position -> bool,
    /** The side to move (`game.turn()`). */
    turn: Position -> Color)

  /** True when the square holds a White piece (`piece && piece.color === 'w'`). */
  predicate IsWhite(piece: Option<Piece>) {
    piece.Some? && piece.value.color == White
  }
}
