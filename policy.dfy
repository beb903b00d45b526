/**
 * The three decisions the session makes by itself rather than asking the
 * engine: which promotion to request, who won a finished game, and which of the
 * opponent's legal moves to play.
 */
module Policy {
  import opened Wrappers
  import opened ChessRules

  /** The rank a pawn of the given side promotes on. */
  function FarthestRank(c: Color): (r: char)
    ensures r in {'1', '8'}
  {
    match c
    case White => '8'
    case Black => '1'
  }

  /**
   * The promotion sent with a human move: always a queen, and only for a pawn
   * that lands on the farthest rank of its own side.
   */
  function PromotionFor(piece: Option<Piece>, to: Square): (promotion: Option<PieceType>)
    ensures promotion.Some? ==> promotion.value == Queen
    ensures promotion.Some? <==>
              piece.Some? && piece.value.kind == Pawn && to.rank == FarthestRank(piece.value.color)
  {
    if piece.Some? && piece.value.kind == Pawn &&
       ((piece.value.color == White && to.rank == '8') || (piece.value.color == Black && to.rank == '1'))
    then Some(Queen)
    else None
  }

  /** The human always plays White and the automated opponent Black. */
  datatype Player = Human | AI

  function SideOf(p: Player): (c: Color)
    ensures c == White <==> p == Human
  {
    match p
    case Human => White
    case AI => Black
  }

  /** The terminal verdict kept in `gameStatus`. */
  datatype Outcome = Checkmate(winner: Player) | Draw

  /**
   * The verdict on a finished position: a checkmate is won by the side that is
   * NOT to move; every other end of the game is reported as a draw.
   */
  function OutcomeOf(rules: Rules, g: Position): (o: Outcome)
    ensures o.Checkmate? <==> rules.isCheckmate(g)
    ensures o.Checkmate? ==> SideOf(o.winner) != rules.turn(g)
  {
    if rules.isCheckmate(g) then
      Checkmate(if rules.turn(g) == White then AI else Human)
    else
      Draw
  }

  /** A value of `Math.random()`: a real in [0, 1). */
  type Fraction = r: real | 0.0 <= r < 1.0

  /** The opponent's choice `Math.floor(Math.random() * n)`: always a valid index into n moves. */
  function ChooseIndex(pick: Fraction, n: nat): (i: nat)
    requires n > 0
    ensures i < n
  {
    MulMono(pick, 1.0, n as real);
    (pick * n as real).Floor
  }

  /**
   * The choice is uniform: the draws that give index i are exactly those in
   * [i/n, (i+1)/n), an interval of width 1/n for every i.
   */
  lemma ChooseIndexPreimage(pick: Fraction, n: nat, i: nat)
    requires i < n
    ensures ChooseIndex(pick, n) == i <==> i as real / n as real <= pick < (i + 1) as real / n as real
  {
    var m := n as real;
    var x := pick * m;
    var lo := i as real / m;
    var hi := (i + 1) as real / m;
    var ir := i as real;
    var jr := (i + 1) as real;
    assert lo * m == ir;
    assert hi * m == jr;
    ScaleLt(pick, lo, m, x, ir);
    ScaleLt(pick, hi, m, x, jr);
    assert ChooseIndex(pick, n) == x.Floor;
    assert x.Floor == i <==> ir <= x < jr;
  }

  /** Scaling by a positive factor preserves and reflects a strict order. */
  lemma ScaleLt(a: real, b: real, m: real, am: real, bm: real)
    requires m > 0.0 && am == a * m && bm == b * m
    ensures a < b <==> am < bm
  {
    if a < b { MulMono(a, b, m); }
    else if b < a { MulMono(b, a, m); }
  }

  /** Scaling by a positive factor keeps a strict order. */
  lemma MulMono(a: real, b: real, m: real)
    requires a < b && m > 0.0
    ensures a * m < b * m
  {
  }

  /** Every one of the n moves can be chosen: some random value leads to each index. */
  lemma ChooseIndexReachesEvery(n: nat, i: nat)
    requires i < n
    ensures exists pick: Fraction :: ChooseIndex(pick, n) == i
  {
    var pick: Fraction := i as real / n as real;
    assert pick * n as real == i as real;
    assert ChooseIndex(pick, n) == i;
  }
}
