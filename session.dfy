/**
 * The page's game session as the object it is in the source: the state that
 * the handlers update one setter at a time, with every handler proved to make
 * exactly the transition `GameMachine` defines for it.
 */
module App {
  import opened Wrappers
  import opened ChessRules
  import opened Policy
  import Machine = GameMachine

  class Session {
    const rules: Rules
    var game: Position
    var selectedSquare: Option<Square>
    var legalMoves: seq<Square>
    var status: Machine.Status
    var moveCount: nat
    var gameStatus: Option<Outcome>
    var captured: Machine.Captured
    /** The positions closed over by the opponent replies scheduled and not yet fired. */
    var pending: seq<Position>

    /** The session's state as a value. */
    function Snapshot(): Machine.State
      reads this
    {
      Machine.State(game, selectedSquare, legalMoves, status, moveCount, gameStatus, captured, pending)
    }

    ghost predicate Valid()
      reads this
    {
      Machine.Inv(rules, Snapshot())
    }

    constructor (rules: Rules)
      ensures this.rules == rules
      ensures Snapshot() == Machine.Initial(rules)
      ensures Valid()
    {
      this.rules := rules;
      game := rules.start;
      selectedSquare := None;
      legalMoves := [];
      status := Machine.Idle;
      moveCount := 0;
      gameStatus := None;
      captured := Machine.Captured([], []);
      pending := [];
    }

    /** A click on square `sq`. */
    method Click(sq: Square)
      requires Valid()
      modifies this
      ensures Valid()
      ensures Snapshot() == Machine.Click(rules, old(Snapshot()), sq)
    {
      if gameStatus.Some? {
        return;
      }
      var piece := rules.pieceAt(game, sq);
      if selectedSquare.Some? {
        if sq == selectedSquare.value {
          selectedSquare := None;
          legalMoves := [];
          return;
        }
        if sq in legalMoves {
          HumanMove(selectedSquare.value, sq);
          return;
        }
        if IsWhite(piece) {
          SelectPiece(sq);
          return;
        }
        selectedSquare := None;
        legalMoves := [];
        return;
      }
      if IsWhite(piece) {
        SelectPiece(sq);
      }
    }

    method SelectPiece(sq: Square)
      requires Valid()
      modifies this
      ensures Valid()
      ensures Snapshot() == Machine.SelectPiece(rules, old(Snapshot()), sq)
    {
      selectedSquare := Some(sq);
      var moves := rules.destinations(game, sq);
      legalMoves := moves;
    }

    /** The human's ply from `from` to `to`. */
    method HumanMove(from: Square, to: Square)
      requires Valid()
      modifies this
      ensures Valid()
      ensures Snapshot() == Machine.HumanMove(rules, old(Snapshot()), from, to)
    {
      var piece := rules.pieceAt(game, from);
      var promotion := PromotionFor(piece, to);
      var move := rules.apply(game, Move(from, to, promotion));
      if move.None? {
        selectedSquare := None;
        legalMoves := [];
        return;
      }
      var next := move.value.next;
      if move.value.captured.Some? {
        captured := captured.(b := captured.b + [move.value.captured.value]);
      }
      game := next;
      selectedSquare := None;
      legalMoves := [];
      moveCount := moveCount + 1;
      status := Machine.Processing;
      if rules.isGameOver(next) {
        GameOver(next);
        return;
      }
      pending := pending + [next];
    }

    /** The k-th scheduled reply fires; `pick` is the random draw in [0, 1). */
    method AIMove(k: nat, pick: Fraction)
      requires k < |pending|
      modifies this
      ensures old(Valid()) ==> Valid()
      ensures Snapshot() == Machine.AIMove(rules, old(Snapshot()), k, pick)
    {
      var currentGame := pending[k];
      pending := Machine.Fired(pending, k);
      if rules.isGameOver(currentGame) {
        GameOver(currentGame);
        return;
      }
      var moves := rules.moves(currentGame);
      if |moves| == 0 {
        return;
      }
      var aiMove := moves[ChooseIndex(pick, |moves|)];
      var result := rules.apply(currentGame, aiMove);
      if result.None? {
        return;
      }
      if result.value.captured.Some? {
        captured := captured.(w := captured.w + [result.value.captured.value]);
      }
      var newGame := result.value.next;
      game := newGame;
      moveCount := moveCount + 1;
      status := Machine.Waiting;
      if rules.isGameOver(newGame) {
        GameOver(newGame);
      }
    }

    /** Record the verdict on the finished position `g`. */
    method GameOver(g: Position)
      modifies this
      ensures Snapshot() == Machine.GameOver(rules, old(Snapshot()), g)
    {
      gameStatus := Some(OutcomeOf(rules, g));
      status := Machine.Terminated;
    }

    /** The reset button. Replies already scheduled stay scheduled. */
    method Reset()
      requires Valid()
      modifies this
      ensures Valid()
      ensures Snapshot() == Machine.Reset(rules, old(Snapshot()))
    {
      game := rules.start;
      selectedSquare := None;
      legalMoves := [];
      moveCount := 0;
      gameStatus := None;
      status := Machine.Idle;
      captured := Machine.Captured([], []);
    }
  }
}
