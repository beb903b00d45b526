/**
 * The game session of the chess page as a transition system: the state the
 * page keeps, one function per event handler, and what holds across any
 * sequence of clicks, opponent replies and resets.
 */
module GameMachine {
  import opened Wrappers
  import opened ChessRules
  import opened Policy

  /** The activity label of the session. */
  datatype Status = Idle | Processing | Waiting | Terminated

  /** The pieces each side has lost: `w` holds White's losses (taken by the opponent), `b` Black's (taken by the human). */
  datatype Captured = Captured(w: seq<PieceType>, b: seq<PieceType>)

  /**
   * Everything the session keeps. `pending` holds the position closed over by
   * every opponent reply that has been scheduled and has not fired yet.
   */
  datatype State = State(
    game: Position,
    selected: Option<Square>,
    legalMoves: seq<Square>,
    status: Status,
    moveCount: nat,
    gameStatus: Option<Outcome>,
    captured: Captured,
    pending: seq<Position>)

  /** The list a capture appends to a loss list: the captured type, or nothing. */
  function Record(captured: Option<PieceType>): (l: seq<PieceType>)
    ensures |l| <= 1
    ensures l == [] <==> captured.None?
    ensures captured.Some? ==> l[0] == captured.value
  {
    if captured.Some? then [captured.value] else []
  }

  /**
   * What every reachable session satisfies: no destinations without a
   * selection; no more recorded captures than plies played; a terminated
   * status always comes with a verdict; and no scheduled reply closes over a
   * finished position.
   */
  ghost predicate Inv(rules: Rules, s: State) {
    && (s.selected.None? ==> s.legalMoves == [])
    && |s.captured.w| + |s.captured.b| <= s.moveCount
    && (s.status == Terminated ==> s.gameStatus.Some?)
    && (forall k :: 0 <= k < |s.pending| ==> !rules.isGameOver(s.pending[k]))
  }

  /** Only the selection and its destinations differ between `s` and `r`. */
  predicate OnlySelectionChanged(s: State, r: State) {
    r.(selected := s.selected, legalMoves := s.legalMoves) == s
  }

  /** The session as the page creates it. */
  function Initial(rules: Rules): (s: State)
    ensures Inv(rules, s)
    ensures s.game == rules.start && s.selected.None? && s.legalMoves == []
    ensures s.status == Idle && s.gameStatus.None?
    ensures s.moveCount == 0 && s.captured == Captured([], []) && s.pending == []
  {
    State(rules.start, None, [], Idle, 0, None, Captured([], []), [])
  }

  /** Selecting a square: remember it and ask the engine for its destinations. */
  function SelectPiece(rules: Rules, s: State, sq: Square): (r: State)
    ensures r.selected == Some(sq) && r.legalMoves == rules.destinations(s.game, sq)
    ensures OnlySelectionChanged(s, r)
    ensures Inv(rules, s) ==> Inv(rules, r)
  {
    s.(selected := Some(sq), legalMoves := rules.destinations(s.game, sq))
  }

  /** The session with no square selected. */
  function Deselect(s: State): (r: State)
    ensures r.selected.None? && r.legalMoves == []
    ensures OnlySelectionChanged(s, r)
  {
    s.(selected := None, legalMoves := [])
  }

  /** True when clicking `sq` completes a move from the selected square. */
  predicate CompletesMove(s: State, sq: Square) {
    s.gameStatus.None? && s.selected.Some? && sq != s.selected.value && sq in s.legalMoves
  }

  /** A click on a square of the board. */
  function Click(rules: Rules, s: State, sq: Square): (r: State)
    // a finished game ignores every click
    ensures s.gameStatus.Some? ==> r == s
    // a click that completes no move changes only the selection
    ensures !CompletesMove(s, sq) ==> OnlySelectionChanged(s, r)
    ensures CompletesMove(s, sq) ==> r == HumanMove(rules, s, s.selected.value, sq)
    // with nothing selected, the square becomes selected exactly when it holds a White piece
    ensures s.gameStatus.None? && s.selected.None? ==>
              (r.selected.Some? <==> IsWhite(rules.pieceAt(s.game, sq))) &&
              (r.selected.Some? ==> r.selected == Some(sq) && r.legalMoves == rules.destinations(s.game, sq))
    ensures s.gameStatus.None? && s.selected.None? && !IsWhite(rules.pieceAt(s.game, sq)) ==> r == s
    // clicking the selected square clears the selection
    ensures s.gameStatus.None? && s.selected == Some(sq) ==> r.selected.None? && r.legalMoves == []
    // with another square selected and no move completed, a White piece is reselected
    // and anything else clears the selection
    ensures s.gameStatus.None? && s.selected.Some? && s.selected != Some(sq) && !CompletesMove(s, sq) ==>
              if IsWhite(rules.pieceAt(s.game, sq))
              then r.selected == Some(sq) && r.legalMoves == rules.destinations(s.game, sq)
              else r.selected.None? && r.legalMoves == []
    ensures Inv(rules, s) ==> Inv(rules, r)
  {
    if s.gameStatus.Some? then s
    else
      var piece := rules.pieceAt(s.game, sq);
      if s.selected.Some? then
        if sq == s.selected.value then Deselect(s)
        else if sq in s.legalMoves then HumanMove(rules, s, s.selected.value, sq)
        else if IsWhite(piece) then SelectPiece(rules, s, sq)
        else Deselect(s)
      else if IsWhite(piece) then SelectPiece(rules, s, sq)
      else s
  }

  /** What the engine answers to the human's move from `from` to `to`, with the promotion the session requests. */
  function HumanAttempt(rules: Rules, s: State, from: Square, to: Square): Option<Applied>
  {
    var promotion := PromotionFor(rules.pieceAt(s.game, from), to);
    rules.apply(s.game, Move(from, to, promotion))
  }

  /** The human's ply. */
  function HumanMove(rules: Rules, s: State, from: Square, to: Square): (r: State)
    ensures r.selected.None? && r.legalMoves == []
    // a rejected move only clears the selection
    ensures HumanAttempt(rules, s, from, to).None? ==> r == Deselect(s)
    // an accepted move: one more ply, its capture (if any) recorded among Black's losses only
    ensures HumanAttempt(rules, s, from, to).Some? ==>
              var a := HumanAttempt(rules, s, from, to).value;
              && r.game == a.next
              && r.moveCount == s.moveCount + 1
              && r.captured.w == s.captured.w
              && r.captured.b == s.captured.b + Record(a.captured)
              // a finished game gets its verdict and no reply; otherwise exactly one reply is scheduled
              && (rules.isGameOver(a.next) ==>
                    r.pending == s.pending && r.status == Terminated && r.gameStatus == Some(OutcomeOf(rules, a.next)))
              && (!rules.isGameOver(a.next) ==>
                    r.pending == s.pending + [a.next] && r.status == Processing && r.gameStatus == s.gameStatus)
    ensures Inv(rules, s) ==> Inv(rules, r)
  {
    match HumanAttempt(rules, s, from, to)
    case None => Deselect(s)
    case Some(a) =>
      var s1 := s.(
        captured := s.captured.(b := s.captured.b + Record(a.captured)),
        game := a.next, selected := None, legalMoves := [],
        moveCount := s.moveCount + 1, status := Processing);
      if rules.isGameOver(a.next) then GameOver(rules, s1, a.next)
      else s1.(pending := s1.pending + [a.next])
  }

  /**
   * What the opponent's reply on position `g` yields, if it is played: nothing
   * on a finished position, with no legal moves, or when the engine rejects the
   * chosen move; otherwise the result of one of the engine's legal moves.
   */
  function AIAttempt(rules: Rules, g: Position, pick: Fraction): (a: Option<Applied>)
    ensures a.Some? ==> !rules.isGameOver(g) && |rules.moves(g)| > 0
    ensures a.Some? ==> exists i :: 0 <= i < |rules.moves(g)| && rules.apply(g, rules.moves(g)[i]) == a
    // on an unfinished position with moves, it is the engine's answer to the drawn move
    ensures a.None? <==>
              rules.isGameOver(g) || |rules.moves(g)| == 0 ||
              rules.apply(g, rules.moves(g)[ChooseIndex(pick, |rules.moves(g)|)]).None?
    ensures !rules.isGameOver(g) && |rules.moves(g)| > 0 ==>
              a == rules.apply(g, rules.moves(g)[ChooseIndex(pick, |rules.moves(g)|)])
  {
    if rules.isGameOver(g) then None
    else
      var moves := rules.moves(g);
      if |moves| == 0 then None
      else rules.apply(g, moves[ChooseIndex(pick, |moves|)])
  }

  /** Every legal move of an unfinished position is the opponent's reply for some random draw. */
  lemma EveryLegalReplyPlayable(rules: Rules, g: Position, i: nat)
    requires !rules.isGameOver(g) && i < |rules.moves(g)|
    ensures exists pick: Fraction :: AIAttempt(rules, g, pick) == rules.apply(g, rules.moves(g)[i])
  {
    ChooseIndexReachesEvery(|rules.moves(g)|, i);
    var pick: Fraction :| ChooseIndex(pick, |rules.moves(g)|) == i;
    assert AIAttempt(rules, g, pick) == rules.apply(g, rules.moves(g)[i]);
  }

  /** The pending replies once the k-th has fired. */
  function Fired(pending: seq<Position>, k: nat): (rest: seq<Position>)
    requires k < |pending|
    ensures |rest| == |pending| - 1
    ensures multiset(rest) + multiset{pending[k]} == multiset(pending)
  {
    assert pending == pending[..k] + [pending[k]] + pending[k + 1..];
    pending[..k] + pending[k + 1..]
  }

  /** The opponent's ply: the k-th scheduled reply fires, with `pick` standing for the random draw. */
  function AIMove(rules: Rules, s: State, k: nat, pick: Fraction): (r: State)
    requires k < |s.pending|
    // the fired reply is gone and no new one is scheduled; the selection is left as it was
    ensures r.pending == Fired(s.pending, k)
    ensures r.selected == s.selected && r.legalMoves == s.legalMoves
    // a reply that is not played changes neither board, count nor captures
    ensures AIAttempt(rules, s.pending[k], pick).None? ==>
              r.game == s.game && r.moveCount == s.moveCount && r.captured == s.captured
    // on an unfinished position, a reply that is not played leaves everything but the schedule
    ensures !rules.isGameOver(s.pending[k]) && AIAttempt(rules, s.pending[k], pick).None? ==>
              r == s.(pending := Fired(s.pending, k))
    // a reply on a finished position only reports the verdict
    ensures rules.isGameOver(s.pending[k]) ==>
              r.status == Terminated && r.gameStatus == Some(OutcomeOf(rules, s.pending[k]))
    // a played reply: one more ply, its capture (if any) recorded among White's losses only
    ensures AIAttempt(rules, s.pending[k], pick).Some? ==>
              var a := AIAttempt(rules, s.pending[k], pick).value;
              && r.game == a.next
              && r.moveCount == s.moveCount + 1
              && r.captured.w == s.captured.w + Record(a.captured)
              && r.captured.b == s.captured.b
              && (rules.isGameOver(a.next) ==> r.status == Terminated && r.gameStatus == Some(OutcomeOf(rules, a.next)))
              && (!rules.isGameOver(a.next) ==> r.status == Waiting && r.gameStatus == s.gameStatus)
    ensures Inv(rules, s) ==> Inv(rules, r)
  {
    var g := s.pending[k];
    var s0 := s.(pending := Fired(s.pending, k));
    if rules.isGameOver(g) then GameOver(rules, s0, g)
    else
      var moves := rules.moves(g);
      if |moves| == 0 then s0
      else
        match rules.apply(g, moves[ChooseIndex(pick, |moves|)])
        case None => s0
        case Some(a) =>
          var s1 := s0.(
            captured := s0.captured.(w := s0.captured.w + Record(a.captured)),
            game := a.next, moveCount := s0.moveCount + 1, status := Waiting);
          if rules.isGameOver(a.next) then GameOver(rules, s1, a.next) else s1
  }

  /** The end of the game on position `g`: record the verdict and stop. */
  function GameOver(rules: Rules, s: State, g: Position): (r: State)
    ensures r.gameStatus == Some(OutcomeOf(rules, g)) && r.status == Terminated
    ensures r.(gameStatus := s.gameStatus, status := s.status) == s
    ensures Inv(rules, s) ==> Inv(rules, r)
  {
    s.(gameStatus := Some(OutcomeOf(rules, g)), status := Terminated)
  }

  /**
   * The reset button: a fresh game, count and loss lists, no selection and no
   * verdict. Replies already scheduled are NOT cancelled.
   */
  function Reset(rules: Rules, s: State): (r: State)
    ensures r.game == rules.start && r.moveCount == 0 && r.captured == Captured([], [])
    ensures r.selected.None? && r.legalMoves == [] && r.gameStatus.None? && r.status == Idle
    ensures r.pending == s.pending
    ensures Inv(rules, s) ==> Inv(rules, r)
  {
    Initial(rules).(pending := s.pending)
  }

  /** The events that drive the session. */
  datatype Event =
    | SquareClicked(sq: Square)
    | ReplyFired(k: nat, pick: Fraction)   // the k-th scheduled reply fires
    | ResetClicked

  /** One event. A reply event naming no scheduled reply has nothing to fire and changes nothing. */
  function Step(rules: Rules, s: State, e: Event): (r: State)
    ensures Inv(rules, s) ==> Inv(rules, r)
  {
    match e
    case SquareClicked(sq) => Click(rules, s, sq)
    case ReplyFired(k, pick) => if k < |s.pending| then AIMove(rules, s, k, pick) else s
    case ResetClicked => Reset(rules, s)
  }

  /** A sequence of events, in order. */
  function Run(rules: Rules, s: State, events: seq<Event>): State
    decreases |events|
  {
    if events == [] then s else Run(rules, Step(rules, s, events[0]), events[1..])
  }

  lemma {:induction false} RunPreservesInv(rules: Rules, s: State, events: seq<Event>)
    requires Inv(rules, s)
    ensures Inv(rules, Run(rules, s, events))
    decreases |events|
  {
    if events != [] {
      RunPreservesInv(rules, Step(rules, s, events[0]), events[1..]);
    }
  }

  /** Every session reachable from the initial one satisfies the invariant. */
  lemma ReachableSatisfiesInv(rules: Rules, events: seq<Event>)
    ensures Inv(rules, Run(rules, Initial(rules), events))
  {
    RunPreservesInv(rules, Initial(rules), events);
  }

  /** In a reachable session the defensive "already finished" check of a reply never fires. */
  lemma ReplyNeverSeesFinishedGame(rules: Rules, events: seq<Event>, k: nat)
    requires k < |Run(rules, Initial(rules), events).pending|
    ensures !rules.isGameOver(Run(rules, Initial(rules), events).pending[k])
  {
    ReachableSatisfiesInv(rules, events);
  }

  /** Once a verdict is recorded, any number of clicks leaves the whole session as it is. */
  lemma {:induction false} ClicksIgnoredAfterGameOver(rules: Rules, s: State, events: seq<Event>)
    requires s.gameStatus.Some?
    requires forall i :: 0 <= i < |events| ==> events[i].SquareClicked?
    ensures Run(rules, s, events) == s
    decreases |events|
  {
    if events != [] {
      ClicksIgnoredAfterGameOver(rules, Step(rules, s, events[0]), events[1..]);
    }
  }

  /** One event other than a reset: the count does not drop, the loss lists only grow, a verdict stays. */
  lemma StepWithoutResetKeepsHistory(rules: Rules, s: State, e: Event)
    requires !e.ResetClicked?
    ensures var r := Step(rules, s, e);
      && s.moveCount <= r.moveCount
      && s.captured.w <= r.captured.w && s.captured.b <= r.captured.b
      && (s.gameStatus.Some? ==> r.gameStatus.Some?)
  {
  }

  /**
   * Between resets the move count never decreases, the loss lists are
   * append-only and a recorded verdict is never cleared: only a reset does that.
   */
  lemma {:induction false} HistoryKeptUntilReset(rules: Rules, s: State, events: seq<Event>)
    requires forall i :: 0 <= i < |events| ==> !events[i].ResetClicked?
    ensures var r := Run(rules, s, events);
      && s.moveCount <= r.moveCount
      && s.captured.w <= r.captured.w && s.captured.b <= r.captured.b
      && (s.gameStatus.Some? ==> r.gameStatus.Some?)
    decreases |events|
  {
    if events != [] {
      StepWithoutResetKeepsHistory(rules, s, events[0]);
      HistoryKeptUntilReset(rules, Step(rules, s, events[0]), events[1..]);
    }
  }

  /**
   * A full round: the click that completes a human move and the reply it
   * schedules together advance the count by two and leave the opponent's
   * position on the board.
   */
  lemma FullRound(rules: Rules, s: State, to: Square, pick: Fraction)
    requires CompletesMove(s, to)
    requires HumanAttempt(rules, s, s.selected.value, to).Some?
    requires !rules.isGameOver(HumanAttempt(rules, s, s.selected.value, to).value.next)
    requires AIAttempt(rules, HumanAttempt(rules, s, s.selected.value, to).value.next, pick).Some?
    ensures var r := Run(rules, s, [SquareClicked(to), ReplyFired(|s.pending|, pick)]);
      && r.moveCount == s.moveCount + 2
      && r.game == AIAttempt(rules, HumanAttempt(rules, s, s.selected.value, to).value.next, pick).value.next
      && r.pending == s.pending
  {
    var events := [SquareClicked(to), ReplyFired(|s.pending|, pick)];
    var s1 := Step(rules, s, events[0]);
    assert s1.pending == s.pending + [HumanAttempt(rules, s, s.selected.value, to).value.next];
    assert events[1..] == [ReplyFired(|s.pending|, pick)];
    var s2 := Step(rules, s1, events[1]);
    assert Fired(s1.pending, |s.pending|) == s.pending;
    assert Run(rules, s1, events[1..]) == Run(rules, s2, []);
  }

  /**
   * A reset does not cancel a scheduled reply: when it fires afterwards it
   * plays on the position it closed over, replaces the fresh board and counts
   * a ply, even though the new game has not started.
   */
  lemma ResetKeepsScheduledReply(rules: Rules, s: State, k: nat, pick: Fraction)
    requires k < |s.pending|
    requires AIAttempt(rules, s.pending[k], pick).Some?
    ensures var r := Run(rules, s, [ResetClicked, ReplyFired(k, pick)]);
      && r.game == AIAttempt(rules, s.pending[k], pick).value.next
      && r.moveCount == 1
      && r.pending == Fired(s.pending, k)
  {
    var events := [ResetClicked, ReplyFired(k, pick)];
    var s1 := Step(rules, s, events[0]);
    assert events[1..] == [ReplyFired(k, pick)];
    var s2 := Step(rules, s1, events[1]);
    assert Run(rules, s1, events[1..]) == Run(rules, s2, []);
  }

}
