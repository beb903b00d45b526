# Age of AI Chess: the game session

This project models the game session of the Age of AI Chess page. A human plays White by clicking squares. An automated opponent plays Black by choosing uniformly at random among its legal moves. The model covers what the page does with each click, the human's ply, the opponent's delayed reply, the end of the game and the reset button. It then proves what holds across any sequence of those events.

The chess rules are not modelled. They come from an external rules engine. `ChessRules.Rules` is an arbitrary record of total functions over an opaque `Position`:

- the starting position;
- the piece on a square;
- the destinations from one square;
- all legal moves;
- applying a move, which may fail;
- game-over, checkmate and side to move.

So every property below holds for every rules engine.

Modules:

- `ChessRules`: squares, pieces, moves and the engine interface.
- `Policy`: the three decisions the page makes itself:
  - the queen promotion;
  - the verdict on a finished game;
  - the random index into the opponent's moves.
- `GameMachine`: the session as a value (`State`), one transition function per handler, the invariant `Inv`, event sequences (`Run`) and the lemmas about them.
- `App`: the class `Session`. It holds the page's state as fields. Its methods update them one setter at a time, as the handlers do. Each method is proved to make exactly its `GameMachine` transition and to keep `Inv`.

The source's timer (`setTimeout`) becomes the field `pending`. It holds the position closed over by every reply that is scheduled and has not fired yet. The delays are random, so any pending reply may fire next: `AIMove(k, pick)` fires the k-th one. `Math.random()` becomes the parameter `pick`, a real in [0, 1).

The page's code behaves as follows, and the model follows it:

- **Reset does not cancel a pending reply.** The reply still fires after the reset. It plays on the position it closed over, replaces the fresh board and counts a ply (`GameMachine.ResetKeepsScheduledReply`).
- **A finished game ignores clicks only.** A reply scheduled before a reset can still change the board after a later game has ended. Only clicks are proved to be ignored once a verdict exists (`GameMachine.ClicksIgnoredAfterGameOver`).
- **Clicks are not blocked while the opponent is thinking.** A click is ignored only once `gameStatus` is set. It is not ignored while the status is `Processing`.
- **The status has four labels:** `Idle`, `Processing`, `Waiting` and `Terminated`.
- **A reply leaves the selection alone.** It does not clear the selection or its destinations. So a selection need not stay on a White piece, and its destinations are not refreshed after the board changes.

## Model

| member | source | states |
|---|---|---|
| `Policy.PromotionFor` | src/App.jsx:207-215 | a queen is requested exactly when the moving piece is a pawn landing on its own side's farthest rank; otherwise there is no promotion |
| `Policy.OutcomeOf` | src/App.jsx:275-283 | the verdict is a checkmate exactly when the engine reports one, and then the winner is the side not to move; otherwise it is a draw |
| `Policy.ChooseIndex` | src/App.jsx:253 | the opponent's random index always lies in [0, number of moves) |
| `Policy.ChooseIndexPreimage` | src/App.jsx:253 | the draws that give index i are exactly those in [i/n, (i+1)/n), an interval of width 1/n for every i, so each legal move is equally likely |
| `Policy.ChooseIndexReachesEvery` | src/App.jsx:253 | every index in [0, n) is produced by some random draw, so every legal move can be played |
| `GameMachine.Initial` | src/App.jsx:140-147 | the session starts on the engine's start position with nothing selected and no destinations, status idle, no verdict, count 0, empty loss lists and nothing scheduled, and satisfies the invariant |
| `GameMachine.SelectPiece` | src/App.jsx:198-202 | selecting sets the selection to the square and its destinations to exactly the engine's destinations from it; nothing else changes |
| `GameMachine.Click` | src/App.jsx:160-196 | after a verdict a click changes nothing; with nothing selected a square is selected iff it holds a White piece, and a click on any other square changes nothing; clicking the selected square, or a square that is neither a destination nor a White piece, clears the selection; a White non-destination is reselected; a click that completes no move changes only the selection; a click on a destination is the human's ply; the invariant is kept |
| `GameMachine.HumanMove` | src/App.jsx:204-245 | the selection is always cleared; a rejected move changes nothing else; an accepted move advances the count by one, appends its capture (if any) to Black's losses only, and either records the verdict without scheduling a reply or schedules exactly one reply on the new position; the invariant is kept |
| `GameMachine.AIAttempt` | src/App.jsx:247-255 | a reply is played exactly when the position is unfinished, has legal moves and the engine accepts the move at the drawn index; it is then the engine's answer to that move, one of its legal moves |
| `GameMachine.EveryLegalReplyPlayable` | src/App.jsx:250-255 | on an unfinished position every legal move is the opponent's reply for some random draw |
| `GameMachine.AIMove` | src/App.jsx:247-273 | the fired reply leaves the schedule and the selection is untouched; a reply not played changes neither board, count nor losses, and on an unfinished position it changes nothing but the schedule; a reply on a finished position only records the verdict; a played reply advances the count by one and appends its capture (if any) to White's losses only, then records the verdict if the game ended; the invariant is kept |
| `GameMachine.GameOver` | src/App.jsx:275-285 | the verdict of the finished position is recorded and the status becomes terminated; nothing else changes |
| `GameMachine.Reset` | src/App.jsx:287-296 | the board returns to the start, the count to 0, both loss lists to empty, with no selection, no verdict and status idle; scheduled replies are kept |
| `GameMachine.Step` | src/App.jsx:160-296 | every event (click, reply, reset) keeps the invariant: no destinations without a selection, no more captures than plies, no terminated status without a verdict, no reply scheduled on a finished position |
| `GameMachine.RunPreservesInv` | src/App.jsx:160-296 | the invariant holds after any sequence of events |
| `GameMachine.ReachableSatisfiesInv` | src/App.jsx:140-147 | every session reachable from the initial one satisfies the invariant |
| `GameMachine.ReplyNeverSeesFinishedGame` | src/App.jsx:238-248 | in a reachable session no scheduled reply holds a finished position, so the reply's game-over check never fires |
| `GameMachine.ClicksIgnoredAfterGameOver` | src/App.jsx:161 | once a verdict is recorded, any sequence of clicks leaves the whole session unchanged |
| `GameMachine.StepWithoutResetKeepsHistory` | src/App.jsx:223-272 | one click or reply never lowers the count, only appends to the loss lists and never clears a verdict |
| `GameMachine.HistoryKeptUntilReset` | src/App.jsx:223-292 | between resets the count never decreases, the loss lists are append-only and a verdict is never cleared; only a reset clears it |
| `GameMachine.FullRound` | src/App.jsx:231-267 | a completed human move followed by its reply advances the count by exactly two and leaves the opponent's position on the board |
| `GameMachine.ResetKeepsScheduledReply` | src/App.jsx:244-296 | any reply scheduled before a reset still fires after it, replacing the fresh board, setting the count to 1 and leaving the other scheduled replies |
| `App.Session.constructor` | src/App.jsx:140-147 | the new session is the initial state and is valid |
| `App.Session.Click` | src/App.jsx:160-196 | the click handler makes exactly the `Click` transition and keeps the invariant |
| `App.Session.SelectPiece` | src/App.jsx:198-202 | makes exactly the `SelectPiece` transition and keeps the invariant |
| `App.Session.HumanMove` | src/App.jsx:204-245 | makes exactly the `HumanMove` transition and keeps the invariant |
| `App.Session.AIMove` | src/App.jsx:247-273 | the firing of a scheduled reply makes exactly the `AIMove` transition and keeps the invariant |
| `App.Session.GameOver` | src/App.jsx:275-285 | makes exactly the `GameOver` transition |
| `App.Session.Reset` | src/App.jsx:287-296 | makes exactly the `Reset` transition and keeps the invariant |

## Left out

- The chess rules are out of scope: legal moves, move application, check, checkmate, draw and FEN handling. They belong to the external `chess.js` library, and every `Rules` value is allowed. Copying a position through its FEN string (src/App.jsx:205, 265) drops the game's move history. The opaque `Position` does not show that loss.
- The log panel is not modelled: `addLog`, its messages and the start-up messages (src/App.jsx:149-157). They are presentation only.
- The timer delays of 600 to 1400 ms are not modelled. Only the order in which events happen matters to the session.
- `Math.random` is a double in the source. The model uses an exact real in [0, 1), so floating-point rounding is not captured.
- The opponent's move mutates the closed-over position object in place (src/App.jsx:255), and the board is then replaced by a copy. The model treats positions as values. This shows no difference: without a reset the board is replaced at once, and after a reset the mutated object is no longer on the board.
- React's rendering and setter batching are not modelled. No handler reads state that it has already set during the same event.
- The rendering components are not part of this model: `CustomBoard`, `CapturedPieces`, `AILog` and `Metrics` (src/App.jsx:16-134). `Metrics` also uses random display values.
- src/themes.js is not part of this model. It holds only theme configuration data.
