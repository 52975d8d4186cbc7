# Chess rules engine — a Dafny model

This project models the rules engine of a two-player chess match, the class
`ChessMatch`. The engine validates a move, executes it, rejects (and
reverses) a move that leaves the mover's own king attacked, promotes a pawn
that reaches its last row, sets the check and checkmate flags, advances the
turn and tracks the pawn that is vulnerable to en passant. It also builds the
opening position.

The match state is an immutable record (`ChessTypes.Match`):
- the board is a map from squares to piece identities;
- a piece table holds each piece's kind, colour and move count;
- the on-board and captured rosters are sets of identities;
- the remaining fields are the turn counter, the player to move, the `check`
  and `checkMate` flags, and the two transient slots `enPassantVulnerable`
  and `promoted`.

Every operation is a pure function from state to state, or to an `Outcome`
that pairs the new state with a `Result`. The source reports failures with
exceptions; the model turns them into an `Error` value.

The movement geometry of each piece kind lives outside the engine. It is a
parameter, `MoveMask`, which gives the squares the piece on a square may move
to. What is assumed about it is `Moves.SoundMask`:
- every offered square is on the board;
- no offered square holds a piece of the mover's colour;
- when a king is offered a square two columns away, some piece stands on
  `Moves.RookFrom` (three columns right or four columns left of the king, on
  its row) and `Moves.RookTo` (the square next to the king, towards the
  target) is empty. That piece need not be a rook, and it stands on a corner
  only when the king is on column 4; the model moves whatever stands there,
  as makeMove does.

`performChessMove` additionally assumes `ChessMatch.TakesNoKing`: a legal move
(one that is offered and does not leave the mover in check) does not capture
a king. A king capture that leaves the mover in check is still modelled: it
is rejected with `SelfCheck`.

Modules:
- `ChessTypes` (chess_types.dfy): entities, errors, and the well-formedness
  predicates `Consistent` and `Valid`.
- `Moves` (moves.dfy): `makeMove` and `undoMove`, including the castling rook.
- `CheckAnalysis` (check.dfy): `king`, `testCheck` and `testCheckMate`. Each
  has a declarative predicate and a loop-based method proved equal to it.
- `ChessMatch` (chess_match.dfy): `performChessMove`, promotion, validation,
  `nextTurn`, and the `getCheckMate` accessor.
- `Setup` (setup.dfy): the constructor and `initialSetup`.

Two details the model follows as the code writes them:
- White promotes on grid row 0 and Black on grid row 7
  (src/chess/ChessMatch.java:88). Grid row 0 is rank 8 and grid row 7 is
  rank 1, so each side promotes on the far rank. `ChessMatch.PromotionRow`
  states this.
- `getCheckMate()` answers with the check flag (src/chess/ChessMatch.java:43-45).
  The model keeps that accessor as written (`ChessMatch.GetCheckMate`) and
  records it under Findings.

## Model

| member | source | states |
|---|---|---|
| ChessTypes.Opponent | src/chess/ChessMatch.java:224-226 | The opponent of a colour is always the other colour. |
| Moves.MakeMove | src/chess/ChessMatch.java:140-169 | makeMove keeps the state consistent and can always be undone. The mover stands on the target with its move count one higher, and the source is left empty. Status fields and piece identities are unchanged. |
| Moves.UndoMove | src/chess/ChessMatch.java:171-199 | undoMove puts the piece from the target back on the source with its count one lower. A captured piece returns to the target and moves from the captured roster back to the on-board roster; without a capture both rosters are unchanged. |
| Moves.MakeMoveRosters | src/chess/ChessMatch.java:141-149 | A capture happens exactly when the target is occupied and differs from the source. The occupant, and only it, moves from the on-board roster to the captured roster, so the combined size of the rosters is conserved. |
| Moves.UndoMakeMove | src/chess/ChessMatch.java:140-199 | Undo is exact: undoing a move restores the whole state. This covers the board, both rosters, every move count (including a castling rook's) and every other field. |
| Moves.RestoreDisplace | src/chess/ChessMatch.java:141-148 | Returning the mover and its victim undoes the mover's part of makeMove. |
| Moves.ShiftBack | src/chess/ChessMatch.java:150-166 | Moving the castling rook across and back, with opposite count changes, changes nothing. |
| Moves.RestoreShiftCommute | src/chess/ChessMatch.java:141-199 | Returning the mover and its victim commutes with shifting the castling rook by any count change: +1 as makeMove does, -1 as undoMove does. The two touch disjoint squares and pieces. |
| Moves.CastlingMovesRook | src/chess/ChessMatch.java:150-166 | A king moving two columns right brings the rook from column +3 to column +1. Moving two columns left brings it from column -4 to column -1. The rook's count rises by one, and no square other than the four involved changes. |
| Moves.MakeMoveFrame | src/chess/ChessMatch.java:140-149 | Apart from castling, makeMove changes no square other than the source and the target, and no piece entry other than the mover's. |
| Moves.MakeMoveKings | src/chess/ChessMatch.java:140-149 | A move keeps every king except one it captures. |
| CheckAnalysis.FindKing | src/chess/ChessMatch.java:228-236 | With exactly one king of the colour on the board, the search returns that king's square, and it is the only square holding one. |
| CheckAnalysis.TestCheck | src/chess/ChessMatch.java:238-249 | testCheck is true exactly when some opposing piece on the board has the king's square in its mask. |
| CheckAnalysis.TryMove | src/chess/ChessMatch.java:260-270 | One trial of testCheckMate answers whether the side is still in check after the move, and it hands back the state it was given. |
| CheckAnalysis.TryPiece | src/chess/ChessMatch.java:256-273 | For one piece, the search answers whether every destination in its mask leaves the side in check, and the state is unchanged. |
| CheckAnalysis.TestCheckMate | src/chess/ChessMatch.java:251-276 | testCheckMate is true exactly when the side is in check and every trial move of every piece of that side leaves it in check. The observable state is unchanged. |
| ChessMatch.NewPieceKind | src/chess/ChessMatch.java:133-138 | newPiece always creates a promotable kind (bishop, knight, rook or queen). |
| ChessMatch.NewPieceKindRoundTrip | src/chess/ChessMatch.java:133-138 | Each of B, N, R and Q creates the kind it names. |
| ChessMatch.PromotionCodeRoundTrip | src/chess/ChessMatch.java:133-138 | Every promotable kind is created by its own code. |
| ChessMatch.ReplacePromotedPiece | src/chess/ChessMatch.java:113-131 | Fails with NothingToPromote exactly when nothing is pending. Fails with InvalidPromotionType exactly when a piece is pending and the code is not B, N, R or Q. A failure leaves the state unchanged. On success, a fresh unmoved piece of the chosen kind and the pending piece's colour replaces the pending piece on its square and in the roster. Captured pieces, other squares and the pending slot are unchanged, and so are the turn, the player to move, both flags and the en-passant slot. |
| ChessMatch.ReplacePromotedPieceKings | src/chess/ChessMatch.java:122-128 | The replacement removes no king except the replaced piece. |
| ChessMatch.ReplacePromotedPieceValid | src/chess/ChessMatch.java:113-131 | Replacing a pending piece that is not a king keeps one king of each colour. |
| ChessMatch.Promote | src/chess/ChessMatch.java:85-93 | The pending slot is set exactly when a pawn reached its promotion row (row 0 for White, row 7 for Black). The pawn then leaves the board and roster, and a fresh queen of its colour takes its square and becomes the pending piece. Otherwise the board, pieces and rosters are unchanged. |
| ChessMatch.PromoteToQueen | src/chess/ChessMatch.java:89-90 | Marking the pawn as pending and replacing it with "Q" puts a fresh queen on the same square, in the roster and in the slot. The roster keeps its size. |
| ChessMatch.PromoteKings | src/chess/ChessMatch.java:86-93 | Promotion never adds or removes a king. |
| ChessMatch.NextTurn | src/chess/ChessMatch.java:219-222 | nextTurn raises the turn by one and gives the move to the other side; nothing else changes. |
| ChessMatch.ValidateSourcePosition | src/chess/ChessMatch.java:201-211 | The source passes exactly when it holds a piece of the player to move whose mask is not empty. NoPieceAtSource is reported exactly when the square is empty. NotYourPiece is reported exactly when it holds a piece of the other colour. NoPossibleMoves is reported exactly when it holds a piece of the player to move whose mask is empty. |
| ChessMatch.ValidateTargetPosition | src/chess/ChessMatch.java:213-217 | The target passes exactly when it is in the source piece's mask; otherwise IllegalDestination is reported. |
| ChessMatch.CompleteMove | src/chess/ChessMatch.java:83-108 | Completing a move keeps the state consistent and keeps the kings. Its board, pieces, rosters and pending slot are those of the promotion step. |
| ChessMatch.ExecuteMove | src/chess/ChessMatch.java:77-82 | After validation, the move fails with SelfCheck exactly when the trial leaves the mover in check, and the state is then unchanged. A success leaves a valid match. |
| ChessMatch.LegalKeepsKings | src/chess/ChessMatch.java:77-82 | A legal move that takes no king fits the mask, and for each colour it leaves the set of that colour's kings on the board unchanged. |
| ChessMatch.PerformChessMove | src/chess/ChessMatch.java:72-111 | Each of the five errors is reported exactly when its own test fails and every earlier test passed, in source order. Success happens exactly when the move is offered and does not leave the mover in check. A failure leaves the state unchanged; a success leaves a valid match. |
| ChessMatch.PerformChessMoveCapture | src/chess/ChessMatch.java:77-110 | The answer is the target's former occupant, if any, and only that piece joins the captured roster. The rosters keep their combined size and the source square is empty. |
| ChessMatch.PerformChessMovePromotion | src/chess/ChessMatch.java:86-93 | After a successful move, a piece is pending exactly when a pawn reached its promotion row. The target then holds a fresh unmoved queen of the mover's colour and the pawn is off the board. Otherwise the target holds the mover with its count one higher. |
| ChessMatch.PerformChessMoveTurn | src/chess/ChessMatch.java:95-101 | check equals testCheck of the opponent on the landed state. If the opponent is mated, checkMate is set and the turn and player are unchanged. Otherwise the turn rises by one and the opponent is to move. |
| ChessMatch.PerformChessMoveEnPassant | src/chess/ChessMatch.java:103-108 | After every successful move, mate or not, the en-passant slot names the mover exactly when it is a pawn whose row changed by two, and is empty otherwise. |
| ChessMatch.PerformChessMoveFrame | src/chess/ChessMatch.java:77-93 | Apart from castling, a successful move changes no square other than the source and the target. |
| ChessMatch.PromotionChoice | src/chess/ChessMatch.java:113-131 | After a move that promoted, the player's choice is accepted exactly for the four codes. An accepted choice puts an unmoved piece of that kind and the mover's colour on the target and leaves a valid match. |
| ChessMatch.GetCheckMate | src/chess/ChessMatch.java:43-45 | The accessor as written answers with the check flag. It differs from the match being over exactly when the check and checkmate flags differ. |
| ChessMatch.GetCheckMateReportsCheck | src/chess/ChessMatch.java:43-45 | After a successful move, the accessor as written reports whether the opponent is in check on the landed state. |
| ChessMatch.GetCheckMateDisagrees | src/chess/ChessMatch.java:43-45 | A move that checks the opponent without mating, in a match not yet over, makes the accessor as written answer true while the match goes on. |
| ChessMatch.GameOverAfterMove | src/chess/ChessMatch.java:97-98 | The corrected accessor reports the end of the match after a successful move exactly when the match was already over or the move mated the opponent. |
| Setup.PlaceNewPiece | src/chess/ChessMatch.java:278-281 | placenewPiece puts a fresh piece on an empty square and adds it to the on-board roster. Nothing else changes and the state stays consistent. |
| Setup.Place | src/chess/ChessMatch.java:283-317 | Each prefix of the thirty-two placements is a consistent state. Every occupied square holds a piece created by an earlier placement, standing on that placement's square. |
| Setup.PlacedAt | src/chess/ChessMatch.java:283-317 | After n placements, placement i < n stands on its own square and is the piece that placement created. |
| Setup.PlaceRoster | src/chess/ChessMatch.java:278-281 | After n placements there are n pieces on the board and none captured. |
| Setup.PlaceStatus | src/chess/ChessMatch.java:24-28 | Placing pieces leaves turn 1, White to move, both flags clear and both slots empty. |
| Setup.PlaceKings | src/chess/ChessMatch.java:288-305 | After all placements each colour has exactly one king on the board: the fifth piece of its back rank. |
| Setup.InitialMatch | src/chess/ChessMatch.java:24-29 | The opening position is a valid match (one king per colour), with turn 1, White to move, no flags set and both slots empty. |
| Setup.InitialPieces | src/chess/ChessMatch.java:283-317 | The opening position has thirty-two unmoved pieces on the board and none captured. White's king is on e1 and Black's on e8. |
| Setup.InitialPawns | src/chess/ChessMatch.java:292-316 | In the opening position White's pawns stand on grid row 6 and Black's on row 1, six rows from their promotion rows. |

## Left out

- Movement geometry of each piece kind (possibleMoves, castling eligibility,
  the en-passant diagonal): the piece classes are not part of this model. The
  geometry is the `MoveMask` parameter, and `isThereAnyPossibleMove` and
  `possibleMove` become "the mask is not empty" and "the target is in the
  mask". `Moves.SoundMask` is assumed of it.
- En-passant capture: makeMove does not remove a pawn captured en passant, so
  neither does the model. Only the vulnerability slot is tracked.
- `Board` storage and the `ChessPosition`/`Position` conversion: those classes
  are not part of this model. The board is a map over 0..7 rows and columns,
  and `Setup.Square` takes rank r to grid row 8 - r, the usual convention of
  that conversion.
- List order and stream filtering in `king`, `testCheck` and `testCheckMate`:
  the rosters are sets, and the loops pick pieces in an unspecified order.
  Every answer proved does not depend on the order.
- Exceptions and their messages: the `Error` values take their place.
- ChessMatch.PerformChessMove: requires one king of each colour
  (`ChessTypes.Valid`). The source throws `IllegalStateException` from `king`
  when one is missing, and that internal failure is not modelled.
- ChessMatch.PerformChessMove: requires `ChessMatch.TakesNoKing`, which
  excludes only legal king captures. After such a capture the source's
  `testCheck(opponent(currentPlayer))` (src/chess/ChessMatch.java:95) calls
  `king` for a colour that has none and throws `IllegalStateException`; that
  internal failure is not modelled. A king capture that leaves the mover in
  check is modelled: it is rejected with SelfCheck at lines 79-81.
- ChessMatch.ReplacePromotedPiece: requires the pending piece to be on the
  board. After a replacement the source leaves the old piece in `promoted`, so
  a second call would look up the position of a piece no longer on the board,
  which is behaviour of `ChessPosition` not modelled here.
- ChessMatch.PerformChessMoveFrame: covers moves other than castling;
  castling's frame is `Moves.CastlingMovesRook`.
- Integer width: turn and move counts are unbounded integers. The source's
  `int` would wrap only after about two thousand million moves.
- Play after checkmate: the source does not refuse moves once `checkMate` is
  set, and neither does the model. No property is claimed about such moves
  beyond the ones above.
- `possibleMoves` (src/chess/ChessMatch.java:65-70): it is
  `ChessMatch.ValidateSourcePosition` followed by the piece's geometry, which
  here is the `MoveMask` parameter, so it adds no behaviour of its own.
- `getPieces`, the plain getters and the console interface: these are
  presentation code.

## Findings

| source | as written | input that shows it | evidently intended | confidence | as-written member | corrected member |
|---|---|---|---|---|---|---|
| src/chess/ChessMatch.java:43-45 | `getCheckMate()` returns `getCheck()`, the check flag | Any successful move that gives check without mating, in a match not yet over: the accessor answers true while `checkMate` stays false and the turn passes to the opponent | return the `checkMate` field | high; not executed | ChessMatch.GetCheckMateDisagrees | ChessMatch.GameOverAfterMove |
