/**
 * Entities of a chess match: colours, piece kinds, squares, the match state,
 * the error codes of the rules engine and the well-formedness of a state.
 */
module ChessTypes {

  datatype Option<+T> = None | Some(value: T)

  datatype Color = White | Black

  /** The other side. */
  function Opponent(c: Color): (o: Color)
    ensures o != c
  {
    if c == White then Black else White
  }

  datatype Kind = Pawn | Rook | Knight | Bishop | Queen | King

  /** A piece object: its kind, its colour and how many times it has moved. */
  datatype Piece = Piece(kind: Kind, color: Color, moveCount: int)

  /** The identity of a piece object; two white pawns are still two pieces. */
  type PieceId = nat

  /** A grid square, row and column; the board is 8 x 8. */
  datatype Pos = Pos(row: int, col: int)

  predicate OnBoard(p: Pos) {
    0 <= p.row < 8 && 0 <= p.col < 8
  }

  /**
   * The whole state of a match. `pieces` is the table of every piece object
   * ever created (captured and promoted-away pieces keep their entry);
   * `onBoard` and `captured` are the two rosters; `nextId` is the identity
   * the next created piece receives.
   */
  datatype Match = Match(
    board: map<Pos, PieceId>,
    pieces: map<PieceId, Piece>,
    onBoard: set<PieceId>,
    captured: set<PieceId>,
    turn: int,
    currentPlayer: Color,
    check: bool,
    checkMate: bool,
    enPassantVulnerable: Option<PieceId>,
    promoted: Option<PieceId>,
    nextId: PieceId)

  /** The rules violations reported to the player. */
  datatype Error =
    | NoPieceAtSource
    | NotYourPiece
    | NoPossibleMoves
    | IllegalDestination
    | SelfCheck
    | NothingToPromote
    | InvalidPromotionType

  datatype Result<+T> = Ok(value: T) | Err(error: Error)

  /** The state an operation leaves behind, together with its answer. */
  datatype Outcome<+T> = Outcome(state: Match, result: Result<T>)

  /**
   * The per-piece movement geometry: the squares the piece standing on the
   * given square may move to in the given state, ignoring self-check.
   */
  type MoveMask = (Match, Pos) -> set<Pos>

  /** No piece stands on two squares. */
  ghost predicate Injective(b: map<Pos, PieceId>) {
    forall p, q | p in b && q in b && b[p] == b[q] :: p == q
  }

  /**
   * The board and the rosters agree: the pieces on the board are exactly the
   * on-board roster, no piece is both on the board and captured, every piece
   * is in the table, and `nextId` is fresh.
   */
  ghost predicate Consistent(s: Match) {
    && (forall p | p in s.board :: OnBoard(p))
    && Injective(s.board)
    && s.board.Values == s.onBoard
    && s.onBoard !! s.captured
    && s.onBoard + s.captured <= s.pieces.Keys
    && (forall id | id in s.pieces :: id < s.nextId)
  }

  /** The on-board kings of colour `c`. */
  function KingIds(s: Match, c: Color): set<PieceId> {
    set id | id in s.onBoard && id in s.pieces && s.pieces[id].kind == King && s.pieces[id].color == c
  }

  /** A well-formed match: consistent, with exactly one king of each colour on the board. */
  ghost predicate Valid(s: Match) {
    Consistent(s) && |KingIds(s, White)| == 1 && |KingIds(s, Black)| == 1
  }

  /** The square `p` holds a piece of colour `c`. */
  predicate HasColor(s: Match, p: Pos, c: Color) {
    p in s.board && s.board[p] in s.pieces && s.pieces[s.board[p]].color == c
  }

  /** The square `p` holds a king (of either colour). */
  predicate HoldsKing(s: Match, p: Pos) {
    p in s.board && s.board[p] in s.pieces && s.pieces[s.board[p]].kind == King
  }
}
