/**
 * The match orchestrator (ChessMatch.performChessMove and its helpers):
 * validation, the self-check rejection, promotion, the check and checkmate
 * flags, the turn, and the en-passant slot.
 */
module ChessMatch {
  import opened ChessTypes
  import opened Moves
  import opened CheckAnalysis

  /** The four type codes a promotion accepts. */
  predicate IsPromotionCode(code: string) {
    code == "B" || code == "N" || code == "R" || code == "Q"
  }

  /** A kind a pawn may be promoted to. */
  predicate Promotable(k: Kind) {
    k == Bishop || k == Knight || k == Rook || k == Queen
  }

  /** newPiece: the kind a type code creates; every code other than B, N and Q gives a rook. */
  function NewPieceKind(code: string): (k: Kind)
    ensures Promotable(k)
  {
    if code == "B" then Bishop
    else if code == "N" then Knight
    else if code == "Q" then Queen
    else Rook
  }

  /** The type code naming a promotable kind. */
  function PromotionCode(k: Kind): (code: string)
    requires Promotable(k)
    ensures IsPromotionCode(code)
  {
    match k
    case Bishop => "B"
    case Knight => "N"
    case Rook => "R"
    case Queen => "Q"
  }

  /** Each valid type code creates the kind it names. */
  lemma NewPieceKindRoundTrip(code: string)
    requires IsPromotionCode(code)
    ensures PromotionCode(NewPieceKind(code)) == code
  {
  }

  /** Every promotable kind is created by its own code. */
  lemma PromotionCodeRoundTrip(k: Kind)
    requires Promotable(k)
    ensures NewPieceKind(PromotionCode(k)) == k
  {
  }

  /** The square a piece on the board stands on. */
  function SquareOf(s: Match, id: PieceId): (p: Pos)
    requires Consistent(s) && id in s.onBoard
    ensures p in s.board && s.board[p] == id
  {
    var p :| p in s.board && s.board[p] == id; p
  }

  /** A piece stands on one square only. */
  lemma SquareOfUnique(s: Match, id: PieceId, p: Pos)
    requires Consistent(s) && p in s.board && s.board[p] == id
    ensures id in s.onBoard && SquareOf(s, id) == p
  {
    assert id in s.board.Values;
  }

  /**
   * replacePromotedPiece: the pending promoted piece is taken off its square
   * and off the on-board roster, and a new piece of the chosen kind and the
   * same colour, never moved, takes its place. The pending slot itself is
   * left as it was.
   */
  function ReplacePromotedPiece(s: Match, code: string): (r: Outcome<PieceId>)
    requires Consistent(s)
    requires s.promoted.Some? ==> s.promoted.value in s.onBoard
    ensures r.result == Err(NothingToPromote) <==> s.promoted.None?
    ensures r.result == Err(InvalidPromotionType) <==> s.promoted.Some? && !IsPromotionCode(code)
    ensures r.result.Ok? <==> s.promoted.Some? && IsPromotionCode(code)
    ensures r.result.Err? ==> r.state == s
    ensures r.result.Ok? ==>
      var prev := s.promoted.value;
      var made := r.result.value;
      && made !in s.pieces
      && r.state.pieces == s.pieces[made := Piece(NewPieceKind(code), s.pieces[prev].color, 0)]
      && r.state.onBoard == s.onBoard - {prev} + {made}
      && r.state.captured == s.captured
      && r.state.board == s.board[SquareOf(s, prev) := made]
      && r.state.promoted == s.promoted
      && r.state.(board := s.board, pieces := s.pieces, onBoard := s.onBoard, nextId := s.nextId) == s
      && Consistent(r.state)
  {
    if s.promoted.None? then
      Outcome(s, Err(NothingToPromote))
    else if !IsPromotionCode(code) then
      Outcome(s, Err(InvalidPromotionType))
    else
      var prev := s.promoted.value;
      var pos := SquareOf(s, prev);
      var made := s.nextId;
      var pc := Piece(NewPieceKind(code), s.pieces[prev].color, 0);
      ReplaceFacts(s.board, pos, made);
      Outcome(
        s.(board := s.board[pos := made],
           pieces := s.pieces[made := pc],
           onBoard := s.onBoard - {prev} + {made},
           nextId := s.nextId + 1),
        Ok(made))
  }

  /** Replacing a promoted piece keeps every king except the replaced piece. */
  lemma ReplacePromotedPieceKings(s: Match, code: string, c: Color)
    requires Consistent(s) && s.promoted.Some? && s.promoted.value in s.onBoard && IsPromotionCode(code)
    ensures KingIds(ReplacePromotedPiece(s, code).state, c) == KingIds(s, c) - {s.promoted.value}
  {
  }

  /** The pending promoted piece, if any, is on the board. */
  ghost predicate PendingOnBoard(s: Match) {
    s.promoted.Some? ==> s.promoted.value in s.onBoard
  }

  /** A pawn of colour `c` landing on `row` promotes: White on grid row 0, Black on grid row 7. */
  predicate PromotionRow(c: Color, row: int) {
    (c == White && row == 0) || (c == Black && row == 7)
  }

  /**
   * The promotion step of performChessMove: the pending slot is cleared, and a
   * pawn that reached its promotion row is replaced by a queen, which becomes
   * the pending promoted piece.
   */
  function Promote(s: Match, tgt: Pos): (r: Match)
    requires Consistent(s) && tgt in s.board
    ensures Consistent(r)
    ensures var id := s.board[tgt];
      var pc := s.pieces[id];
      && (r.promoted.Some? <==> pc.kind == Pawn && PromotionRow(pc.color, tgt.row))
      && (r.promoted.Some? ==>
            && r.promoted.value !in s.pieces
            && r.board == s.board[tgt := r.promoted.value]
            && r.pieces == s.pieces[r.promoted.value := Piece(Queen, pc.color, 0)]
            && r.onBoard == s.onBoard - {id} + {r.promoted.value})
      && PendingOnBoard(r)
      && (r.promoted.None? ==> r.board == s.board && r.pieces == s.pieces && r.onBoard == s.onBoard)
      && r.captured == s.captured
      && |r.onBoard| == |s.onBoard|
      && r.(board := s.board, pieces := s.pieces, onBoard := s.onBoard, promoted := s.promoted, nextId := s.nextId) == s
  {
    var pc := s.pieces[s.board[tgt]];
    if pc.kind == Pawn && PromotionRow(pc.color, tgt.row) then PromoteToQueen(s, tgt)
    else s.(promoted := None)
  }

  /**
   * The pawn on `tgt` becomes the pending promoted piece and is replaced at
   * once by a new queen, which then becomes the pending piece.
   */
  function PromoteToQueen(s: Match, tgt: Pos): (r: Match)
    requires Consistent(s) && tgt in s.board
    ensures Consistent(r)
    ensures var id := s.board[tgt];
      && r.promoted.Some? && r.promoted.value !in s.pieces
      && r.board == s.board[tgt := r.promoted.value]
      && r.pieces == s.pieces[r.promoted.value := Piece(Queen, s.pieces[id].color, 0)]
      && r.onBoard == s.onBoard - {id} + {r.promoted.value}
      && r.promoted.value in r.onBoard
      && r.captured == s.captured
      && |r.onBoard| == |s.onBoard|
      && r.(board := s.board, pieces := s.pieces, onBoard := s.onBoard, promoted := s.promoted, nextId := s.nextId) == s
  {
    var id := s.board[tgt];
    assert id in s.board.Values;
    var pending := s.(promoted := Some(id));
    assert Consistent(pending);
    SquareOfUnique(pending, id, tgt);
    var r := ReplacePromotedPiece(pending, "Q");
    SwapSize(s.onBoard, id, r.result.value);
    r.state.(promoted := Some(r.result.value))
  }

  /** Swapping one member of a set for a non-member keeps its size. */
  lemma SwapSize<T>(xs: set<T>, a: T, b: T)
    requires a in xs && b !in xs
    ensures |xs - {a} + {b}| == |xs|
  {
    assert |xs - {a}| == |xs| - 1;
  }

  /** Promotion never adds or removes a king: the piece it replaces is a pawn. */
  lemma PromoteKings(s: Match, tgt: Pos, c: Color)
    requires Consistent(s) && tgt in s.board
    ensures KingIds(Promote(s, tgt), c) == KingIds(s, c)
  {
    var r := Promote(s, tgt);
    if r.promoted.Some? {
      SwapKings(s, r, s.board[tgt], r.promoted.value, Piece(Queen, s.pieces[s.board[tgt]].color, 0), c);
    }
  }

  /** Swapping a piece that is not a king for a new piece that is not a king keeps the kings. */
  lemma SwapKings(s: Match, r: Match, id: PieceId, q: PieceId, pc: Piece, c: Color)
    requires id in s.pieces && s.pieces[id].kind != King && pc.kind != King && q !in s.pieces
    requires r.onBoard == s.onBoard - {id} + {q} && r.pieces == s.pieces[q := pc]
    ensures KingIds(r, c) == KingIds(s, c)
  {
    forall k | k in KingIds(r, c)
      ensures k in KingIds(s, c)
    {
      assert k != q && k != id;
    }
    forall k | k in KingIds(s, c)
      ensures k in KingIds(r, c)
    {
      assert k != q && k != id;
    }
  }

  /** nextTurn: the turn counter goes up by one and the other side is to move; nothing else changes. */
  function NextTurn(s: Match): (r: Match)
    ensures r.turn == s.turn + 1
    ensures r.currentPlayer != s.currentPlayer
    ensures r.(turn := s.turn, currentPlayer := s.currentPlayer) == s
  {
    s.(turn := s.turn + 1, currentPlayer := Opponent(s.currentPlayer))
  }

  /** validateSourcePosition: an occupied source, a piece of the side to move, and a piece that can move somewhere. */
  function ValidateSourcePosition(s: Match, src: Pos, mask: MoveMask): (r: Option<Error>)
    ensures r.None? <==> HasColor(s, src, s.currentPlayer) && mask(s, src) != {}
    ensures r == Some(NoPieceAtSource) <==> src !in s.board
    ensures r == Some(NotYourPiece) <==> src in s.board && !HasColor(s, src, s.currentPlayer)
    ensures r == Some(NoPossibleMoves) <==> HasColor(s, src, s.currentPlayer) && mask(s, src) == {}
  {
    if src !in s.board then Some(NoPieceAtSource)
    else if !HasColor(s, src, s.currentPlayer) then Some(NotYourPiece)
    else if mask(s, src) == {} then Some(NoPossibleMoves)
    else None
  }

  /** validateTargetPosition: the target must be one of the source piece's possible moves. */
  function ValidateTargetPosition(s: Match, src: Pos, tgt: Pos, mask: MoveMask): (r: Option<Error>)
    ensures r.None? <==> tgt in mask(s, src)
    ensures r.Some? ==> r.value == IllegalDestination
  {
    if tgt in mask(s, src) then None else Some(IllegalDestination)
  }

  /** The geometry offers the move `src` to `tgt` to the side to move. */
  predicate Offered(s: Match, src: Pos, tgt: Pos, mask: MoveMask) {
    HasColor(s, src, s.currentPlayer) && tgt in mask(s, src)
  }

  /** An offered move that does not leave the mover's own king attacked. */
  predicate Legal(s: Match, src: Pos, tgt: Pos, mask: MoveMask)
    requires Consistent(s) && SoundMask(mask)
  {
    Offered(s, src, tgt, mask) && !TrialInCheck(s, src, tgt, s.currentPlayer, mask)
  }

  /**
   * What performChessMove needs to avoid the internal failure of a missing
   * king: a legal move never lands on a king. A king capture that leaves the
   * mover in check is still allowed; it is rejected as a self-check before
   * the opponent's king is looked up.
   */
  predicate TakesNoKing(s: Match, src: Pos, tgt: Pos, mask: MoveMask)
    requires Consistent(s) && SoundMask(mask)
  {
    Legal(s, src, tgt, mask) ==> !HoldsKing(s, tgt)
  }

  /** The en-passant slot after a move from `src` to `tgt` of the piece `id`: set exactly for a pawn moving two rows. */
  function EnPassantSlot(isPawn: bool, id: PieceId, src: Pos, tgt: Pos): Option<PieceId> {
    if isPawn && (tgt.row == src.row - 2 || tgt.row == src.row + 2) then Some(id) else None
  }

  /**
   * The part of performChessMove after a move that does not leave the mover
   * in check: promotion, the check flag for the opponent, checkmate or the
   * next turn, and the en-passant slot.
   */
  function CompleteMove(s: Match, src: Pos, tgt: Pos, mask: MoveMask): (r: Match)
    requires Consistent(s) && SoundMask(mask) && tgt in s.board
    ensures Consistent(r) && PendingOnBoard(r)
    ensures KingIds(r, White) == KingIds(s, White) && KingIds(r, Black) == KingIds(s, Black)
    ensures var p := Promote(s, tgt);
      r.board == p.board && r.pieces == p.pieces && r.onBoard == p.onBoard && r.captured == p.captured && r.promoted == p.promoted
  {
    var moved := s.board[tgt];
    PromoteKings(s, tgt, White);
    PromoteKings(s, tgt, Black);
    var s2 := Promote(s, tgt);
    var opp := Opponent(s.currentPlayer);
    var s3 := s2.(check := InCheck(s2, opp, mask));
    var s4 := if IsCheckMate(s3, opp, mask) then s3.(checkMate := true) else NextTurn(s3);
    s4.(enPassantVulnerable := EnPassantSlot(s.pieces[moved].kind == Pawn, moved, src, tgt))
  }

  /**
   * performChessMove: validate the source and the target, make the move,
   * undo it and fail if it leaves the mover in check, and otherwise complete
   * it. The answer is the captured piece, if any. Each failure is reported
   * exactly when its own condition holds and every earlier test passed, and a
   * failure leaves the match as it was.
   */
  function PerformChessMove(s: Match, src: Pos, tgt: Pos, mask: MoveMask): (o: Outcome<Option<PieceId>>)
    requires Valid(s) && SoundMask(mask) && TakesNoKing(s, src, tgt, mask)
    ensures o.result == Err(NoPieceAtSource) <==> src !in s.board
    ensures o.result == Err(NotYourPiece) <==> src in s.board && !HasColor(s, src, s.currentPlayer)
    ensures o.result == Err(NoPossibleMoves) <==> HasColor(s, src, s.currentPlayer) && mask(s, src) == {}
    ensures o.result == Err(IllegalDestination) <==>
              HasColor(s, src, s.currentPlayer) && mask(s, src) != {} && tgt !in mask(s, src)
    ensures o.result == Err(SelfCheck) <==>
              Offered(s, src, tgt, mask) && TrialInCheck(s, src, tgt, s.currentPlayer, mask)
    ensures o.result.Ok? <==> Legal(s, src, tgt, mask)
    ensures o.result.Err? ==> o.state == s
    ensures o.result.Ok? ==> Valid(o.state) && PendingOnBoard(o.state)
  {
    match ValidateSourcePosition(s, src, mask)
    case Some(e) => Outcome(s, Err(e))
    case None =>
      match ValidateTargetPosition(s, src, tgt, mask)
      case Some(e) => Outcome(s, Err(e))
      case None => ExecuteMove(s, src, tgt, mask)
  }

  /**
   * The part of performChessMove after validation: make the move; if it
   * leaves the mover in check, undo it and fail, handing back the match as it
   * was; otherwise complete it, keeping one king of each colour.
   */
  function ExecuteMove(s: Match, src: Pos, tgt: Pos, mask: MoveMask): (o: Outcome<Option<PieceId>>)
    requires Valid(s) && SoundMask(mask) && Offered(s, src, tgt, mask) && TakesNoKing(s, src, tgt, mask)
    ensures o.result == Err(SelfCheck) || o.result.Ok?
    ensures o.result.Ok? <==> !TrialInCheck(s, src, tgt, s.currentPlayer, mask)
    ensures o.result.Err? ==> o.state == s
    ensures o.result.Ok? ==> Valid(o.state) && PendingOnBoard(o.state)
  {
    assert FitsMask(s, src, tgt);
    var m := MakeMove(s, src, tgt);
    if InCheck(m.after, s.currentPlayer, mask) then
      UndoMakeMove(s, src, tgt);
      Outcome(UndoMove(m.after, src, tgt, m.captured), Err(SelfCheck))
    else
      LegalKeepsKings(s, src, tgt, mask, White);
      LegalKeepsKings(s, src, tgt, mask, Black);
      Outcome(CompleteMove(m.after, src, tgt, mask), Ok(m.captured))
  }

  /** A legal move that takes no king keeps the kings of both colours. */
  lemma LegalKeepsKings(s: Match, src: Pos, tgt: Pos, mask: MoveMask, c: Color)
    requires Consistent(s) && SoundMask(mask) && Legal(s, src, tgt, mask) && TakesNoKing(s, src, tgt, mask)
    ensures FitsMask(s, src, tgt)
    ensures KingIds(MakeMove(s, src, tgt).after, c) == KingIds(s, c)
  {
    assert FitsMask(s, src, tgt);
    MakeMoveKings(s, src, tgt, c);
    var m := MakeMove(s, src, tgt);
    if m.captured.Some? {
      assert m.captured.value !in KingIds(s, c);
    }
  }

  /** The state after the move and its promotion, before the flags are updated: the state the source tests for check. */
  function Landed(s: Match, src: Pos, tgt: Pos, mask: MoveMask): (r: Match)
    requires Consistent(s) && SoundMask(mask) && Offered(s, src, tgt, mask)
    ensures Consistent(r)
  {
    assert FitsMask(s, src, tgt);
    Promote(MakeMove(s, src, tgt).after, tgt)
  }

  /** A successful move is the move itself followed by its completion. */
  lemma PerformChessMoveOk(s: Match, src: Pos, tgt: Pos, mask: MoveMask)
    requires Valid(s) && SoundMask(mask) && TakesNoKing(s, src, tgt, mask)
    requires Legal(s, src, tgt, mask)
    ensures Offered(s, src, tgt, mask) && FitsMask(s, src, tgt)
    ensures var m := MakeMove(s, src, tgt);
      PerformChessMove(s, src, tgt, mask) == Outcome(CompleteMove(m.after, src, tgt, mask), Ok(m.captured))
  {
    assert FitsMask(s, src, tgt);
  }

  /**
   * A successful move answers with the piece that stood on the target, if
   * any; that piece, and only it, passes to the captured roster, the rosters
   * keep their combined size, and the source square is left empty.
   */
  lemma PerformChessMoveCapture(s: Match, src: Pos, tgt: Pos, mask: MoveMask)
    requires Valid(s) && SoundMask(mask) && TakesNoKing(s, src, tgt, mask)
    requires Legal(s, src, tgt, mask)
    ensures var o := PerformChessMove(s, src, tgt, mask);
      && o.result.value == (if tgt in s.board then Some(s.board[tgt]) else None)
      && (tgt in s.board ==> o.state.captured == s.captured + {s.board[tgt]} && s.board[tgt] !in o.state.onBoard)
      && (tgt !in s.board ==> o.state.captured == s.captured)
      && |o.state.onBoard| + |o.state.captured| == |s.onBoard| + |s.captured|
      && src !in o.state.board
  {
    PerformChessMoveOk(s, src, tgt, mask);
    MakeMoveRosters(s, src, tgt);
  }

  /**
   * Promotion after a successful move: the slot is set exactly when a pawn
   * reached its promotion row; the pawn then leaves the board and a new,
   * unmoved queen of its colour stands on the target. Otherwise the mover
   * stands on the target with its counter one higher.
   */
  lemma PerformChessMovePromotion(s: Match, src: Pos, tgt: Pos, mask: MoveMask)
    requires Valid(s) && SoundMask(mask) && TakesNoKing(s, src, tgt, mask)
    requires Legal(s, src, tgt, mask)
    ensures var o := PerformChessMove(s, src, tgt, mask);
      var id := s.board[src];
      var pc := s.pieces[id];
      && tgt in o.state.board
      && (o.state.promoted.Some? <==> pc.kind == Pawn && PromotionRow(pc.color, tgt.row))
      && (o.state.promoted.Some? ==>
            && o.state.board[tgt] == o.state.promoted.value
            && o.state.promoted.value !in s.pieces
            && o.state.pieces[o.state.promoted.value] == Piece(Queen, pc.color, 0)
            && id !in o.state.onBoard)
      && (o.state.promoted.None? ==>
            o.state.board[tgt] == id && o.state.pieces[id] == pc.(moveCount := pc.moveCount + 1))
  {
    PerformChessMoveOk(s, src, tgt, mask);
  }

  /**
   * The flags and the turn after a successful move: `check` says whether the
   * opponent is attacked in the landed state; a mate of the opponent sets
   * `checkMate` and keeps the turn and the player, and otherwise the turn
   * advances by one and the opponent is to move.
   */
  lemma PerformChessMoveTurn(s: Match, src: Pos, tgt: Pos, mask: MoveMask)
    requires Valid(s) && SoundMask(mask) && TakesNoKing(s, src, tgt, mask)
    requires Legal(s, src, tgt, mask)
    ensures var o := PerformChessMove(s, src, tgt, mask);
      var opp := Opponent(s.currentPlayer);
      var landed := Landed(s, src, tgt, mask);
      var flagged := landed.(check := InCheck(landed, opp, mask));
      && o.state.check == InCheck(landed, opp, mask)
      && (IsCheckMate(flagged, opp, mask) ==>
            o.state.checkMate && o.state.turn == s.turn && o.state.currentPlayer == s.currentPlayer)
      && (!IsCheckMate(flagged, opp, mask) ==>
            o.state.checkMate == s.checkMate && o.state.turn == s.turn + 1 && o.state.currentPlayer == opp)
  {
    assert FitsMask(s, src, tgt);
  }

  /**
   * The en-passant slot after a successful move names the mover exactly when
   * it is a pawn whose row changed by two, whether or not the move mates.
   */
  lemma PerformChessMoveEnPassant(s: Match, src: Pos, tgt: Pos, mask: MoveMask)
    requires Valid(s) && SoundMask(mask) && TakesNoKing(s, src, tgt, mask)
    requires Legal(s, src, tgt, mask)
    ensures var o := PerformChessMove(s, src, tgt, mask);
      var id := s.board[src];
      o.state.enPassantVulnerable ==
        if s.pieces[id].kind == Pawn && (tgt.row == src.row - 2 || tgt.row == src.row + 2) then Some(id) else None
  {
    assert FitsMask(s, src, tgt);
  }

  /** Overwriting the target square, or leaving the board as it is, keeps a two-square frame. */
  lemma UpdateKeepsFrame(b0: map<Pos, PieceId>, b1: map<Pos, PieceId>, b: map<Pos, PieceId>, src: Pos, tgt: Pos, v: Option<PieceId>)
    requires SameElsewhere(b0, b1, src, tgt)
    requires b == if v.Some? then b1[tgt := v.value] else b1
    ensures SameElsewhere(b0, b, src, tgt)
  {
  }

  /** A successful move other than castling changes no square but its source and its target. */
  lemma PerformChessMoveFrame(s: Match, src: Pos, tgt: Pos, mask: MoveMask)
    requires Valid(s) && SoundMask(mask) && TakesNoKing(s, src, tgt, mask)
    requires Legal(s, src, tgt, mask)
    requires src in s.board && !Castles(s.pieces[s.board[src]], src, tgt)
    ensures SameElsewhere(s.board, PerformChessMove(s, src, tgt, mask).state.board, src, tgt)
  {
    PerformChessMoveOk(s, src, tgt, mask);
    MakeMoveFrame(s, src, tgt);
    var m := MakeMove(s, src, tgt);
    var pr := Promote(m.after, tgt);
    assert PerformChessMove(s, src, tgt, mask).state.board == pr.board;
    UpdateKeepsFrame(s.board, m.after.board, pr.board, src, tgt, pr.promoted);
  }

  /** Replacing a pending piece that is not a king keeps the match valid. */
  lemma ReplacePromotedPieceValid(s: Match, code: string)
    requires Valid(s) && PendingOnBoard(s)
    requires s.promoted.Some? ==> s.pieces[s.promoted.value].kind != King
    ensures Valid(ReplacePromotedPiece(s, code).state)
  {
    if s.promoted.Some? && IsPromotionCode(code) {
      ReplacePromotedPieceKings(s, code, White);
      ReplacePromotedPieceKings(s, code, Black);
    }
  }

  /**
   * After a move that promoted, the player's choice of piece is accepted
   * exactly for the four codes, and it puts an unmoved piece of that kind
   * and of the mover's colour on the target, in a valid match.
   */
  lemma PromotionChoice(s: Match, src: Pos, tgt: Pos, mask: MoveMask, code: string)
    requires Valid(s) && SoundMask(mask) && TakesNoKing(s, src, tgt, mask)
    requires Legal(s, src, tgt, mask)
    requires var pc := s.pieces[s.board[src]]; pc.kind == Pawn && PromotionRow(pc.color, tgt.row)
    ensures var o := PerformChessMove(s, src, tgt, mask);
      var r := ReplacePromotedPiece(o.state, code);
      && (r.result.Ok? <==> IsPromotionCode(code))
      && (r.result.Ok? ==>
            && Valid(r.state)
            && tgt in r.state.board && r.state.board[tgt] == r.result.value
            && r.state.pieces[r.result.value] == Piece(NewPieceKind(code), s.pieces[s.board[src]].color, 0))
  {
    var o := PerformChessMove(s, src, tgt, mask);
    PerformChessMovePromotion(s, src, tgt, mask);
    ReplacePromotedPieceValid(o.state, code);
  }

  /** getCheckMate as written: the accessor answers with the check flag, whatever the checkmate flag says. */
  function GetCheckMate(s: Match): (r: bool)
    ensures r == s.check
    ensures r != GameOver(s) <==> s.check != s.checkMate
  {
    s.check
  }

  /**
   * After a successful move the accessor reports whether the opponent is in
   * check in the landed state, which is not whether the opponent is mated.
   */
  lemma GetCheckMateReportsCheck(s: Match, src: Pos, tgt: Pos, mask: MoveMask)
    requires Valid(s) && SoundMask(mask) && TakesNoKing(s, src, tgt, mask)
    requires Legal(s, src, tgt, mask)
    ensures GetCheckMate(PerformChessMove(s, src, tgt, mask).state) ==
              InCheck(Landed(s, src, tgt, mask), Opponent(s.currentPlayer), mask)
  {
    PerformChessMoveTurn(s, src, tgt, mask);
  }

  /** What the accessor evidently means to answer: whether the match has ended in checkmate. */
  function GameOver(s: Match): bool {
    s.checkMate
  }

  /**
   * After a successful move the match is over exactly when it already was or
   * the move mated the opponent.
   */
  lemma GameOverAfterMove(s: Match, src: Pos, tgt: Pos, mask: MoveMask)
    requires Valid(s) && SoundMask(mask) && TakesNoKing(s, src, tgt, mask)
    requires Legal(s, src, tgt, mask)
    ensures var o := PerformChessMove(s, src, tgt, mask);
      var opp := Opponent(s.currentPlayer);
      var landed := Landed(s, src, tgt, mask);
      GameOver(o.state) <==> s.checkMate || IsCheckMate(landed.(check := InCheck(landed, opp, mask)), opp, mask)
  {
    PerformChessMoveTurn(s, src, tgt, mask);
  }

  /**
   * A move that checks the opponent without mating them, in a match not yet
   * over, makes the accessor as written answer true while the match goes on.
   */
  lemma GetCheckMateDisagrees(s: Match, src: Pos, tgt: Pos, mask: MoveMask)
    requires Valid(s) && SoundMask(mask) && TakesNoKing(s, src, tgt, mask) && !s.checkMate
    requires Legal(s, src, tgt, mask)
    requires var opp := Opponent(s.currentPlayer);
      var landed := Landed(s, src, tgt, mask);
      InCheck(landed, opp, mask) && !IsCheckMate(landed.(check := true), opp, mask)
    ensures var o := PerformChessMove(s, src, tgt, mask);
      GetCheckMate(o.state) && !GameOver(o.state)
  {
    PerformChessMoveTurn(s, src, tgt, mask);
  }
}
