/**
 * Executing and reversing one move on the board: relocation of the piece,
 * capture of the target's occupant, the move counter, and the rook of a
 * castling king (ChessMatch.makeMove and ChessMatch.undoMove).
 */
module Moves {
  import opened ChessTypes

  /** A king whose column changes by exactly two: the castling pattern. */
  predicate Castles(pc: Piece, src: Pos, tgt: Pos) {
    pc.kind == King && (tgt.col == src.col + 2 || tgt.col == src.col - 2)
  }

  /** The castling rook's square before the move: three columns right (king side) or four left (queen side). */
  function RookFrom(src: Pos, tgt: Pos): Pos {
    if tgt.col == src.col + 2 then Pos(src.row, src.col + 3) else Pos(src.row, src.col - 4)
  }

  /** The castling rook's square after the move: next to the king's original square, on the king's side of travel. */
  function RookTo(src: Pos, tgt: Pos): Pos {
    if tgt.col == src.col + 2 then Pos(src.row, src.col + 1) else Pos(src.row, src.col - 1)
  }

  /** Take the occupant of `from` off the board and put it on `to`, replacing whatever stood there. */
  function Relocate(b: map<Pos, PieceId>, from: Pos, to: Pos): map<Pos, PieceId>
    requires from in b
  {
    (b - {from})[to := b[from]]
  }

  function Bump(pc: Piece, d: int): Piece {
    pc.(moveCount := pc.moveCount + d)
  }

  lemma RelocateFacts(b: map<Pos, PieceId>, from: Pos, to: Pos)
    requires from in b && Injective(b)
    ensures Injective(Relocate(b, from, to))
    ensures Relocate(b, from, to).Values == b.Values - (if to in b && to != from then {b[to]} else {})
  {
    var r := Relocate(b, from, to);
    var gone: set<PieceId> := if to in b && to != from then {b[to]} else {};
    forall v | v in r.Values
      ensures v in b.Values - gone
    {
      var k :| k in r && r[k] == v;
      if k != to {
        assert b[k] == v;
      }
    }
    forall v | v in b.Values - gone
      ensures v in r.Values
    {
      var k :| k in b && b[k] == v;
      if k == from {
        assert r[to] == v;
      } else {
        assert r[k] == v;
      }
    }
  }

  /**
   * What makeMove needs to run without a failure of the board: a piece on the
   * source, a target on the board, and for a castling king a piece on the
   * rook's square and an empty square for it to land on.
   */
  predicate CanMakeMove(s: Match, src: Pos, tgt: Pos) {
    && src in s.board && s.board[src] in s.pieces && OnBoard(tgt)
    && (Castles(s.pieces[s.board[src]], src, tgt) ==>
          RookFrom(src, tgt) in s.board && RookTo(src, tgt) !in s.board)
  }

  /** What undoMove needs: the moved piece on the target, its source free, the captured piece in the captured roster, the rook on its landing square. */
  predicate CanUndoMove(s: Match, src: Pos, tgt: Pos, cap: Option<PieceId>) {
    && tgt in s.board && s.board[tgt] in s.pieces && OnBoard(src)
    && (src == tgt || src !in s.board)
    && (cap.Some? ==> src != tgt && cap.value in s.captured)
    && (Castles(s.pieces[s.board[tgt]], src, tgt) ==>
          && RookTo(src, tgt) in s.board && s.board[RookTo(src, tgt)] in s.pieces
          && RookFrom(src, tgt) !in s.board && OnBoard(RookFrom(src, tgt)))
  }

  /** Turn, player, flags, slots and the identity counter agree. */
  predicate SameStatus(a: Match, b: Match) {
    && a.turn == b.turn && a.currentPlayer == b.currentPlayer
    && a.check == b.check && a.checkMate == b.checkMate
    && a.enPassantVulnerable == b.enPassantVulnerable && a.promoted == b.promoted
    && a.nextId == b.nextId
  }

  /** The piece tables hold the same pieces with the same kinds and colours (move counters may differ). */
  predicate SameIdentities(a: Match, b: Match) {
    && a.pieces.Keys == b.pieces.Keys
    && forall id | id in a.pieces :: a.pieces[id].kind == b.pieces[id].kind && a.pieces[id].color == b.pieces[id].color
  }

  datatype MoveResult = MoveResult(after: Match, captured: Option<PieceId>)

  lemma PlaceFacts(b: map<Pos, PieceId>, p: Pos, v: PieceId)
    requires p !in b && v !in b.Values && Injective(b)
    ensures Injective(b[p := v])
    ensures b[p := v].Values == b.Values + {v}
  {
    var r := b[p := v];
    forall w | w in r.Values
      ensures w in b.Values + {v}
    {
      var k :| k in r && r[k] == w;
      if k != p {
        assert b[k] == w;
      }
    }
    forall w | w in b.Values + {v}
      ensures w in r.Values
    {
      if w == v {
        assert r[p] == w;
      } else {
        var k :| k in b && b[k] == w;
        assert r[k] == w;
      }
    }
  }

  /** Overwriting an occupied square with a piece not on the board keeps the board injective and swaps one value. */
  lemma ReplaceFacts(b: map<Pos, PieceId>, p: Pos, v: PieceId)
    requires p in b && v !in b.Values && Injective(b)
    ensures Injective(b[p := v])
    ensures b[p := v].Values == b.Values - {b[p]} + {v}
  {
    var r := b[p := v];
    forall w | w in r.Values
      ensures w in b.Values - {b[p]} + {v}
    {
      var k :| k in r && r[k] == w;
      if k != p {
        assert b[k] == w;
      }
    }
    forall w | w in b.Values - {b[p]} + {v}
      ensures w in r.Values
    {
      if w == v {
        assert r[p] == w;
      } else {
        var k :| k in b && b[k] == w;
        assert r[k] == w;
      }
    }
  }

  /** The moving piece's share of makeMove: it leaves `src`, gains a move, and evicts the occupant of `tgt` into the captured roster. */
  function Displace(s: Match, src: Pos, tgt: Pos): (m: MoveResult)
    requires Consistent(s) && src in s.board && OnBoard(tgt)
    ensures Consistent(m.after)
    ensures SameStatus(m.after, s) && SameIdentities(m.after, s)
    ensures m.after.board == Relocate(s.board, src, tgt)
    ensures m.after.pieces == s.pieces[s.board[src] := Bump(s.pieces[s.board[src]], 1)]
    ensures m.captured.Some? <==> src != tgt && tgt in s.board
    ensures m.captured.Some? ==> m.captured.value == s.board[tgt] && m.captured.value in m.after.captured
    ensures SameElsewhere(s.board, m.after.board, src, tgt)
  {
    var id := s.board[src];
    var cap := if src != tgt && tgt in s.board then Some(s.board[tgt]) else None;
    RelocateFacts(s.board, src, tgt);
    MoveResult(
      s.(board := Relocate(s.board, src, tgt),
         pieces := s.pieces[id := Bump(s.pieces[id], 1)],
         onBoard := if cap.Some? then s.onBoard - {cap.value} else s.onBoard,
         captured := if cap.Some? then s.captured + {cap.value} else s.captured),
      cap)
  }

  /** The castling rook's share: the piece on `from` moves to the empty square `to`, its counter changed by `d`. */
  function Shift(s: Match, from: Pos, to: Pos, d: int): (r: Match)
    requires Consistent(s) && from in s.board && to !in s.board && OnBoard(to)
    ensures Consistent(r)
    ensures SameStatus(r, s) && SameIdentities(r, s)
    ensures to in r.board && r.board[to] == s.board[from] && from !in r.board
    ensures SameElsewhere(s.board, r.board, from, to)
    ensures r.pieces == s.pieces[s.board[from] := Bump(s.pieces[s.board[from]], d)]
    ensures r.onBoard == s.onBoard && r.captured == s.captured
  {
    var id := s.board[from];
    RelocateFacts(s.board, from, to);
    s.(board := Relocate(s.board, from, to), pieces := s.pieces[id := Bump(s.pieces[id], d)])
  }

  /** The board half of undoing the moved piece: it goes back to `src` and the captured piece, if any, reappears on `tgt`. */
  function ReturnBoard(b: map<Pos, PieceId>, src: Pos, tgt: Pos, cap: Option<PieceId>): map<Pos, PieceId>
    requires tgt in b
  {
    var b1 := Relocate(b, tgt, src);
    if cap.Some? then b1[tgt := cap.value] else b1
  }

  /** The moved piece's share of undoMove: it returns to `src` losing a move, and the captured piece returns to `tgt`. */
  function Restore(s: Match, src: Pos, tgt: Pos, cap: Option<PieceId>): (r: Match)
    requires Consistent(s) && tgt in s.board && OnBoard(src) && (src == tgt || src !in s.board)
    requires cap.Some? ==> src != tgt && cap.value in s.captured
    ensures Consistent(r)
    ensures SameStatus(r, s) && SameIdentities(r, s)
  {
    var id := s.board[tgt];
    RelocateFacts(s.board, tgt, src);
    if cap.Some? then
      var b1 := Relocate(s.board, tgt, src);
      assert b1.Values == s.onBoard && tgt !in b1;
      PlaceFacts(b1, tgt, cap.value);
      s.(board := ReturnBoard(s.board, src, tgt, cap),
         pieces := s.pieces[id := Bump(s.pieces[id], -1)],
         onBoard := s.onBoard + {cap.value},
         captured := s.captured - {cap.value})
    else
      s.(board := ReturnBoard(s.board, src, tgt, cap), pieces := s.pieces[id := Bump(s.pieces[id], -1)])
  }

  /** In a castling move the rook's two squares are neither the king's source nor its target, and lie on the board. */
  lemma CastleSquares(s: Match, src: Pos, tgt: Pos)
    requires Consistent(s) && CanMakeMove(s, src, tgt) && Castles(s.pieces[s.board[src]], src, tgt)
    ensures RookFrom(src, tgt) != src && RookFrom(src, tgt) != tgt
    ensures RookTo(src, tgt) != src && RookTo(src, tgt) != tgt
    ensures OnBoard(RookFrom(src, tgt)) && OnBoard(RookTo(src, tgt))
    ensures s.board[RookFrom(src, tgt)] != s.board[src]
  {
  }

  /**
   * makeMove: the piece on `src` moves to `tgt` with its move counter raised by
   * one; the occupant of `tgt`, if any, leaves the on-board roster for the
   * captured one; a castling king also brings its rook across.
   */
  function MakeMove(s: Match, src: Pos, tgt: Pos): (m: MoveResult)
    requires Consistent(s) && CanMakeMove(s, src, tgt)
    ensures Consistent(m.after)
    ensures CanUndoMove(m.after, src, tgt, m.captured)
    ensures SameStatus(m.after, s) && SameIdentities(m.after, s)
    ensures tgt in m.after.board && m.after.board[tgt] == s.board[src]
    ensures src != tgt ==> src !in m.after.board
    ensures m.after.pieces[s.board[src]].moveCount == s.pieces[s.board[src]].moveCount + 1
  {
    var m := Displace(s, src, tgt);
    if Castles(s.pieces[s.board[src]], src, tgt) then
      CastleSquares(s, src, tgt);
      MoveResult(Shift(m.after, RookFrom(src, tgt), RookTo(src, tgt), 1), m.captured)
    else
      m
  }

  /**
   * undoMove: the piece on `tgt` goes back to `src` with its move counter
   * lowered by one, the captured piece returns to `tgt` and to the on-board
   * roster, and a castling king's rook goes back to its corner.
   */
  function UndoMove(s: Match, src: Pos, tgt: Pos, cap: Option<PieceId>): (r: Match)
    requires Consistent(s) && CanUndoMove(s, src, tgt, cap)
    ensures Consistent(r)
    ensures src in r.board && r.board[src] == s.board[tgt]
    ensures r.pieces[s.board[tgt]].moveCount == s.pieces[s.board[tgt]].moveCount - 1
    ensures cap.Some? ==>
              && tgt in r.board && r.board[tgt] == cap.value
              && r.onBoard == s.onBoard + {cap.value} && r.captured == s.captured - {cap.value}
    ensures cap.None? ==> r.onBoard == s.onBoard && r.captured == s.captured
    ensures SameStatus(r, s) && SameIdentities(r, s)
  {
    var r := Restore(s, src, tgt, cap);
    if Castles(s.pieces[s.board[tgt]], src, tgt) then
      Shift(r, RookTo(src, tgt), RookFrom(src, tgt), -1)
    else
      r
  }

  /**
   * Pieces are conserved: the occupant of the target, and only it, passes
   * from the on-board roster to the captured one, so the two rosters keep
   * their combined size.
   */
  lemma MakeMoveRosters(s: Match, src: Pos, tgt: Pos)
    requires Consistent(s) && CanMakeMove(s, src, tgt)
    ensures var m := MakeMove(s, src, tgt);
      && (m.captured.Some? <==> src != tgt && tgt in s.board)
      && (m.captured.Some? ==>
            && m.captured.value == s.board[tgt] && m.captured.value in s.onBoard
            && m.after.onBoard == s.onBoard - {m.captured.value}
            && m.after.captured == s.captured + {m.captured.value})
      && (m.captured.None? ==> m.after.onBoard == s.onBoard && m.after.captured == s.captured)
      && |m.after.onBoard| + |m.after.captured| == |s.onBoard| + |s.captured|
  {
  }

  /** Changing a move count by `d` and then by `-d` restores the table. */
  lemma BumpBack(p: map<PieceId, Piece>, id: PieceId, d: int)
    requires id in p
    ensures var p1 := p[id := Bump(p[id], d)]; p1[id := Bump(p1[id], -d)] == p
  {
  }

  /** Returning the mover and its victim undoes a relocation of the board. */
  lemma ReturnRelocate(b: map<Pos, PieceId>, src: Pos, tgt: Pos)
    requires src in b
    ensures var b1 := Relocate(b, src, tgt);
      ReturnBoard(b1, src, tgt, if src != tgt && tgt in b then Some(b[tgt]) else None) == b
  {
    var b1 := Relocate(b, src, tgt);
    var r := ReturnBoard(b1, src, tgt, if src != tgt && tgt in b then Some(b[tgt]) else None);
    assert forall p :: p in r <==> p in b;
    assert forall p | p in r :: r[p] == b[p];
  }

  /** Returning the moved piece and its victim undoes the moving piece's share of makeMove. */
  lemma RestoreDisplace(s: Match, src: Pos, tgt: Pos)
    requires Consistent(s) && src in s.board && OnBoard(tgt)
    ensures var m := Displace(s, src, tgt);
      && tgt in m.after.board && (src == tgt || src !in m.after.board)
      && (m.captured.Some? ==> src != tgt && m.captured.value in m.after.captured)
      && Restore(m.after, src, tgt, m.captured) == s
  {
    var m := Displace(s, src, tgt);
    var r := Restore(m.after, src, tgt, m.captured);
    BumpBack(s.pieces, s.board[src], 1);
    ReturnRelocate(s.board, src, tgt);
    if m.captured.Some? {
      assert s.board[tgt] in s.board.Values;
      assert r.onBoard == s.onBoard;
      assert r.captured == s.captured;
    }
  }

  /** Moving a piece over and back, with opposite counter changes, changes nothing. */
  lemma ShiftBack(s: Match, from: Pos, to: Pos, d: int)
    requires Consistent(s) && from in s.board && to !in s.board && OnBoard(to) && OnBoard(from)
    ensures var r := Shift(s, from, to, d); to in r.board && from !in r.board && Shift(r, to, from, -d) == s
  {
    BumpBack(s.pieces, s.board[from], d);
    assert Shift(Shift(s, from, to, d), to, from, -d).board == s.board;
  }

  /** Returning the mover and relocating a piece on two other squares commute on the board. */
  lemma ReturnRelocateCommute(b: map<Pos, PieceId>, src: Pos, tgt: Pos, cap: Option<PieceId>, from: Pos, to: Pos)
    requires tgt in b && from in b && to !in b
    requires from != src && from != tgt && to != src && to != tgt
    ensures ReturnBoard(Relocate(b, from, to), src, tgt, cap) == Relocate(ReturnBoard(b, src, tgt, cap), from, to)
  {
    var x := ReturnBoard(Relocate(b, from, to), src, tgt, cap);
    var y := Relocate(ReturnBoard(b, src, tgt, cap), from, to);
    assert forall p :: p in x <==> p in y;
    assert forall p | p in x :: x[p] == y[p];
  }

  /** Updates of two different keys commute. */
  lemma UpdatesCommute(p: map<PieceId, Piece>, a: PieceId, b: PieceId, x: Piece, y: Piece)
    requires a != b
    ensures p[a := x][b := y] == p[b := y][a := x]
  {
  }

  /**
   * Returning the mover (and its victim) commutes with shifting the castling
   * rook by any count change `d`: the two touch disjoint squares and pieces.
   * With `d == 1` this is the rook's step of makeMove, with `d == -1` that of
   * undoMove.
   */
  lemma RestoreShiftCommute(s: Match, src: Pos, tgt: Pos, cap: Option<PieceId>, from: Pos, to: Pos, d: int)
    requires Consistent(s) && tgt in s.board && OnBoard(src) && (src == tgt || src !in s.board)
    requires cap.Some? ==> src != tgt && cap.value in s.captured
    requires from in s.board && to !in s.board && OnBoard(to)
    requires from != src && from != tgt && to != src && to != tgt
    ensures var t := Shift(s, from, to, d);
      && tgt in t.board && (src == tgt || src !in t.board)
      && (cap.Some? ==> cap.value in t.captured)
      && var r := Restore(s, src, tgt, cap);
      && from in r.board && to !in r.board
      && Restore(t, src, tgt, cap) == Shift(r, from, to, d)
  {
    RestoreShiftBoards(s, src, tgt, cap, from, to, d);
    RestoreShiftPieces(s, src, tgt, cap, from, to, d);
  }

  /** The board half of `RestoreShiftCommute`. */
  lemma RestoreShiftBoards(s: Match, src: Pos, tgt: Pos, cap: Option<PieceId>, from: Pos, to: Pos, d: int)
    requires Consistent(s) && tgt in s.board && OnBoard(src) && (src == tgt || src !in s.board)
    requires cap.Some? ==> src != tgt && cap.value in s.captured
    requires from in s.board && to !in s.board && OnBoard(to)
    requires from != src && from != tgt && to != src && to != tgt
    ensures var t := Shift(s, from, to, d);
      && tgt in t.board && (src == tgt || src !in t.board)
      && (cap.Some? ==> cap.value in t.captured)
      && var r := Restore(s, src, tgt, cap);
      && from in r.board && to !in r.board
      && Restore(t, src, tgt, cap).board == Shift(r, from, to, d).board
  {
    var t := Shift(s, from, to, d);
    var r := Restore(s, src, tgt, cap);
    assert t.board == Relocate(s.board, from, to);
    assert r.board == ReturnBoard(s.board, src, tgt, cap);
    ReturnRelocateCommute(s.board, src, tgt, cap, from, to);
  }

  /** The piece-table half of `RestoreShiftCommute`. */
  lemma RestoreShiftPieces(s: Match, src: Pos, tgt: Pos, cap: Option<PieceId>, from: Pos, to: Pos, d: int)
    requires Consistent(s) && tgt in s.board && OnBoard(src) && (src == tgt || src !in s.board)
    requires cap.Some? ==> src != tgt && cap.value in s.captured
    requires from in s.board && to !in s.board && OnBoard(to)
    requires from != src && from != tgt && to != src && to != tgt
    ensures var t := Shift(s, from, to, d);
      var r := Restore(s, src, tgt, cap);
      && tgt in t.board && from in r.board
      && Restore(t, src, tgt, cap).pieces == Shift(r, from, to, d).pieces
  {
    var t := Shift(s, from, to, d);
    var r := Restore(s, src, tgt, cap);
    var id, rook := s.board[tgt], s.board[from];
    assert id != rook;
    assert t.board[tgt] == id;
    assert r.board[from] == rook;
    var rookMoved, kingBack := Bump(s.pieces[rook], d), Bump(s.pieces[id], -1);
    assert t.pieces == s.pieces[rook := rookMoved];
    assert r.pieces == s.pieces[id := kingBack];
    UpdatesCommute(s.pieces, rook, id, rookMoved, kingBack);
  }

  /** Undo is exact: undoing a move restores the board, both rosters, every move counter and every other field. */
  lemma UndoMakeMove(s: Match, src: Pos, tgt: Pos)
    requires Consistent(s) && CanMakeMove(s, src, tgt)
    ensures var m := MakeMove(s, src, tgt); UndoMove(m.after, src, tgt, m.captured) == s
  {
    if Castles(s.pieces[s.board[src]], src, tgt) {
      UndoCastling(s, src, tgt);
    } else {
      RestoreDisplace(s, src, tgt);
    }
  }

  /** The castling case of `UndoMakeMove`: the rook goes back after the king does. */
  lemma UndoCastling(s: Match, src: Pos, tgt: Pos)
    requires Consistent(s) && CanMakeMove(s, src, tgt) && Castles(s.pieces[s.board[src]], src, tgt)
    ensures var m := MakeMove(s, src, tgt); UndoMove(m.after, src, tgt, m.captured) == s
  {
    var d := Displace(s, src, tgt);
    RestoreDisplace(s, src, tgt);
    CastleSquares(s, src, tgt);
    var rf, rt := RookFrom(src, tgt), RookTo(src, tgt);
    var m := MakeMove(s, src, tgt);
    assert m == MoveResult(Shift(d.after, rf, rt, 1), d.captured);
    assert Castles(m.after.pieces[m.after.board[tgt]], src, tgt);
    RestoreShiftCommute(d.after, src, tgt, d.captured, rf, rt, 1);
    var r := Restore(m.after, src, tgt, m.captured);
    assert r == Shift(s, rf, rt, 1);
    ShiftBack(s, rf, rt, 1);
    assert UndoMove(m.after, src, tgt, m.captured) == Shift(r, rt, rf, -1);
  }

  /**
   * Castling moves the rook: from three columns right of the king to one
   * column right (king side), or from four columns left to one column left
   * (queen side); its counter rises by one and no other square changes.
   */
  lemma CastlingMovesRook(s: Match, src: Pos, tgt: Pos)
    requires Consistent(s) && CanMakeMove(s, src, tgt) && Castles(s.pieces[s.board[src]], src, tgt)
    ensures var m := MakeMove(s, src, tgt);
      var corner, landing := RookFrom(src, tgt), RookTo(src, tgt);
      var rook := s.board[corner];
      && (tgt.col == src.col + 2 ==> corner == Pos(src.row, src.col + 3) && landing == Pos(src.row, src.col + 1))
      && (tgt.col == src.col - 2 ==> corner == Pos(src.row, src.col - 4) && landing == Pos(src.row, src.col - 1))
      && corner !in m.after.board
      && landing in m.after.board && m.after.board[landing] == rook
      && m.after.pieces[rook].moveCount == s.pieces[rook].moveCount + 1
      && (forall p | p != src && p != tgt && p != corner && p != landing ::
            (p in m.after.board <==> p in s.board) && (p in s.board ==> m.after.board[p] == s.board[p]))
  {
    CastleSquares(s, src, tgt);
  }

  /** Two squares are the only ones where `b` may differ from `b0`. */
  ghost predicate SameElsewhere(b0: map<Pos, PieceId>, b: map<Pos, PieceId>, src: Pos, tgt: Pos) {
    forall p | p != src && p != tgt :: (p in b <==> p in b0) && (p in b0 ==> b[p] == b0[p])
  }

  /** A move that is not castling changes only its source and target squares and only the mover's counter. */
  lemma MakeMoveFrame(s: Match, src: Pos, tgt: Pos)
    requires Consistent(s) && CanMakeMove(s, src, tgt) && !Castles(s.pieces[s.board[src]], src, tgt)
    ensures var m := MakeMove(s, src, tgt);
      && SameElsewhere(s.board, m.after.board, src, tgt)
      && (forall id | id in s.pieces && id != s.board[src] :: m.after.pieces[id] == s.pieces[id])
  {
  }

  /** A move keeps every king except one it captures. */
  lemma MakeMoveKings(s: Match, src: Pos, tgt: Pos, c: Color)
    requires Consistent(s) && CanMakeMove(s, src, tgt)
    ensures var m := MakeMove(s, src, tgt);
      KingIds(m.after, c) == KingIds(s, c) - (if m.captured.Some? then {m.captured.value} else {})
  {
  }

  /**
   * What the per-piece geometry promises of every destination it offers:
   * the square is on the board, it does not hold a piece of the mover's own
   * colour, and a castling king finds its rook and the rook's landing square free.
   */
  predicate FitsMask(s: Match, src: Pos, t: Pos) {
    && CanMakeMove(s, src, t)
    && !HasColor(s, t, s.pieces[s.board[src]].color)
  }

  /** The geometry keeps its promise in every consistent state. */
  ghost predicate SoundMask(mask: MoveMask) {
    forall s: Match, src: Pos, t: Pos | Consistent(s) && src in s.board && t in mask(s, src) :: FitsMask(s, src, t)
  }
}
