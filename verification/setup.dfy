/**
 * The opening position (the ChessMatch constructor and initialSetup): turn
 * 1, White to move, and thirty-two new pieces placed one at a time in the
 * source's order.
 */
module Setup {
  import opened ChessTypes
  import opened Moves

  /** A new match before any piece is placed. */
  const Empty := Match(map[], map[], {}, {}, 1, White, false, false, None, None, 0)

  /** The kinds of the back rank, from file a to file h. */
  const BackRank: seq<Kind> := [Rook, Knight, Bishop, Queen, King, Bishop, Knight, Rook]

  /**
   * The grid square of a chess coordinate: file index 0..7 stands for a..h
   * and is the column; rank r is grid row 8 - r, so rank 8 is row 0.
   */
  function Square(file: int, rank: int): Pos {
    Pos(8 - rank, file)
  }

  /** The rank of each group of eight placements: White pieces, White pawns, Black pieces, Black pawns. */
  const GroupRank: seq<int> := [1, 2, 8, 7]

  /** The square of the i-th placement of initialSetup. */
  function SetupSquare(i: nat): (p: Pos)
    requires i < 32
    ensures OnBoard(p)
  {
    Square(i % 8, GroupRank[i / 8])
  }

  /** The piece created by the i-th placement of initialSetup. */
  function SetupPiece(i: nat): Piece
    requires i < 32
  {
    var color := if i < 16 then White else Black;
    var kind := if i / 8 == 0 || i / 8 == 2 then BackRank[i % 8] else Pawn;
    Piece(kind, color, 0)
  }

  /** No two placements share a square. */
  lemma SetupSquareDistinct(i: nat, j: nat)
    requires i < 32 && j < 32 && i != j
    ensures SetupSquare(i) != SetupSquare(j)
  {
    if i % 8 == j % 8 {
      assert i / 8 != j / 8;
      assert GroupRank[i / 8] != GroupRank[j / 8];
    }
  }

  /**
   * placenewPiece: a new piece, with the next identity, is put on an empty
   * square and joins the on-board roster; no other square changes.
   */
  function PlaceNewPiece(s: Match, p: Pos, pc: Piece): (r: Match)
    requires Consistent(s) && OnBoard(p) && p !in s.board
    ensures Consistent(r)
    ensures r.board == s.board[p := s.nextId] && r.pieces == s.pieces[s.nextId := pc] && s.nextId in r.onBoard
    ensures r.onBoard == s.onBoard + {s.nextId} && s.nextId !in s.onBoard && r.captured == s.captured
    ensures r.nextId == s.nextId + 1
    ensures r.turn == s.turn && r.currentPlayer == s.currentPlayer && r.check == s.check && r.checkMate == s.checkMate
    ensures r.enPassantVulnerable == s.enPassantVulnerable && r.promoted == s.promoted
  {
    assert s.nextId !in s.pieces;
    PlaceFacts(s.board, p, s.nextId);
    s.(board := s.board[p := s.nextId],
       pieces := s.pieces[s.nextId := pc],
       onBoard := s.onBoard + {s.nextId},
       nextId := s.nextId + 1)
  }

  /** The match after the first `n` placements of initialSetup. */
  function Place(n: nat): (s: Match)
    requires n <= 32
    ensures Consistent(s) && s.nextId == n
    ensures forall p | p in s.board :: s.board[p] < n && SetupSquare(s.board[p]) == p
  {
    if n == 0 then Empty
    else
      var prev := Place(n - 1);
      var p := SetupSquare(n - 1);
      if p in prev.board then
        SetupSquareDistinct(prev.board[p], n - 1);
        assert false;
        prev
      else
        PlaceNewPiece(prev, p, SetupPiece(n - 1))
  }

  /** The square of the next placement is still empty. */
  lemma PlaceFresh(n: nat)
    requires 0 < n <= 32
    ensures SetupSquare(n - 1) !in Place(n - 1).board
  {
    forall j | 0 <= j < n - 1
      ensures SetupSquare(j) != SetupSquare(n - 1)
    {
      SetupSquareDistinct(j, n - 1);
    }
  }

  /** Placement n - 1 puts a new piece on its own, still empty, square. */
  lemma PlaceStep(n: nat)
    requires 0 < n <= 32
    ensures SetupSquare(n - 1) !in Place(n - 1).board
    ensures Place(n) == PlaceNewPiece(Place(n - 1), SetupSquare(n - 1), SetupPiece(n - 1))
  {
    PlaceFresh(n);
  }

  /** After `n` placements there are n pieces on the board and none captured. */
  lemma {:induction false} PlaceRoster(n: nat)
    requires n <= 32
    ensures |Place(n).onBoard| == n && Place(n).captured == {}
  {
    if n > 0 {
      PlaceRoster(n - 1);
      PlaceStep(n);
    }
  }

  /** The board after the first `n` placements, built square by square. */
  function SetupBoard(n: nat): map<Pos, PieceId>
    requires n <= 32
  {
    if n == 0 then map[] else SetupBoard(n - 1)[SetupSquare(n - 1) := n - 1]
  }

  /** The piece table after the first `n` placements. */
  function SetupTable(n: nat): map<PieceId, Piece>
    requires n <= 32
  {
    if n == 0 then map[] else SetupTable(n - 1)[n - 1 := SetupPiece(n - 1)]
  }

  /** Placement n - 1 adds one square and one table entry. */
  lemma PlaceStepTables(n: nat)
    requires 0 < n <= 32
    ensures Place(n).board == Place(n - 1).board[SetupSquare(n - 1) := n - 1]
    ensures Place(n).pieces == Place(n - 1).pieces[n - 1 := SetupPiece(n - 1)]
  {
    PlaceFresh(n);
    var prev := Place(n - 1);
    assert prev.nextId == n - 1;
    var r := PlaceNewPiece(prev, SetupSquare(n - 1), SetupPiece(n - 1));
    assert Place(n) == r;
  }

  /** The placements build the board and the table square by square. */
  lemma {:induction false} PlaceTables(n: nat)
    requires n <= 32
    ensures Place(n).board == SetupBoard(n) && Place(n).pieces == SetupTable(n)
  {
    if n > 0 {
      PlaceTables(n - 1);
      PlaceStepTables(n);
    }
  }

  /** The abstract tables after `n` placements hold placement i < n on its square. */
  lemma {:induction false} SetupEntry(n: nat, i: nat)
    requires i < n <= 32
    ensures SetupSquare(i) in SetupBoard(n) && SetupBoard(n)[SetupSquare(i)] == i
    ensures i in SetupTable(n) && SetupTable(n)[i] == SetupPiece(i)
  {
    if i < n - 1 {
      SetupEntry(n - 1, i);
      SetupSquareDistinct(i, n - 1);
    }
  }

  /** After `n` placements, placement i < n stands on its own square with the piece it created. */
  lemma PlacedAt(n: nat, i: nat)
    requires i < n <= 32
    ensures SetupSquare(i) in Place(n).board && Place(n).board[SetupSquare(i)] == i
    ensures i in Place(n).pieces && Place(n).pieces[i] == SetupPiece(i)
  {
    PlaceTables(n);
    SetupEntry(n, i);
  }

  /** Placing pieces leaves the status of a new match untouched. */
  lemma {:induction false} PlaceStatus(n: nat)
    requires n <= 32
    ensures var s := Place(n);
      && s.turn == 1 && s.currentPlayer == White && !s.check && !s.checkMate
      && s.enPassantVulnerable.None? && s.promoted.None?
  {
    if n > 0 {
      PlaceStatus(n - 1);
      PlaceStep(n);
    }
  }

  /** The identity of the king of colour `c` in the opening position: the fifth placement of its back rank. */
  function KingPlacement(c: Color): nat {
    if c == White then 4 else 20
  }

  /** Among the thirty-two placements, only the fifth of each back rank creates a king. */
  lemma OnlyKingPlacements(i: nat, c: Color)
    requires i < 32 && SetupPiece(i).kind == King && SetupPiece(i).color == c
    ensures i == KingPlacement(c)
  {
    assert i / 8 == 0 || i / 8 == 2;
    assert BackRank[i % 8] == King;
    assert i % 8 == 4;
  }

  /** The king placement of each colour creates an unmoved king of that colour. */
  lemma KingPlacementPiece(c: Color)
    ensures KingPlacement(c) < 32 && SetupPiece(KingPlacement(c)) == Piece(King, c, 0)
  {
    if c == White {
      assert SetupPiece(4) == Piece(BackRank[4], White, 0);
    } else {
      assert SetupPiece(20) == Piece(BackRank[4], Black, 0);
    }
  }

  /** After all placements each colour has exactly one king on the board. */
  lemma PlaceKings(c: Color)
    ensures KingIds(Place(32), c) == {KingPlacement(c)} && |KingIds(Place(32), c)| == 1
  {
    var ks := KingIds(Place(32), c);
    forall id | id in ks
      ensures id == KingPlacement(c)
    {
      OnlyPlacedKing(c, id);
    }
    PlacedKing(c);
    OnlyMember(ks, KingPlacement(c));
  }

  /** A set whose every member is `k`, and that contains `k`, is `{k}`. */
  lemma OnlyMember<T>(xs: set<T>, k: T)
    requires k in xs && forall x | x in xs :: x == k
    ensures xs == {k} && |xs| == 1
  {
  }

  /** The king placement of colour `c` is among the on-board kings of `c` in the opening position. */
  lemma PlacedKing(c: Color)
    ensures KingPlacement(c) in KingIds(Place(32), c)
  {
    var k := KingPlacement(c);
    KingPlacementPiece(c);
    PlacedAt(32, k);
    assert k in Place(32).board.Values;
  }

  /** Every on-board king of colour `c` in the opening position is its king placement. */
  lemma OnlyPlacedKing(c: Color, id: PieceId)
    requires id in KingIds(Place(32), c)
    ensures id == KingPlacement(c)
  {
    assert id < 32;
    PlacedAt(32, id);
    OnlyKingPlacements(id, c);
  }

  /**
   * The opening position: turn 1, White to move, no flags, empty slots, and
   * a valid match (one king of each colour on the board).
   */
  function InitialMatch(): (s: Match)
    ensures Valid(s)
    ensures s.turn == 1 && s.currentPlayer == White
    ensures !s.check && !s.checkMate && s.enPassantVulnerable.None? && s.promoted.None?
  {
    PlaceStatus(32);
    PlaceKings(White);
    PlaceKings(Black);
    Place(32)
  }

  /**
   * In the opening position thirty-two unmoved pieces are on the board and
   * none is captured; White's king stands on e1 and Black's on e8.
   */
  lemma InitialPieces()
    ensures var s := InitialMatch();
      && |s.onBoard| == 32 && s.captured == {}
      && Square(4, 1) in s.board && KingIds(s, White) == {s.board[Square(4, 1)]}
      && Square(4, 8) in s.board && KingIds(s, Black) == {s.board[Square(4, 8)]}
      && forall p | p in s.board :: s.pieces[s.board[p]].moveCount == 0
  {
    var s := InitialMatch();
    PlaceRoster(32);
    PlaceKings(White);
    PlaceKings(Black);
    assert SetupSquare(4) == Square(4, 1) && SetupSquare(20) == Square(4, 8);
    PlacedAt(32, 4);
    PlacedAt(32, 20);
    forall p | p in s.board
      ensures s.pieces[s.board[p]].moveCount == 0
    {
      PlacedAt(32, s.board[p]);
    }
  }

  /**
   * Every pawn starts on the row next to its own back rank, six rows away
   * from the row it promotes on (row 0 for White, row 7 for Black).
   */
  lemma InitialPawns(p: Pos)
    requires p in InitialMatch().board
    ensures var s := InitialMatch();
      var pc := s.pieces[s.board[p]];
      pc.kind == Pawn ==> (pc.color == White ==> p.row == 6) && (pc.color == Black ==> p.row == 1)
  {
    var s := InitialMatch();
    var i := s.board[p];
    PlacedAt(32, i);
    if SetupPiece(i).kind == Pawn {
      PawnPlacement(i);
    }
  }

  /** The pawn placements are the second and the fourth group of eight: ranks 2 and 7. */
  lemma PawnPlacement(i: nat)
    requires i < 32 && SetupPiece(i).kind == Pawn
    ensures SetupSquare(i).row == if SetupPiece(i).color == White then 6 else 1
  {
    assert i / 8 == 1 || i / 8 == 3;
  }
}
