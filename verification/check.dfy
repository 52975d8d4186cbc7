/**
 * Check and checkmate analysis (ChessMatch.king, testCheck, testCheckMate):
 * the declarative meaning of "in check" and "checkmated", and the source's
 * search loops, proved to compute exactly that meaning.
 */
module CheckAnalysis {
  import opened ChessTypes
  import opened Moves

  /** `k` holds the king of colour `c`. */
  predicate KingAt(s: Match, k: Pos, c: Color) {
    k in s.board && s.board[k] in KingIds(s, c)
  }

  /** The piece on `a` belongs to the opponent of `c` and its mask reaches `k`. */
  predicate Attacks(s: Match, a: Pos, k: Pos, c: Color, mask: MoveMask) {
    HasColor(s, a, Opponent(c)) && k in mask(s, a)
  }

  /** Colour `c` is in check: some opposing piece on the board has `c`'s king square in its mask. */
  predicate InCheck(s: Match, c: Color, mask: MoveMask) {
    exists k, a | k in s.board && a in s.board :: KingAt(s, k, c) && Attacks(s, a, k, c, mask)
  }

  /** After the trial move `src` to `t`, colour `c` is (still) in check. */
  predicate TrialInCheck(s: Match, src: Pos, t: Pos, c: Color, mask: MoveMask)
    requires Consistent(s) && CanMakeMove(s, src, t)
  {
    InCheck(MakeMove(s, src, t).after, c, mask)
  }

  /**
   * Colour `c` is checkmated: it is in check, and every trial move of every
   * piece of `c` to a square of its mask leaves it in check.
   */
  predicate IsCheckMate(s: Match, c: Color, mask: MoveMask)
    requires Consistent(s) && SoundMask(mask)
  {
    && InCheck(s, c, mask)
    && forall src, t | src in s.board && HasColor(s, src, c) && t in mask(s, src) :: TrialInCheck(s, src, t, c, mask)
  }

  /** A set of size one has one member. */
  lemma SingletonMembers<T>(xs: set<T>, a: T, b: T)
    requires |xs| == 1 && a in xs && b in xs
    ensures a == b
  {
    assert |xs - {a}| == 0;
    assert b !in xs - {a};
  }

  /**
   * king(color): the search over the on-board pieces for the king of colour
   * `c`; with exactly one such king it finds that king's square.
   */
  method FindKing(s: Match, c: Color) returns (k: Pos)
    requires Consistent(s) && |KingIds(s, c)| == 1
    ensures KingAt(s, k, c)
    ensures forall q | KingAt(s, q, c) :: q == k
  {
    ghost var kid :| kid in KingIds(s, c);
    ghost var home :| home in s.board && s.board[home] == kid;
    var todo := s.board.Keys;
    while todo != {}
      invariant todo <= s.board.Keys
      invariant home in todo
      decreases todo
    {
      var q :| q in todo;
      if KingAt(s, q, c) {
        forall r | KingAt(s, r, c)
          ensures r == q
        {
          SingletonMembers(KingIds(s, c), s.board[r], s.board[q]);
        }
        return q;
      }
      todo := todo - {q};
    }
    assert false;
  }

  /**
   * testCheck(color): find the king, then look through the opposing pieces
   * for one whose mask holds the king's square.
   */
  method TestCheck(s: Match, c: Color, mask: MoveMask) returns (inCheck: bool)
    requires Consistent(s) && |KingIds(s, c)| == 1
    ensures inCheck == InCheck(s, c, mask)
  {
    var k := FindKing(s, c);
    var todo := set a | a in s.board && HasColor(s, a, Opponent(c));
    while todo != {}
      invariant todo <= s.board.Keys
      invariant forall a | a in s.board && a !in todo :: !Attacks(s, a, k, c, mask)
      decreases todo
    {
      var a :| a in todo;
      if k in mask(s, a) {
        return true;
      }
      todo := todo - {a};
    }
    return false;
  }

  /**
   * One trial of testCheckMate: make the move, test check, undo the move.
   * The state comes back unchanged.
   */
  method TryMove(s: Match, src: Pos, t: Pos, c: Color, mask: MoveMask) returns (still: bool, after: Match)
    requires Consistent(s) && |KingIds(s, c)| == 1 && SoundMask(mask)
    requires HasColor(s, src, c) && t in mask(s, src)
    ensures after == s
    ensures still == TrialInCheck(s, src, t, c, mask)
  {
    var m := MakeMove(s, src, t);
    MakeMoveKings(s, src, t, c);
    still := TestCheck(m.after, c, mask);
    UndoMakeMove(s, src, t);
    after := UndoMove(m.after, src, t, m.captured);
  }

  /**
   * The inner loops of testCheckMate for one piece: every square of its
   * mask is tried in turn until one escapes check.
   */
  method TryPiece(s: Match, src: Pos, c: Color, mask: MoveMask) returns (allInCheck: bool, after: Match)
    requires Consistent(s) && |KingIds(s, c)| == 1 && SoundMask(mask)
    requires HasColor(s, src, c)
    ensures after == s
    ensures allInCheck == forall t | t in mask(s, src) :: TrialInCheck(s, src, t, c, mask)
  {
    after := s;
    var targets := mask(after, src);
    while targets != {}
      invariant after == s
      invariant targets <= mask(s, src)
      invariant forall t | t in mask(s, src) && t !in targets :: TrialInCheck(s, src, t, c, mask)
      decreases targets
    {
      var t :| t in targets;
      var still;
      still, after := TryMove(after, src, t, c, mask);
      if !still {
        return false, after;
      }
      targets := targets - {t};
    }
    return true, after;
  }

  /**
   * testCheckMate(color): not in check means no mate; otherwise every
   * destination of every piece of `c` is tried, and the first escape ends
   * the search. The state handed back is the state handed in.
   */
  method TestCheckMate(s: Match, c: Color, mask: MoveMask) returns (mate: bool, after: Match)
    requires Consistent(s) && |KingIds(s, c)| == 1 && SoundMask(mask)
    ensures after == s
    ensures mate == IsCheckMate(s, c, mask)
  {
    after := s;
    var inCheck := TestCheck(s, c, mask);
    if !inCheck {
      return false, after;
    }
    var pieces := set p | p in s.board && HasColor(s, p, c);
    while pieces != {}
      invariant after == s
      invariant pieces <= s.board.Keys
      invariant forall p, t | p in s.board && HasColor(s, p, c) && p !in pieces && t in mask(s, p) ::
                  TrialInCheck(s, p, t, c, mask)
      decreases pieces
    {
      var src :| src in pieces;
      var allInCheck;
      allInCheck, after := TryPiece(after, src, c, mask);
      if !allInCheck {
        return false, after;
      }
      pieces := pieces - {src};
    }
    return true, after;
  }
}
