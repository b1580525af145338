/**
 * How the pieces work together: a click (the piece's guard, the bar's
 * admission and the rollback on rejection), a landing whose signal reaches the
 * session, the retry sequence, and the behaviour in a few
 * concrete games.
 */
module Game {
  import opened Shape
  import opened ActionBar
  import opened Spawner
  import opened GameManager

  // ------------------------------------------------------------------- clicks

  datatype ClickOutcome = ClickIgnored | BarRejected | BarAccepted(slot: nat)

  /** The clicked piece afterwards, the bar afterwards, and what happened. */
  datatype Selection = Selection(piece: Piece, bar: Bar, outcome: ClickOutcome)

  /**
   * A click on piece `p`: the click guard, then the bar's admission of the
   * now flying piece, then the rollback if the bar turns it away.
   */
  function Select(b: Bar, p: Piece): (r: Selection)
    ensures r.outcome.ClickIgnored? <==> !CanClick(p)
    ensures r.outcome.BarRejected? <==> CanClick(p) && (Contains(b, p.id) || IsFull(b))
    ensures !r.outcome.BarAccepted? ==> r.piece == p && r.bar == b
    ensures r.outcome.BarAccepted? ==>
      && r.piece == p.(isFlying := true)
      && r.outcome.slot == |b.inBar|
      && r.bar == Bar(b.inBar + [r.piece], b.slots)
    ensures Valid(b) ==> Valid(r.bar)
  {
    match OnMouseDown(p)
    case Ignored => Selection(p, b, ClickIgnored)
    case Launched(flying) =>
      match AddToBar(b, flying)
      case Rejected =>
        RejectedClickRestoresPiece(p);
        Selection(ReturnToPhysics(flying), b, BarRejected)
      case Accepted(bar, slot) =>
        assert bar.inBar == b.inBar + [flying];
        Selection(flying, bar, BarAccepted(slot))
  }

  // ----------------------------------------------------------------- landings

  datatype Game = Game(bar: Bar, session: Session)

  /** A landing, with its win or lose signal passed on to the session. */
  datatype Step = Step(game: Game, pending: ScanResult, emitted: seq<GameEvent>)

  function Land(g: Game, id: nat, fieldRemaining: nat): (r: Step)
    ensures var landing := OnShapeLanded(g.bar, id, fieldRemaining);
      && r.game.bar == landing.bar
      && r.pending == landing.pending
      && (landing.outcome == Lose && !g.session.isGameOver <==> r.emitted == [GameLose])
      && (landing.outcome == Win && !g.session.isGameOver <==> r.emitted == [GameWin])
      && |r.emitted| <= 1
      && (g.session.isGameOver ==> r.game.session == g.session && r.emitted == [])
      && (r.game.session.isGameOver <==> g.session.isGameOver || landing.outcome == Lose || landing.outcome == Win)
      && (landing.outcome != Lose && landing.outcome != Win ==> r.game.session == g.session)
  {
    var landing := OnShapeLanded(g.bar, id, fieldRemaining);
    match landing.outcome
    case Lose =>
      var h := HandleLose(g.session);
      Step(Game(landing.bar, h.session), landing.pending, h.emitted)
    case Win =>
      var h := HandleWin(g.session);
      Step(Game(landing.bar, h.session), landing.pending, h.emitted)
    case _ => Step(Game(landing.bar, g.session), landing.pending, [])
  }

  // -------------------------------------------------------- retry and refresh

  /** The pieces a build spawns, numbered from `firstId`, each fresh from the spawner. */
  function SpawnPieces(spawns: seq<Spawn>, firstId: nat): (field: seq<Piece>)
    ensures |field| == |spawns|
    ensures forall i :: 0 <= i < |field| ==>
      field[i].id == firstId + i && field[i].data == spawns[i].data && !field[i].isFlying
      && (field[i].isFrozen <==> spawns[i].data.special == Frozen)
      && field[i].frozenCounter == spawns[i].data.frozenThreshold
  {
    seq(|spawns|, i requires 0 <= i < |spawns| => Initialize(firstId + i, spawns[i].data))
  }

  /** The retry sequence: clear the bar, respawn the full field, re-arm the session. */
  datatype Retried = Retried(game: Game, build: Build)

  /**
   * Whatever state the game ended in, a retry leaves an empty bar with the same
   * slots, a session that is on again, and a fresh full field when the build
   * succeeds.
   */
  function Retry(g: Game, cfg: Config, picks: seq<nat>, swaps: seq<nat>): (r: Retried)
    requires DrawsFit(FullTotal(cfg), |cfg.catalog|, picks, swaps)
    ensures r.game.bar.inBar == [] && r.game.bar.slots == g.bar.slots && Valid(r.game.bar)
    ensures !r.game.session.isGameOver
    ensures r.build.Built? ==> |r.build.spawns| == 3 * cfg.initialSetsCount
    ensures r.build.Failed? <==>
      cfg.initialSetsCount < 0 || (cfg.initialSetsCount > 0 && (|cfg.catalog| == 0 || cfg.columns == 0))
  {
    var bar := ClearBar(g.bar);
    var build := FullRespawn(cfg, picks, swaps);
    Retried(Game(bar, ResetGame(g.session)), build)
  }

  // ------------------------------------------------------- concrete behaviour

  function GroundedPiece(id: nat, shape: ShapeType, c: Color, special: SpecialType): Piece {
    Piece(id, ShapeData(shape, Chicken, c, special, DefaultFrozenThreshold), false, false, DefaultFrozenThreshold)
  }

  function FlyingPiece(id: nat, shape: ShapeType, c: Color): Piece {
    Piece(id, ShapeData(shape, Chicken, c, None, DefaultFrozenThreshold), true, false, DefaultFrozenThreshold)
  }

  /**
   * Six slots filled with pieces no three adjacent of which match: the sixth
   * landing loses, and the session emits the lose event exactly once.
   */
  lemma SixUnmatchedPiecesLose(c: Color)
    ensures var bar := Bar([GroundedPiece(0, Circle, c, None), GroundedPiece(1, Triangle, c, None),
                            GroundedPiece(2, Circle, c, None), GroundedPiece(3, Triangle, c, None),
                            GroundedPiece(4, Circle, c, None), FlyingPiece(5, Triangle, c)], 6);
      var step := Land(Game(bar, NewSession()), 5, 12);
      && step.pending == NoMatch
      && step.emitted == [GameLose]
      && Land(step.game, 5, 12).emitted == []
  {
    var bar := Bar([GroundedPiece(0, Circle, c, None), GroundedPiece(1, Triangle, c, None),
                    GroundedPiece(2, Circle, c, None), GroundedPiece(3, Triangle, c, None),
                    GroundedPiece(4, Circle, c, None), FlyingPiece(5, Triangle, c)], 6);
    var landed := LandPiece(bar, 5);
    forall j | 0 <= j
      ensures !WindowMatches(landed.inBar, j)
    {
      if j + 2 < 6 {
        assert landed.inBar[j].Shape() != landed.inBar[j + 1].Shape();
      }
    }
    assert OnShapeLanded(bar, 5, 12).outcome == Lose;
  }

  /**
   * Three matching pieces land in an empty six-slot bar: the scan schedules the
   * window at 0, applying it empties the bar, and the next piece takes slot 0.
   */
  lemma FirstTripleEmptiesBar(c: Color, next: Piece)
    requires next.id > 2 && CanClick(next)
    ensures var bar := Bar([GroundedPiece(0, Square, c, None), GroundedPiece(1, Square, c, None), FlyingPiece(2, Square, c)], 6);
      var landing := OnShapeLanded(bar, 2, 20);
      && landing.pending == MatchAt(0)
      && landing.outcome == Continue
      && ApplyPending(landing.bar, landing.pending).inBar == []
      && Select(ApplyPending(landing.bar, landing.pending), next).outcome == BarAccepted(0)
  {
  }

  /**
   * The same, with one of the three Explosive: the scan schedules a bomb, and
   * applying it clears every piece in the bar, not just the three.
   */
  lemma ExplosiveTripleClearsBar(c: Color, d: Color)
    requires c != d
    ensures var bar := Bar([GroundedPiece(7, Hexagon, d, None),
                            GroundedPiece(0, Square, c, None), GroundedPiece(1, Square, c, Explosive), FlyingPiece(2, Square, c)], 6);
      var landing := OnShapeLanded(bar, 2, 20);
      && landing.pending == BombAt(1)
      && ApplyPending(landing.bar, landing.pending).inBar == []
  {
    var bar := Bar([GroundedPiece(7, Hexagon, d, None),
                    GroundedPiece(0, Square, c, None), GroundedPiece(1, Square, c, Explosive), FlyingPiece(2, Square, c)], 6);
    var landed := LandPiece(bar, 2);
    assert !WindowMatches(landed.inBar, 0);
    assert WindowMatches(landed.inBar, 1);
  }

  /** A second request for a piece that already holds a slot is rejected. */
  lemma SecondReservationRejected(b: Bar, p: Piece)
    requires AddToBar(b, p).Accepted?
    ensures AddToBar(AddToBar(b, p).bar, p).Rejected?
  {
  }

  /**
   * The bar checks for a full bar before the scan's removal runs. In four slots
   * holding three matching pieces and a flying fourth, the third landing
   * schedules the triple's removal, yet the bar counts as full and its last
   * three pieces do not match, so the game is lost; the removal would have left
   * one piece.
   */
  lemma LoseWithRemovalPending(c: Color)
    ensures var bar := Bar([GroundedPiece(0, Square, c, None), GroundedPiece(1, Square, c, None),
                            FlyingPiece(2, Square, c), FlyingPiece(3, Circle, c)], 4);
      var landing := OnShapeLanded(bar, 2, 20);
      && landing.pending == MatchAt(0)
      && landing.outcome == Lose
      && |ApplyPending(landing.bar, landing.pending).inBar| == 1
  {
  }

  /**
   * The landing that fills the bar with an end match returns before the win
   * check: when it is also the last piece from the field, the end-fill removal
   * leaves two pieces, nothing is emitted, the session stays on, and the
   * pending removal no longer fits the shortened bar, so the game stalls.
   */
  lemma EndFillOnLastPieceStalls(c: Color)
    ensures var bar := Bar([GroundedPiece(0, Circle, c, None), GroundedPiece(1, Triangle, c, None),
                            GroundedPiece(2, Square, c, None), GroundedPiece(3, Square, c, None),
                            FlyingPiece(4, Square, c)], 5);
      var step := Land(Game(bar, NewSession()), 4, 0);
      && step.pending == MatchAt(2)
      && step.emitted == []
      && !step.game.session.isGameOver
      && |step.game.bar.inBar| == 2
      && ApplyPending(step.game.bar, step.pending) == step.game.bar
  {
    var bar := Bar([GroundedPiece(0, Circle, c, None), GroundedPiece(1, Triangle, c, None),
                    GroundedPiece(2, Square, c, None), GroundedPiece(3, Square, c, None),
                    FlyingPiece(4, Square, c)], 5);
    var landed := LandPiece(bar, 4);
    assert !WindowMatches(landed.inBar, 0) && !WindowMatches(landed.inBar, 1);
    assert WindowMatches(landed.inBar, 2);
    assert OnShapeLanded(bar, 4, 0).outcome == EndFillRemoved;
  }

  /**
   * The win check only asks that the bar is not full and the field is empty:
   * a last landing wins even with unmatched pieces left in the bar.
   */
  lemma WinWithPiecesLeft(c: Color)
    ensures var bar := Bar([GroundedPiece(0, Circle, c, None), FlyingPiece(1, Triangle, c)], 6);
      var step := Land(Game(bar, NewSession()), 1, 0);
      && step.pending == NoMatch
      && step.emitted == [GameWin]
      && |step.game.bar.inBar| == 2
  {
  }
}
