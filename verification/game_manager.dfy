/**
 * The session guard: a one-shot latch. The first win or lose signal ends the
 * game and emits its own event; later signals do nothing until a reset.
 */
module GameManager {

  datatype Session = Session(isGameOver: bool)

  /** The signals the bar raises. */
  datatype Signal = WinSignal | LoseSignal

  /** The events the session emits to the user interface. */
  datatype GameEvent = GameWin | GameLose

  /** A session after handling signals, and the events it emitted meanwhile. */
  datatype Handled = Handled(session: Session, emitted: seq<GameEvent>)

  function EventFor(s: Signal): GameEvent {
    match s
    case WinSignal => GameWin
    case LoseSignal => GameLose
  }

  /** A session as it starts. */
  function NewSession(): (s: Session)
    ensures !s.isGameOver
  {
    Session(false)
  }

  /**
   * Both handlers: while the game is on, the signal ends it and emits its own
   * event; once it is over, the signal changes nothing and emits nothing.
   */
  function Handle(s: Session, signal: Signal): (r: Handled)
    ensures s.isGameOver ==> r.session == s && r.emitted == []
    ensures !s.isGameOver ==> r.session.isGameOver && r.emitted == [EventFor(signal)]
  {
    if s.isGameOver then Handled(s, [])
    else Handled(Session(true), [EventFor(signal)])
  }

  function HandleWin(s: Session): (r: Handled)
    ensures s.isGameOver ==> r.session == s && r.emitted == []
    ensures !s.isGameOver ==> r.session.isGameOver && r.emitted == [GameWin]
  {
    Handle(s, WinSignal)
  }

  function HandleLose(s: Session): (r: Handled)
    ensures s.isGameOver ==> r.session == s && r.emitted == []
    ensures !s.isGameOver ==> r.session.isGameOver && r.emitted == [GameLose]
  {
    Handle(s, LoseSignal)
  }

  /** Re-arms the latch. */
  function ResetGame(s: Session): (r: Session)
    ensures !r.isGameOver
  {
    Session(false)
  }

  /** A run of signals handled one after another, with no reset in between. */
  function HandleAll(s: Session, signals: seq<Signal>): Handled
    decreases |signals|
  {
    if signals == [] then Handled(s, [])
    else
      var first := Handle(s, signals[0]);
      var rest := HandleAll(first.session, signals[1..]);
      Handled(rest.session, first.emitted + rest.emitted)
  }

  /**
   * Without a reset at most one terminal event is emitted: the one for the
   * first signal if the game was on, none if it was already over. Once over,
   * the game stays over.
   */
  lemma {:induction false} AtMostOneTerminalEvent(s: Session, signals: seq<Signal>)
    ensures |HandleAll(s, signals).emitted| <= 1
    ensures s.isGameOver ==> HandleAll(s, signals) == Handled(s, [])
    ensures !s.isGameOver && signals != [] ==>
      HandleAll(s, signals).emitted == [EventFor(signals[0])] && HandleAll(s, signals).session.isGameOver
    ensures !s.isGameOver && signals == [] ==> HandleAll(s, signals) == Handled(s, [])
    decreases |signals|
  {
    if signals != [] {
      var first := Handle(s, signals[0]);
      AtMostOneTerminalEvent(first.session, signals[1..]);
    }
  }
}
