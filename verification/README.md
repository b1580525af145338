# Pop-three tile game: the rules, modelled in Dafny

This project models the rule logic of a Unity "pop three" tile game. The
engine, rendering, animation and audio are left out. The player clicks pieces
on a field. Each piece flies into the next free slot of a bounded bar. Three
adjacent, landed pieces with the same shape, animal and colour are removed.
The game is lost when the bar fills without such a match at its end, and won
when a landing leaves the bar not full and the field empty.

The model has five modules:

- `Shape` (`shape.dfy`): the attribute enums, the catalog entry (`ShapeData`)
  and the per-piece state of `ShapeController`. This state is the flying flag,
  the frozen flag and the frozen counter. The module also holds the click
  guard, the rollback on rejection and the landing transition. `Color` is an
  opaque type that is only compared for equality. A piece's `id` stands for
  the identity of its game object.
- `ActionBar` (`action_bar.dfy`): the bar of `ActionBarManager`, modelled as
  a `seq<Piece>` plus a slot count. It covers admission, the triplet scan,
  removal with compaction, clearing, re-seating, and the landing step with
  its end-fill and win checks.
- `Spawner` (`spawner.dfy`): the field generator of `ShapeSpawner`. It builds
  `total / 3` same-entry triples plus single picks, then runs a Fisher–Yates
  shuffle and assigns each piece its column. Randomness is passed in as the
  sequence of draws the generator makes.
- `GameManager` (`game_manager.dfy`): the one-shot win/lose latch.
- `Game` (`game.dfy`): the pieces wired together. It covers a click, a
  landing whose signal reaches the session, and the retry sequence. It also
  holds concrete games that show the behaviour.

## Behaviour of the code that the model keeps

- **Removal is deferred.** The scan in `CheckAllTriplets` schedules its
  removal with a zero-delay call. The full-bar check that follows it in
  `OnShapeLanded` therefore sees the bar *before* that removal. The model
  returns the scheduled removal as `pending` next to the outcome.
  `Game.LoseWithRemovalPending` shows a concrete four-slot game that is lost
  while a pending removal would have left one piece. The end-fill removal is
  a direct call, so it is applied at once.
- **A removal does not check for a match.** When a removal scheduled at
  index `i` finally runs, it removes whatever three grounded pieces sit at
  `i` at that moment.
- **The win check does not look at the bar's contents.** It only asks that
  the bar is not full and the field is empty. `Game.WinWithPiecesLeft` shows
  a win with two unmatched pieces left in the bar.
- **An end-fill removal skips the win check.** The end-fill branch returns
  before the field is looked at. When the landing that fills the bar with an
  end match is also the last piece from the field, no win or lose event
  fires; with the field empty no further landing can follow, so the game
  stalls. `Game.EndFillOnLastPieceStalls` shows this on a five-slot bar.
- **Frozen pieces cannot be clicked.** A piece spawned with the Frozen trait
  ignores clicks. Its counter only moves on a landing, so through normal play
  it never thaws (`Shape.FrozenSpawnIgnoresClicks`).
- **Re-seating counts landings again.** `RearrangeBar` lands every piece
  still in the bar once more. That decrements the frozen counters of any
  Frozen pieces again (`Shape.LandTimesCountsDown`).

Deliberate choices where the code's behaviour may surprise:

- Spawns share one height. There is no row offset; only the column `i mod
  columns` varies.
- The full check runs before the scheduled removal, not after it.
- A second landing of a grounded piece does not fail. It lands the piece
  again.
- A loss does not freeze the bar.
- A win does not require an empty bar.

## Model

| member | source | states |
|---|---|---|
| `Shape.AttributesComeFromEntry` | Assets/Scripts/Shape/ShapeController.cs:23-27 | the shape, animal, colour and Explosive trait a piece reports are its catalog entry's, before and after a click and any number of landings |
| `Shape.Initialize` | Assets/Scripts/Shape/ShapeController.cs:37-69 | a spawned piece is grounded, its counter is the entry's threshold, and it is frozen exactly when its trait is Frozen |
| `Shape.CanClick` | Assets/Scripts/Shape/ShapeController.cs:73 | a click is taken only by a piece that is neither flying nor frozen |
| `Shape.OnMouseDown` | Assets/Scripts/Shape/ShapeController.cs:71-80 | a click is ignored exactly when the piece is flying or frozen; an accepted click marks it flying and changes nothing else |
| `Shape.ReturnToPhysics` | Assets/Scripts/Shape/ShapeController.cs:83-88 | the rollback grounds the piece and keeps its identity and frozen state |
| `Shape.OnLanded` | Assets/Scripts/Shape/ShapeController.cs:97-105 | a landing always grounds the piece; a Frozen piece counts down by exactly one and thaws at a counter of at most zero; other pieces keep counter and flag |
| `Shape.RejectedClickRestoresPiece` | Assets/Scripts/Shape/ShapeController.cs:71-88 | launching a clickable piece and rolling it back gives the original piece |
| `Shape.FrozenSpawnIgnoresClicks` | Assets/Scripts/Shape/ShapeController.cs:58-73 | a freshly spawned Frozen piece is frozen, ignores clicks, and stays frozen through a rollback |
| `Shape.LandTimesCountsDown` | Assets/Scripts/Shape/ShapeController.cs:97-105 | after k landings a Frozen piece has counted down by exactly k and is frozen only while the counter is positive; other pieces are unchanged but grounded |
| `ActionBar.IsFull` | Assets/Scripts/UI/ActionBarManager.cs:25 | the bar is full once it holds at least as many pieces as it has slots |
| `ActionBar.Matches` | Assets/Scripts/UI/ActionBarManager.cs:106-108 | three pieces match exactly when they agree on shape, animal and colour, the test both the scan and the end-fill check use (lines 79-81) |
| `ActionBar.AddToBar` | Assets/Scripts/UI/ActionBarManager.cs:25-51 | rejected exactly when the piece is already in the bar or the bar is full; otherwise the piece takes slot old-length and earlier slots are unchanged |
| `ActionBar.AddToBarKeepsValid` | Assets/Scripts/UI/ActionBarManager.cs:25-51 | the presence and capacity checks keep a valid bar within its slots and free of duplicate pieces |
| `ActionBar.ScanFrom` | Assets/Scripts/UI/ActionBarManager.cs:98-110 | from an index on, finds no window exactly when none is eligible, else the first eligible window, marked as a bomb exactly when it holds an Explosive piece |
| `ActionBar.CheckAllTriplets` | Assets/Scripts/UI/ActionBarManager.cs:96-127 | the scan reports the lowest window of three grounded matching pieces, at most one per pass; windows with a flying piece are never chosen; a bomb exactly when the window holds an Explosive piece |
| `ActionBar.RemoveTripleWithAnimation` | Assets/Scripts/UI/ActionBarManager.cs:129-138 | a no-op when the window is out of range or holds a flying piece; otherwise the length drops by exactly 3, earlier pieces stay put and later ones shift down by 3 |
| `ActionBar.RemoveTripleRoundTrip` | Assets/Scripts/UI/ActionBarManager.cs:131-138 | putting the removed three back at the start index restores the bar, so the removal keeps the order of the rest |
| `ActionBar.ClearBar` | Assets/Scripts/UI/ActionBarManager.cs:182-198 | clearing empties the bar and keeps its slots |
| `ActionBar.RearrangeBar` | Assets/Scripts/UI/ActionBarManager.cs:159-180 | re-seating keeps every piece in its index and lands each one, so all are grounded |
| `ActionBar.LandPiece` | Assets/Scripts/UI/ActionBarManager.cs:63-67 | the landing piece receives its landing; every other slot is untouched |
| `ActionBar.OnShapeLanded` | Assets/Scripts/UI/ActionBarManager.cs:63-94 | the scan's removal stays pending; lose exactly when the bar is full and its last three do not match; win exactly when the bar is not full and the field is empty; an end-fill match removes exactly the last three, keeps the slots and signals neither |
| `ActionBar.ApplyPending` | Assets/Scripts/UI/ActionBarManager.cs:113-124 | a scheduled bomb empties the whole bar; a scheduled match cuts exactly its window out of the bar as it then is, keeping the rest in order, or changes nothing if that window is out of range or holds a flying piece; nothing scheduled changes nothing |
| `ActionBar.Cascade` | Assets/Scripts/UI/ActionBarManager.cs:113-155 | repeated scan, removal and re-seating terminates and keeps the slots; a cascade ending in a bomb leaves an empty bar, any other loses exactly three pieces per pass; it leaves no window the scan would act on, brings in no piece that was not in the bar, and keeps a valid bar valid |
| `ActionBar.CascadeRemovesInThrees` | Assets/Scripts/UI/ActionBarManager.cs:117-138 | every pass, a bomb included, takes at least three pieces away, so there are at most a third as many passes as pieces |
| `ActionBar.CascadeKeepsOrder` | Assets/Scripts/UI/ActionBarManager.cs:129-176 | each piece the cascade leaves is a piece of the bar before, landed once more per removing pass, taken from strictly increasing positions: only whole windows go and the rest keeps its order |
| `ActionBar.KeptLanded` | Assets/Scripts/UI/ActionBarManager.cs:154-176 | by induction over the passes: the piece at each kept position is re-landed by every pass's re-seat, and the kept positions rise |
| `ActionBar.KeptThroughRemoval` | Assets/Scripts/UI/ActionBarManager.cs:136-176 | one pass in positions: after the window at `start` is cut out, positions before it stay and later ones shift down by three, preserving order, and the re-seat adds one landing to each piece |
| `ActionBar.CascadeKeepsRelativeOrder` | Assets/Scripts/UI/ActionBarManager.cs:129-176 | in a valid bar, two pieces left by the cascade stand in the order the same pieces stood in before |
| `Spawner.Tripled` | Assets/Scripts/Shape/ShapeSpawner.cs:58-65 | each drawn entry appears three times in a row, at 3k, 3k+1 and 3k+2 |
| `Spawner.BuildQueue` | Assets/Scripts/Shape/ShapeSpawner.cs:57-67 | the queue has exactly `total` entries: `total / 3` same-entry triples first, then the single picks |
| `Spawner.Swap` | Assets/Scripts/Shape/ShapeSpawner.cs:72 | one exchange swaps the two entries, leaves the rest and keeps the multiset |
| `Spawner.ShuffleDown` | Assets/Scripts/Shape/ShapeSpawner.cs:69-73 | the Fisher–Yates steps from index i down to 1 keep the length and the multiset of entries |
| `Spawner.Shuffle` | Assets/Scripts/Shape/ShapeSpawner.cs:69-73 | the whole shuffle is a permutation of the queue when every draw for index i lies in [0, i] |
| `Spawner.Layout` | Assets/Scripts/Shape/ShapeSpawner.cs:75-80 | the i-th spawn carries the i-th queue entry, in column i mod the column count |
| `Spawner.LayoutCycles` | Assets/Scripts/Shape/ShapeSpawner.cs:77 | for any non-zero column count, a run of as many consecutive spawns as there are columns uses each column once, and a spawn that many places later shares the column |
| `Spawner.SpawnRoutine` | Assets/Scripts/Shape/ShapeSpawner.cs:55-83 | fails exactly on a negative count, or on an empty catalog or zero columns with something to spawn; otherwise spawns exactly `total` pieces, the i-th in column i mod the column count, whose entries are the built queue's entries rearranged |
| `Spawner.SpawnKeepsTriples` | Assets/Scripts/Shape/ShapeSpawner.cs:57-80 | a build with a non-negative count, and a catalog and columns whenever there is something to spawn, succeeds; every entry drawn for a triple is still on the spawned field three times over, as disjoint triples, so the field holds at least `total / 3` same-entry triples |
| `Spawner.FullRespawn` | Assets/Scripts/Shape/ShapeSpawner.cs:23-34 | the first build and a full respawn spawn three pieces per configured set |
| `Spawner.RefreshField` | Assets/Scripts/Shape/ShapeSpawner.cs:36-42 | a refresh spawns as many pieces as the field held before it was cleared |
| `GameManager.NewSession` | Assets/Scripts/Managers/GameManager.cs:12 | a fresh session is not over |
| `GameManager.Handle` | Assets/Scripts/Managers/GameManager.cs:31-43 | a signal while the game is on ends it and emits its own event; once over, a signal changes nothing and emits nothing |
| `GameManager.HandleWin` | Assets/Scripts/Managers/GameManager.cs:31-36 | the first win signal ends the game and emits the win event; later ones are no-ops |
| `GameManager.HandleLose` | Assets/Scripts/Managers/GameManager.cs:38-43 | the first lose signal ends the game and emits the lose event; later ones are no-ops |
| `GameManager.ResetGame` | Assets/Scripts/Managers/GameManager.cs:45-48 | a reset re-arms the latch |
| `GameManager.AtMostOneTerminalEvent` | Assets/Scripts/Managers/GameManager.cs:31-48 | without a reset at most one event is emitted, the one for the first signal if the game was on, and an over game stays over |
| `Game.Select` | Assets/Scripts/Shape/ShapeController.cs:71-88 | a click is ignored, rejected or accepted exactly as the guard and the bar decide; ignored and rejected clicks leave piece and bar unchanged; an accepted piece is the clicked piece with only its flight flag set, and flies into slot old-length |
| `Game.Land` | Assets/Scripts/Managers/GameManager.cs:24-43 | a landing's lose or win signal emits its event exactly when the session was on, and never more than one event; afterwards the session is over exactly when it already was or the landing lost or won, and a landing that neither loses nor wins leaves the session as it was |
| `Game.SpawnPieces` | Assets/Scripts/Shape/ShapeSpawner.cs:75-82 | the i-th spawned piece is initialised from the i-th spawn's entry |
| `Game.Retry` | Assets/Scripts/UI/GameCanvas.cs:72-74 | a retry leaves an empty bar with the same slots, a re-armed session, and a build that fails exactly when the configured set count is negative, or is positive with an empty catalog or no columns, and otherwise spawns three pieces per set |
| `Game.SixUnmatchedPiecesLose` | Assets/Scripts/UI/ActionBarManager.cs:71-89 | six slots filled without an adjacent match lose at the sixth landing, and the lose event fires once |
| `Game.FirstTripleEmptiesBar` | Assets/Scripts/UI/ActionBarManager.cs:96-138 | a first matching triple is scheduled at 0, its removal empties the bar, and the next piece takes slot 0 |
| `Game.ExplosiveTripleClearsBar` | Assets/Scripts/UI/ActionBarManager.cs:113-117 | a matched window with an Explosive piece clears the whole bar, not only the three |
| `Game.SecondReservationRejected` | Assets/Scripts/UI/ActionBarManager.cs:30-36 | a piece admitted once is rejected when it asks again |
| `Game.LoseWithRemovalPending` | Assets/Scripts/UI/ActionBarManager.cs:69-89 | a landing can lose while its own scan has a removal pending that would have left the bar one piece |
| `Game.WinWithPiecesLeft` | Assets/Scripts/UI/ActionBarManager.cs:71-93 | a landing wins with unmatched pieces still in the bar, once the field is empty and the bar is not full |
| `Game.EndFillOnLastPieceStalls` | Assets/Scripts/UI/ActionBarManager.cs:82-93 | a last landing that fills a five-slot bar with an end match removes the three, emits nothing, leaves the session on and two pieces in the bar, and the pending removal no longer applies |

## Left out

- Animation, timing and physics are left out: DOTween moves, scales,
  durations and eases; the delays before a scheduled call runs; Rigidbody2D
  and Collider2D toggling; reparenting to slots; VFX; audio. Only the logical
  order of the steps is kept.
- Nested tween completion is not modelled. In the code, killing a tween with
  completion can fire a pending landing callback at once. The model lands
  each piece only through `OnShapeLanded` and `RearrangeBar`.
- Float positions are not modelled: cell width, start position, slot
  positions and VFX centres. Only the integer column is kept.
- The Heavy and Sticky traits are not modelled. They are physics only:
  gravity scale and reparenting on collision.
- The field is not modelled as a set of scene objects. Its child count is
  the input `fieldRemaining` to a landing, and the input `fieldCount` to a
  refresh.
- Spawning one piece per delay, and stopping a running spawn, are not
  modelled. A build is one atomic function. A failed build spawns nothing.
- Unity's tolerance-based colour equality is not modelled. Colours are
  compared exactly.
- Spawner.FullRespawn: does not model the 32-bit wrap-around of
  `_initialSetsCount * 3`. Unbounded integers are used, because a wrap needs
  more than 715 million configured sets.
- The singleton setup and event subscription of the managers are not
  modelled; neither are the click event, the renderers (`ApplyData`), the
  panel animation, the audio manager, the frame-rate counter or the frame-rate
  setup. They are presentation and engine wiring.
- `ActionBar.Cascade` models a cascade with nothing else happening in
  between. In the running game, clicks and landings can interleave with the
  scheduled removals. `ApplyPending` and `OnShapeLanded` model those steps
  one by one.
- The re-seat and delayed rescan that follow every removal are not part of
  `ApplyPending` or of an `EndFillRemoved` landing. A caller applying either
  must follow it with `RearrangeBar` and a new scan; only `Cascade` chains
  these steps itself.
- A field refresh does not touch pieces still flying to the bar. In the code
  a clicked piece stays under the field's root until its landing reparents
  it, so a refresh counts it, respawns it and destroys it in flight: its
  landing never runs and it stays in the bar as a flying piece whose object
  is gone. In the model `RefreshField` only returns a new build, and
  `RearrangeBar` and `ClearBar` treat such a piece like any other.
