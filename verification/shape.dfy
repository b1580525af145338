/**
 * The attributes of a piece (a catalog entry, `ShapeData`) and the state each
 * piece instance carries on the field and in the bar (`ShapeController`).
 */
module Shape {

  datatype ShapeType = Circle | Triangle | Square | Hexagon
  datatype AnimalType = Chicken | Dog | Elephant | Wolf
  datatype SpecialType = None | Heavy | Sticky | Explosive | Frozen

  /** A body colour. The rules only ever compare two colours for equality. */
  type Color(==)

  /** The frozen threshold a catalog entry has unless it is configured otherwise. */
  const DefaultFrozenThreshold: int := 3

  /** A catalog entry. Sprites and the prefab are presentation only and are not kept. */
  datatype ShapeData = ShapeData(
    shapeType: ShapeType,
    animalType: AnimalType,
    bodyColor: Color,
    special: SpecialType,
    frozenThreshold: int)

  /**
   * One piece instance. `id` stands for the identity of the game object: two
   * pieces built from the same catalog entry are still different pieces.
   */
  datatype Piece = Piece(
    id: nat,
    data: ShapeData,
    isFlying: bool,
    isFrozen: bool,
    frozenCounter: int)
  {
    function Shape(): ShapeType { data.shapeType }
    function Animal(): AnimalType { data.animalType }
    function BodyColor(): Color { data.bodyColor }
    predicate IsExplosive() { data.special == Explosive }
  }

  /** True when `q` is `p` with possibly different flight and frozen state. */
  predicate SameIdentity(p: Piece, q: Piece) {
    q.id == p.id && q.data == p.data
  }

  /**
   * A freshly spawned piece: grounded, its counter loaded from the entry's
   * threshold, and frozen exactly when its special trait is Frozen.
   */
  function Initialize(id: nat, data: ShapeData): (p: Piece)
    ensures p.id == id && p.data == data
    ensures !p.isFlying
    ensures p.frozenCounter == data.frozenThreshold
    ensures p.isFrozen <==> data.special == Frozen
  {
    Piece(id, data, false, data.special == Frozen, data.frozenThreshold)
  }

  /** The click guard: a flying or frozen piece ignores clicks. */
  predicate CanClick(p: Piece) {
    !p.isFlying && !p.isFrozen
  }

  datatype Click = Ignored | Launched(piece: Piece)

  /**
   * A click on a piece. An ignored click changes nothing; an accepted one marks
   * the piece as flying before it is handed to the bar.
   */
  function OnMouseDown(p: Piece): (r: Click)
    ensures r.Ignored? <==> p.isFlying || p.isFrozen
    ensures r.Launched? ==> SameIdentity(p, r.piece) && r.piece.isFlying
    ensures r.Launched? ==> r.piece.isFrozen == p.isFrozen && r.piece.frozenCounter == p.frozenCounter
  {
    if p.isFlying || p.isFrozen then Ignored else Launched(p.(isFlying := true))
  }

  /** The rollback run when the bar rejects a piece: it is grounded again. */
  function ReturnToPhysics(p: Piece): (r: Piece)
    ensures SameIdentity(p, r) && !r.isFlying
    ensures r.isFrozen == p.isFrozen && r.frozenCounter == p.frozenCounter
  {
    p.(isFlying := false)
  }

  /**
   * A piece arrives at its slot. It is grounded; a Frozen piece counts one
   * landing down and thaws once the counter is at most zero.
   */
  function OnLanded(p: Piece): (r: Piece)
    ensures SameIdentity(p, r) && !r.isFlying
    ensures p.data.special == Frozen ==>
      r.frozenCounter == p.frozenCounter - 1 && (r.isFrozen <==> p.isFrozen && r.frozenCounter > 0)
    ensures p.data.special != Frozen ==>
      r.frozenCounter == p.frozenCounter && r.isFrozen == p.isFrozen
  {
    if p.data.special == Frozen then
      var counter := p.frozenCounter - 1;
      p.(isFlying := false, frozenCounter := counter, isFrozen := if counter <= 0 then false else p.isFrozen)
    else
      p.(isFlying := false)
  }

  /** `k` landings in a row, as a piece that is re-landed in the bar receives them. */
  function LandTimes(p: Piece, k: nat): Piece
    decreases k
  {
    if k == 0 then p else LandTimes(OnLanded(p), k - 1)
  }

  /**
   * A rejected click is undone completely: launching a clickable piece and
   * rolling it back gives the piece it was.
   */
  lemma RejectedClickRestoresPiece(p: Piece)
    requires CanClick(p)
    ensures OnMouseDown(p).Launched?
    ensures ReturnToPhysics(OnMouseDown(p).piece) == p
  {
  }

  /**
   * A Frozen piece fresh from the spawner cannot be clicked, and neither the
   * click guard nor the rollback changes its frozen state: only a landing does,
   * and a landing needs an accepted click first.
   */
  lemma FrozenSpawnIgnoresClicks(id: nat, data: ShapeData)
    requires data.special == Frozen
    ensures Initialize(id, data).isFrozen
    ensures OnMouseDown(Initialize(id, data)).Ignored?
    ensures ReturnToPhysics(Initialize(id, data)).isFrozen
  {
  }

  /**
   * After `k` landings a Frozen piece has counted down by exactly `k`, and it
   * is still frozen only if it was frozen and the counter is still positive;
   * any other piece keeps its counter and frozen flag.
   */
  lemma {:induction false} LandTimesCountsDown(p: Piece, k: nat)
    ensures SameIdentity(p, LandTimes(p, k))
    ensures k > 0 ==> !LandTimes(p, k).isFlying
    ensures p.data.special == Frozen ==> LandTimes(p, k).frozenCounter == p.frozenCounter - k
    ensures p.data.special == Frozen && k > 0 ==>
      (LandTimes(p, k).isFrozen <==> p.isFrozen && p.frozenCounter - k > 0)
    ensures p.data.special != Frozen ==>
      LandTimes(p, k).frozenCounter == p.frozenCounter && LandTimes(p, k).isFrozen == p.isFrozen
    decreases k
  {
    if k > 0 {
      LandTimesCountsDown(OnLanded(p), k - 1);
    }
  }

  /**
   * The attributes the bar compares are read from the catalog entry, which a
   * piece keeps for life: after spawning, a click and any number of landings
   * it still has the entry's shape, animal and colour, and is Explosive
   * exactly when the entry's trait is.
   */
  lemma AttributesComeFromEntry(id: nat, data: ShapeData, k: nat)
    ensures var p := LandTimes(Initialize(id, data), k);
      && p.Shape() == data.shapeType && p.Animal() == data.animalType && p.BodyColor() == data.bodyColor
      && (p.IsExplosive() <==> data.special == Explosive)
    ensures OnMouseDown(LandTimes(Initialize(id, data), k)).Launched? ==>
      OnMouseDown(LandTimes(Initialize(id, data), k)).piece.data == data
  {
    LandTimesCountsDown(Initialize(id, data), k);
  }
}
