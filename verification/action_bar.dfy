/**
 * The bar: a bounded, ordered row of slots that pieces fly into. Landing a
 * piece runs the triplet scan, then the full-bar (end-fill) rule, then the
 * win check. The scan's removal is deferred: it is returned as a pending
 * action, and the checks that follow it see the bar before that removal.
 */
module ActionBar {
  import opened Shape

  /** The pieces in slot order, and the number of slots. */
  datatype Bar = Bar(inBar: seq<Piece>, slots: nat)

  predicate IsFull(b: Bar) {
    |b.inBar| >= b.slots
  }

  /** The piece with this identity occupies some slot. */
  predicate Contains(b: Bar, id: nat) {
    exists k :: 0 <= k < |b.inBar| && b.inBar[k].id == id
  }

  predicate DistinctIds(s: seq<Piece>) {
    forall i, j :: 0 <= i < j < |s| ==> s[i].id != s[j].id
  }

  /** What every bar reachable by the operations below satisfies. */
  predicate Valid(b: Bar) {
    |b.inBar| <= b.slots && DistinctIds(b.inBar)
  }

  /** The match predicate: same shape, same animal and same colour. */
  predicate Matches(a: Piece, b: Piece, c: Piece) {
    && a.Shape() == b.Shape() && b.Shape() == c.Shape()
    && a.Animal() == b.Animal() && b.Animal() == c.Animal()
    && a.BodyColor() == b.BodyColor() && b.BodyColor() == c.BodyColor()
  }

  predicate Grounded(s: seq<Piece>, start: int)
    requires 0 <= start && start + 2 < |s|
  {
    !s[start].isFlying && !s[start + 1].isFlying && !s[start + 2].isFlying
  }

  /** The window at `start` is eligible for the scan: three grounded, matching pieces. */
  predicate WindowMatches(s: seq<Piece>, start: int) {
    0 <= start && start + 2 < |s| && Grounded(s, start) && Matches(s[start], s[start + 1], s[start + 2])
  }

  predicate WindowExplosive(s: seq<Piece>, start: int)
    requires 0 <= start && start + 2 < |s|
  {
    s[start].IsExplosive() || s[start + 1].IsExplosive() || s[start + 2].IsExplosive()
  }

  /** The last three pieces match, flying or not (the end-fill test). */
  predicate EndMatch(s: seq<Piece>) {
    |s| >= 3 && Matches(s[|s| - 3], s[|s| - 2], s[|s| - 1])
  }

  // ---------------------------------------------------------------- admission

  datatype Admission = Rejected | Accepted(bar: Bar, slot: nat)

  /**
   * A piece asks for a slot. It is turned away when it is already in the bar
   * or every slot is taken; otherwise it takes the next free slot and every
   * earlier slot keeps its piece.
   */
  function AddToBar(b: Bar, p: Piece): (r: Admission)
    ensures r.Rejected? <==> Contains(b, p.id) || IsFull(b)
    ensures r.Accepted? ==>
      && r.slot == |b.inBar|
      && r.bar.slots == b.slots
      && |r.bar.inBar| == |b.inBar| + 1
      && r.bar.inBar[r.slot] == p
      && r.bar.inBar[..r.slot] == b.inBar
  {
    if Contains(b, p.id) || IsFull(b) then Rejected
    else Accepted(Bar(b.inBar + [p], b.slots), |b.inBar|)
  }

  /**
   * Admission keeps the bar invariant: the capacity check keeps the length
   * within the slots, and the presence check keeps every piece in one slot.
   */
  lemma AddToBarKeepsValid(b: Bar, p: Piece)
    requires Valid(b)
    ensures AddToBar(b, p).Accepted? ==> Valid(AddToBar(b, p).bar)
  {
  }

  // ----------------------------------------------------------------- the scan

  datatype ScanResult =
    | NoMatch
      /** A matched window holding an Explosive piece: the whole bar is to be cleared. */
    | BombAt(start: nat)
      /** A matched window to be removed on its own. */
    | MatchAt(start: nat)

  /** The scan from index `from` on; it stops at the first eligible window. */
  function ScanFrom(s: seq<Piece>, from: nat): (r: ScanResult)
    ensures r.NoMatch? <==> forall j :: from <= j ==> !WindowMatches(s, j)
    ensures !r.NoMatch? ==>
      && from <= r.start
      && WindowMatches(s, r.start)
      && (forall j :: from <= j < r.start ==> !WindowMatches(s, j))
      && (r.BombAt? <==> WindowExplosive(s, r.start))
    decreases |s| - from
  {
    if from + 2 >= |s| then NoMatch
    else if WindowMatches(s, from) then
      if WindowExplosive(s, from) then BombAt(from) else MatchAt(from)
    else ScanFrom(s, from + 1)
  }

  /**
   * The triplet scan: it reports the lowest eligible window, if any, and at
   * most one window per pass. A window with a flying piece is never eligible.
   */
  function CheckAllTriplets(b: Bar): (r: ScanResult)
    ensures r.NoMatch? <==> forall j :: !WindowMatches(b.inBar, j)
    ensures !r.NoMatch? ==>
      && WindowMatches(b.inBar, r.start)
      && (forall j :: 0 <= j < r.start ==> !WindowMatches(b.inBar, j))
      && (r.BombAt? <==> WindowExplosive(b.inBar, r.start))
  {
    ScanFrom(b.inBar, 0)
  }

  // ------------------------------------------------------ removal and clearing

  /** The guard of the removal: three grounded pieces exist at `start`. */
  predicate CanRemoveAt(s: seq<Piece>, start: int) {
    0 <= start && start + 2 < |s| && Grounded(s, start)
  }

  /**
   * Removes the three pieces at `start` and closes the gap; a no-op when the
   * window is out of range or holds a flying piece. It does not check that
   * the three pieces match.
   */
  function RemoveTripleWithAnimation(b: Bar, start: int): (r: Bar)
    ensures r.slots == b.slots
    ensures !CanRemoveAt(b.inBar, start) ==> r == b
    ensures CanRemoveAt(b.inBar, start) ==>
      && |r.inBar| == |b.inBar| - 3
      && (forall k :: 0 <= k < start ==> r.inBar[k] == b.inBar[k])
      && (forall k :: start <= k < |r.inBar| ==> r.inBar[k] == b.inBar[k + 3])
    ensures Valid(b) ==> Valid(r)
  {
    if CanRemoveAt(b.inBar, start) then
      var r := Bar(b.inBar[..start] + b.inBar[start + 3..], b.slots);
      assert forall k :: start <= k < |r.inBar| ==> r.inBar[k] == b.inBar[k + 3];
      r
    else b
  }

  /** Every piece is destroyed and the bar is empty. */
  function ClearBar(b: Bar): (r: Bar)
    ensures r.slots == b.slots && |r.inBar| == 0
    ensures Valid(r)
  {
    Bar([], b.slots)
  }

  /**
   * The logical part of re-seating the bar after a removal: each remaining
   * piece is moved to the slot of its index and receives a landing, which
   * grounds it and counts a Frozen piece down once more.
   */
  function RearrangeBar(b: Bar): (r: Bar)
    ensures r.slots == b.slots && |r.inBar| == |b.inBar|
    ensures forall k :: 0 <= k < |r.inBar| ==> r.inBar[k] == OnLanded(b.inBar[k])
    ensures forall k :: 0 <= k < |r.inBar| ==> SameIdentity(b.inBar[k], r.inBar[k]) && !r.inBar[k].isFlying
    ensures Valid(b) ==> Valid(r)
  {
    Bar(seq(|b.inBar|, k requires 0 <= k < |b.inBar| => OnLanded(b.inBar[k])), b.slots)
  }

  /** The piece with identity `id` receives its landing; every other slot is untouched. */
  function LandPiece(b: Bar, id: nat): (r: Bar)
    ensures r.slots == b.slots && |r.inBar| == |b.inBar|
    ensures forall k :: 0 <= k < |r.inBar| && b.inBar[k].id == id ==> r.inBar[k] == OnLanded(b.inBar[k])
    ensures forall k :: 0 <= k < |r.inBar| && b.inBar[k].id != id ==> r.inBar[k] == b.inBar[k]
    ensures Valid(b) ==> Valid(r)
  {
    Bar(seq(|b.inBar|, k requires 0 <= k < |b.inBar| =>
          if b.inBar[k].id == id then OnLanded(b.inBar[k]) else b.inBar[k]), b.slots)
  }

  // ------------------------------------------------------------------ landing

  datatype Outcome =
    | Continue
      /** The bar was full and its last three pieces were removed. */
    | EndFillRemoved
    | Lose
    | Win

  /**
   * The result of a landing: the bar after it, the removal the scan scheduled
   * (not yet applied), and the outcome of the end-fill and win checks.
   */
  datatype Landing = Landing(bar: Bar, pending: ScanResult, outcome: Outcome)

  /**
   * The piece with identity `id` lands; `fieldRemaining` is the number of
   * pieces still on the field. The scan's removal stays pending, so the full
   * check sees the bar before it. A full bar whose last three pieces match
   * loses them at once (when all three are grounded) and neither wins nor
   * loses; a full bar without that match loses; a bar that is not full wins
   * when the field is empty. After an end-fill removal the caller re-seats the
   * bar with `RearrangeBar` and scans it again, as after any removal.
   */
  function OnShapeLanded(b: Bar, id: nat, fieldRemaining: nat): (r: Landing)
    ensures var landed := LandPiece(b, id);
      && r.pending == CheckAllTriplets(landed)
      && (r.outcome == Lose <==> IsFull(landed) && !EndMatch(landed.inBar))
      && (r.outcome == Win <==> !IsFull(landed) && fieldRemaining == 0)
      && (r.outcome == EndFillRemoved <==>
            IsFull(landed) && EndMatch(landed.inBar) && CanRemoveAt(landed.inBar, |landed.inBar| - 3))
      && (r.outcome == EndFillRemoved ==> r.bar == Bar(landed.inBar[..|landed.inBar| - 3], b.slots))
      && (r.outcome != EndFillRemoved ==> r.bar == landed)
    ensures Valid(b) ==> Valid(r.bar)
  {
    var landed := LandPiece(b, id);
    var scan := CheckAllTriplets(landed);
    if IsFull(landed) then
      var n := |landed.inBar|;
      if n >= 3 && Matches(landed.inBar[n - 3], landed.inBar[n - 2], landed.inBar[n - 1]) then
        if CanRemoveAt(landed.inBar, n - 3) then
          Landing(RemoveTripleWithAnimation(landed, n - 3), scan, EndFillRemoved)
        else
          Landing(landed, scan, Continue)
      else
        Landing(landed, scan, Lose)
    else if fieldRemaining == 0 then
      Landing(landed, scan, Win)
    else
      Landing(landed, scan, Continue)
  }

  /**
   * Runs a removal the scan scheduled, on the bar as it is when the delayed
   * call fires: a bomb clears the bar, a match removes its window (or does
   * nothing if the window is no longer removable). After a removal the caller
   * re-seats the bar with `RearrangeBar` and scans it again; `Cascade` chains
   * these steps.
   */
  function ApplyPending(b: Bar, pending: ScanResult): (r: Bar)
    ensures r.slots == b.slots && |r.inBar| <= |b.inBar|
    ensures pending.NoMatch? ==> r == b
    ensures pending.BombAt? ==> r.inBar == []
    ensures pending.MatchAt? && CanRemoveAt(b.inBar, pending.start) ==>
      r.inBar == b.inBar[..pending.start] + b.inBar[pending.start + 3..]
    ensures pending.MatchAt? && !CanRemoveAt(b.inBar, pending.start) ==> r == b
    ensures Valid(b) ==> Valid(r)
  {
    match pending
    case NoMatch => b
    case BombAt(_) => ClearBar(b)
    case MatchAt(start) => RemoveTripleWithAnimation(b, start)
  }

  /**
   * The cascade, with nothing else happening in between: scan, apply the
   * removal, re-seat the rest, scan again. A bomb ends it with an empty bar;
   * without one, every pass takes exactly three pieces away. It ends with no
   * eligible window left, never brings in a piece that was not in the bar,
   * and keeps the bar valid.
   */
  function Cascade(b: Bar): (r: Bar)
    ensures r.slots == b.slots && |r.inBar| <= |b.inBar|
    ensures CascadeBombs(b) ==> r.inBar == []
    ensures !CascadeBombs(b) ==> |r.inBar| + 3 * CascadePasses(b) == |b.inBar|
    ensures CheckAllTriplets(r).NoMatch?
    ensures forall k :: 0 <= k < |r.inBar| ==> Contains(b, r.inBar[k].id)
    ensures Valid(b) ==> Valid(r)
    decreases |b.inBar|
  {
    match CheckAllTriplets(b)
    case NoMatch => b
    case BombAt(_) => ClearBar(b)
    case MatchAt(start) =>
      var reseated := RearrangeBar(RemoveTripleWithAnimation(b, start));
      var r := Cascade(reseated);
      ReseatKeepsIds(b, start);
      IdsCarryOver(r, reseated, b);
      r
  }

  /** The number of scan passes that remove something before the cascade settles. */
  function CascadePasses(b: Bar): nat
    decreases |b.inBar|
  {
    match CheckAllTriplets(b)
    case NoMatch => 0
    case BombAt(_) => 1
    case MatchAt(start) => 1 + CascadePasses(RearrangeBar(RemoveTripleWithAnimation(b, start)))
  }

  /** The cascade ends in a bomb pass. */
  predicate CascadeBombs(b: Bar)
    decreases |b.inBar|
  {
    match CheckAllTriplets(b)
    case NoMatch => false
    case BombAt(_) => true
    case MatchAt(start) => CascadeBombs(RearrangeBar(RemoveTripleWithAnimation(b, start)))
  }

  /**
   * Every pass takes at least three pieces away, a bomb included, so the
   * cascade settles after at most a third of the bar's length in passes.
   */
  lemma {:induction false} CascadeRemovesInThrees(b: Bar)
    ensures 3 * CascadePasses(b) <= |b.inBar|
    decreases |b.inBar|
  {
    match CheckAllTriplets(b)
    case NoMatch =>
    case BombAt(_) =>
    case MatchAt(start) =>
      var reseated := RearrangeBar(RemoveTripleWithAnimation(b, start));
      assert |reseated.inBar| + 3 == |b.inBar|;
      CascadeRemovesInThrees(reseated);
  }

  /**
   * Where the pieces the cascade leaves stood before it: the piece at index
   * `k` of the result came from index `CascadeKept(b)[k]` of the bar.
   */
  function CascadeKept(b: Bar): seq<int>
    decreases |b.inBar|
  {
    match CheckAllTriplets(b)
    case NoMatch => seq(|b.inBar|, k => k)
    case BombAt(_) => []
    case MatchAt(start) =>
      var inner := CascadeKept(RearrangeBar(RemoveTripleWithAnimation(b, start)));
      seq(|inner|, k requires 0 <= k < |inner| => if inner[k] < start then inner[k] else inner[k] + 3)
  }

  /**
   * The cascade removes whole windows and nothing else moves out of order:
   * each piece it leaves is, re-landed, a piece of the bar before, and the
   * pieces it leaves stand in the order they stood in before.
   */
  lemma {:induction false} CascadeKeepsOrder(b: Bar)
    ensures var r := Cascade(b); var kept := CascadeKept(b);
      && |kept| == |r.inBar|
      && (forall k :: 0 <= k < |kept| ==> 0 <= kept[k] < |b.inBar|)
      && (forall k :: 0 <= k < |kept| ==> r.inBar[k] == LandTimes(b.inBar[kept[k]], CascadePasses(b)))
      && (forall k :: 0 <= k < |kept| ==> SameIdentity(b.inBar[kept[k]], r.inBar[k]))
      && (forall k, l :: 0 <= k < l < |kept| ==> kept[k] < kept[l])
    decreases |b.inBar|
  {
    KeptLanded(b);
    var r := Cascade(b);
    var kept := CascadeKept(b);
    forall k | 0 <= k < |kept|
      ensures SameIdentity(b.inBar[kept[k]], r.inBar[k])
    {
      LandTimesCountsDown(b.inBar[kept[k]], CascadePasses(b));
    }
  }

  /**
   * The position part of `CascadeKeepsOrder`: each piece left is the piece
   * at its kept position, landed once per pass, and the kept positions rise.
   */
  lemma {:induction false} KeptLanded(b: Bar)
    ensures var r := Cascade(b); var kept := CascadeKept(b);
      && |kept| == |r.inBar|
      && (forall k :: 0 <= k < |kept| ==> 0 <= kept[k] < |b.inBar|)
      && (forall k :: 0 <= k < |kept| ==> r.inBar[k] == LandTimes(b.inBar[kept[k]], CascadePasses(b)))
      && (forall k, l :: 0 <= k < l < |kept| ==> kept[k] < kept[l])
    decreases |b.inBar|
  {
    match CheckAllTriplets(b)
    case NoMatch =>
    case BombAt(_) =>
    case MatchAt(start) =>
      var reseated := RearrangeBar(RemoveTripleWithAnimation(b, start));
      KeptLanded(reseated);
      KeptThroughRemoval(b, start, Cascade(reseated), CascadeKept(reseated), CascadePasses(reseated));
  }

  /**
   * One pass of the cascade in terms of positions: if the pieces of `r` come,
   * in order, from positions `inner` of the bar re-seated after removing the
   * window at `start`, then they come, in order, from the shifted positions of
   * the bar before the removal, with the re-seat counted as one more landing.
   */
  lemma KeptThroughRemoval(b: Bar, start: int, r: Bar, inner: seq<int>, passes: nat)
    requires CanRemoveAt(b.inBar, start)
    requires var reseated := RearrangeBar(RemoveTripleWithAnimation(b, start));
      && |inner| == |r.inBar|
      && (forall k :: 0 <= k < |inner| ==> 0 <= inner[k] < |reseated.inBar|)
      && (forall k :: 0 <= k < |inner| ==> r.inBar[k] == LandTimes(reseated.inBar[inner[k]], passes))
      && (forall k, l :: 0 <= k < l < |inner| ==> inner[k] < inner[l])
    ensures var kept := seq(|inner|, k requires 0 <= k < |inner| => if inner[k] < start then inner[k] else inner[k] + 3);
      && (forall k :: 0 <= k < |kept| ==> 0 <= kept[k] < |b.inBar|)
      && (forall k :: 0 <= k < |kept| ==> r.inBar[k] == LandTimes(b.inBar[kept[k]], passes + 1))
      && (forall k, l :: 0 <= k < l < |kept| ==> kept[k] < kept[l])
  {
    var removed := RemoveTripleWithAnimation(b, start);
    var reseated := RearrangeBar(removed);
    var kept := seq(|inner|, k requires 0 <= k < |inner| => if inner[k] < start then inner[k] else inner[k] + 3);
    forall k | 0 <= k < |kept|
      ensures 0 <= kept[k] < |b.inBar| && r.inBar[k] == LandTimes(b.inBar[kept[k]], passes + 1)
    {
      var m := inner[k];
      assert removed.inBar[m] == b.inBar[kept[k]];
      assert reseated.inBar[m] == OnLanded(b.inBar[kept[k]]);
    }
  }

  /**
   * In a valid bar, identities name positions: two pieces the cascade leaves
   * stand in the same order as the pieces of the same identity did before.
   */
  lemma CascadeKeepsRelativeOrder(b: Bar)
    requires Valid(b)
    ensures var r := Cascade(b);
      forall k, l, i, j ::
        (&& 0 <= k < l < |r.inBar| && 0 <= i < |b.inBar| && 0 <= j < |b.inBar|
         && b.inBar[i].id == r.inBar[k].id && b.inBar[j].id == r.inBar[l].id) ==> i < j
  {
    CascadeKeepsOrder(b);
    var r := Cascade(b);
    var kept := CascadeKept(b);
    forall k, l, i, j |
      && 0 <= k < l < |r.inBar| && 0 <= i < |b.inBar| && 0 <= j < |b.inBar|
      && b.inBar[i].id == r.inBar[k].id && b.inBar[j].id == r.inBar[l].id
      ensures i < j
    {
      SamePosition(b.inBar, i, kept[k]);
      SamePosition(b.inBar, j, kept[l]);
    }
  }

  /** In a sequence of distinct identities, one identity names one position. */
  lemma SamePosition(s: seq<Piece>, i: int, m: int)
    requires DistinctIds(s)
    requires 0 <= i < |s| && 0 <= m < |s| && s[i].id == s[m].id
    ensures i == m
  {
  }

  /**
   * Removal is an order-preserving cut: putting the three removed pieces back
   * at `start` gives the bar as it was.
   */
  lemma RemoveTripleRoundTrip(b: Bar, start: int)
    requires CanRemoveAt(b.inBar, start)
    ensures var r := RemoveTripleWithAnimation(b, start);
      r.inBar[..start] + b.inBar[start..start + 3] + r.inBar[start..] == b.inBar
  {
    var r := RemoveTripleWithAnimation(b, start);
    var joined := r.inBar[..start] + b.inBar[start..start + 3] + r.inBar[start..];
    forall k | 0 <= k < |b.inBar|
      ensures joined[k] == b.inBar[k]
    {
      if k >= start + 3 {
        assert joined[k] == r.inBar[k - 3];
      }
    }
  }

  /** Every piece left after removing a window and re-seating was in the bar before. */
  lemma ReseatKeepsIds(b: Bar, start: nat)
    requires CanRemoveAt(b.inBar, start)
    ensures var reseated := RearrangeBar(RemoveTripleWithAnimation(b, start));
      forall k :: 0 <= k < |reseated.inBar| ==> Contains(b, reseated.inBar[k].id)
  {
  }

  /** Membership carries over from `a` to `b` through `mid`. */
  lemma IdsCarryOver(a: Bar, mid: Bar, b: Bar)
    requires forall k :: 0 <= k < |a.inBar| ==> Contains(mid, a.inBar[k].id)
    requires forall k :: 0 <= k < |mid.inBar| ==> Contains(b, mid.inBar[k].id)
    ensures forall k :: 0 <= k < |a.inBar| ==> Contains(b, a.inBar[k].id)
  {
  }
}
