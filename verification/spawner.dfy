/**
 * The field generator: a queue of catalog entries in which the first
 * `total / 3` groups are same-entry triples and the rest single picks, shuffled
 * by Fisher–Yates and laid out over a fixed number of columns. Randomness is
 * injected: `picks` are the catalog draws in the order they are made, `swaps`
 * the shuffle draws in the order they are made.
 */
module Spawner {
  import opened Shape

  // ---------------------------------------------------------------- the queue

  /** Every entry of `g`, three times in a row. */
  function Tripled<T>(g: seq<T>): (r: seq<T>)
    ensures |r| == 3 * |g|
    ensures forall k :: 0 <= k < |g| ==> r[3 * k] == g[k] && r[3 * k + 1] == g[k] && r[3 * k + 2] == g[k]
  {
    if g == [] then []
    else
      var rest := Tripled(g[1..]);
      assert g == [g[0]] + g[1..];
      assert forall k :: 1 <= k < |g| ==> g[k] == g[1..][k - 1];
      [g[0], g[0], g[0]] + rest
  }

  /**
   * The bound of a catalog draw. A draw from an empty range yields 0, which is
   * then out of range for the empty catalog.
   */
  function DrawBound(catalogSize: nat): nat {
    if catalogSize > 0 then catalogSize else 1
  }

  predicate PicksFit(picks: seq<nat>, catalogSize: nat) {
    forall k :: 0 <= k < |picks| ==> picks[k] < DrawBound(catalogSize)
  }

  /** The number of catalog draws a build of `total` pieces makes. */
  function PickCount(total: nat): nat {
    total / 3 + total % 3
  }

  function Lookup(catalog: seq<ShapeData>, picks: seq<nat>): (r: seq<ShapeData>)
    requires forall k :: 0 <= k < |picks| ==> picks[k] < |catalog|
    ensures |r| == |picks|
    ensures forall k :: 0 <= k < |picks| ==> r[k] == catalog[picks[k]]
  {
    seq(|picks|, k requires 0 <= k < |picks| => catalog[picks[k]])
  }

  /**
   * The queue before shuffling: `total / 3` triples of one draw each, then
   * single draws up to `total`.
   */
  function BuildQueue(total: nat, catalog: seq<ShapeData>, picks: seq<nat>): (q: seq<ShapeData>)
    requires |picks| == PickCount(total)
    requires forall k :: 0 <= k < |picks| ==> picks[k] < |catalog|
    ensures |q| == total
    ensures forall k :: 0 <= k < total / 3 ==>
      q[3 * k] == catalog[picks[k]] && q[3 * k + 1] == catalog[picks[k]] && q[3 * k + 2] == catalog[picks[k]]
    ensures forall k :: 3 * (total / 3) <= k < total ==> q[k] == catalog[picks[k - 2 * (total / 3)]]
    ensures multiset(Tripled(Lookup(catalog, picks[..total / 3]))) <= multiset(q)
  {
    var triples := Tripled(Lookup(catalog, picks[..total / 3]));
    var singles := Lookup(catalog, picks[total / 3..]);
    var q := triples + singles;
    assert forall k :: 3 * (total / 3) <= k < total ==> q[k] == singles[k - 3 * (total / 3)];
    assert multiset(q) == multiset(triples) + multiset(singles);
    q
  }

  // -------------------------------------------------------------- the shuffle

  /**
   * Draws fit a Fisher–Yates pass over `n` entries: one draw per index from
   * `n - 1` down to 1, and the draw for index `i` lies in `[0, i]`.
   */
  predicate SwapsFit(n: nat, swaps: seq<nat>) {
    && |swaps| == (if n > 0 then n - 1 else 0)
    && forall k :: 0 <= k < |swaps| ==> swaps[k] <= n - 1 - k
  }

  /** The draw the pass uses at index `i`. */
  function SwapDraw(n: nat, swaps: seq<nat>, i: nat): (j: nat)
    requires SwapsFit(n, swaps) && 0 < i < n
    ensures j <= i
  {
    swaps[n - 1 - i]
  }

  function Swap<T>(s: seq<T>, i: nat, j: nat): (r: seq<T>)
    requires i < |s| && j < |s|
    ensures |r| == |s| && r[i] == s[j] && r[j] == s[i]
    ensures forall k :: 0 <= k < |s| && k != i && k != j ==> r[k] == s[k]
    ensures multiset(r) == multiset(s)
  {
    s[i := s[j]][j := s[i]]
  }

  /** The Fisher–Yates steps for indices `i` down to 1, over a queue of `|s|` entries. */
  function ShuffleDown<T>(s: seq<T>, swaps: seq<nat>, i: int): (r: seq<T>)
    requires SwapsFit(|s|, swaps) && i < |s|
    ensures |r| == |s|
    ensures multiset(r) == multiset(s)
    decreases i
  {
    if i <= 0 then s
    else ShuffleDown(Swap(s, i, SwapDraw(|s|, swaps, i)), swaps, i - 1)
  }

  /** The whole Fisher–Yates pass; it only permutes the queue. */
  function Shuffle<T>(s: seq<T>, swaps: seq<nat>): (r: seq<T>)
    requires SwapsFit(|s|, swaps)
    ensures |r| == |s|
    ensures multiset(r) == multiset(s)
  {
    ShuffleDown(s, swaps, |s| - 1)
  }

  // --------------------------------------------------------------- the layout

  /** Where one piece is spawned: its entry and its column. All spawns share one height. */
  datatype Spawn = Spawn(data: ShapeData, column: nat)

  function Abs(x: int): nat {
    if x < 0 then -x else x
  }

  /**
   * The `i`-th spawn carries the `i`-th queue entry, in column `i` modulo the
   * column count.
   */
  function Layout(queue: seq<ShapeData>, columns: int): (r: seq<Spawn>)
    requires columns != 0
    ensures |r| == |queue|
    ensures forall i :: 0 <= i < |r| ==> r[i].data == queue[i] && r[i].column < Abs(columns)
    ensures forall i :: 0 <= i < |r| ==> r[i].column == i % Abs(columns)
  {
    seq(|queue|, i requires 0 <= i < |queue| => Spawn(queue[i], i % Abs(columns)))
  }

  function Entries(spawns: seq<Spawn>): (r: seq<ShapeData>)
    ensures |r| == |spawns|
    ensures forall i :: 0 <= i < |r| ==> r[i] == spawns[i].data
  {
    seq(|spawns|, i requires 0 <= i < |spawns| => spawns[i].data)
  }

  /** The layout spawns the queue's entries in queue order. */
  lemma LayoutEntries(queue: seq<ShapeData>, columns: int)
    requires columns != 0
    ensures Entries(Layout(queue, columns)) == queue
  {
  }

  // ---------------------------------------------------------------- the build

  datatype SpawnError =
    | NegativeCount
      /** A draw from an empty catalog yields an index that is out of range. */
    | EmptyCatalog
      /** A column count of zero makes the column computation divide by zero. */
    | ZeroColumns

  datatype Build = Built(spawns: seq<Spawn>) | Failed(error: SpawnError)

  /** The injected draws are exactly the ones a build of `total` pieces makes. */
  predicate DrawsFit(total: int, catalogSize: nat, picks: seq<nat>, swaps: seq<nat>) {
    total < 0 || (|picks| == PickCount(total) && PicksFit(picks, catalogSize) && SwapsFit(total, swaps))
  }

  /**
   * A build of `total` pieces. It fails on a negative count, and on an empty
   * catalog or a zero column count when there is anything to spawn. A
   * successful build spawns exactly `total` pieces, each in a valid column, and
   * its entries are the queue's entries rearranged: so the `total / 3` drawn
   * triples are all still present, as disjoint triples.
   */
  function SpawnRoutine(total: int, catalog: seq<ShapeData>, columns: int, picks: seq<nat>, swaps: seq<nat>): (r: Build)
    requires DrawsFit(total, |catalog|, picks, swaps)
    ensures r == Failed(NegativeCount) <==> total < 0
    ensures r.Failed? <==> total < 0 || (total > 0 && (|catalog| == 0 || columns == 0))
    ensures r.Built? ==>
      && |r.spawns| == total
      && (forall i :: 0 <= i < |r.spawns| ==> r.spawns[i].column < Abs(columns))
      && (forall i :: 0 <= i < |r.spawns| ==> r.spawns[i].column == i % Abs(columns))
      && multiset(Entries(r.spawns)) == multiset(BuildQueue(total, catalog, picks))
  {
    if total < 0 then Failed(NegativeCount)
    else if total == 0 then Built([])
    else if |catalog| == 0 then Failed(EmptyCatalog)
    else
      var built := BuildQueue(total, catalog, picks);
      var queue := Shuffle(built, swaps);
      if columns == 0 then Failed(ZeroColumns)
      else
        var spawns := Layout(queue, columns);
        LayoutEntries(queue, columns);
        assert multiset(Entries(spawns)) == multiset(built);
        Built(spawns)
  }

  // ----------------------------------------------------------- build totals

  /** The spawner's configuration. */
  datatype Config = Config(initialSetsCount: int, columns: int, catalog: seq<ShapeData>)

  /** The count both the first build and a full respawn use. */
  function FullTotal(cfg: Config): int {
    cfg.initialSetsCount * 3
  }

  /**
   * The first build and a full respawn: three pieces per configured set, so a
   * successful build holds exactly `initialSetsCount` triples' worth of pieces.
   */
  function FullRespawn(cfg: Config, picks: seq<nat>, swaps: seq<nat>): (r: Build)
    requires DrawsFit(FullTotal(cfg), |cfg.catalog|, picks, swaps)
    ensures r.Built? ==> |r.spawns| == 3 * cfg.initialSetsCount
    ensures r.Failed? <==>
      cfg.initialSetsCount < 0 || (cfg.initialSetsCount > 0 && (|cfg.catalog| == 0 || cfg.columns == 0))
  {
    SpawnRoutine(FullTotal(cfg), cfg.catalog, cfg.columns, picks, swaps)
  }

  /**
   * A field refresh: the field is rebuilt with as many pieces as it holds now,
   * counted before it is cleared. A count is never negative, so the only
   * failures are the empty catalog and the zero column count.
   */
  function RefreshField(fieldCount: nat, cfg: Config, picks: seq<nat>, swaps: seq<nat>): (r: Build)
    requires DrawsFit(fieldCount, |cfg.catalog|, picks, swaps)
    ensures r.Built? ==> |r.spawns| == fieldCount
    ensures r.Failed? <==> fieldCount > 0 && (|cfg.catalog| == 0 || cfg.columns == 0)
  {
    SpawnRoutine(fieldCount, cfg.catalog, cfg.columns, picks, swaps)
  }

  // ------------------------------------------------------------------- lemmas

  /**
   * The shuffle cannot break up the drawn triples: a successful build holds,
   * as disjoint triples, every entry drawn for a triple, so at least
   * `total / 3` same-entry triples are on the field.
   */
  lemma SpawnKeepsTriples(total: int, catalog: seq<ShapeData>, columns: int, picks: seq<nat>, swaps: seq<nat>)
    requires DrawsFit(total, |catalog|, picks, swaps)
    requires total >= 0 && (total == 0 || (|catalog| > 0 && columns != 0))
    ensures SpawnRoutine(total, catalog, columns, picks, swaps).Built?
    ensures |picks[..total / 3]| == total / 3
    ensures forall k :: 0 <= k < total / 3 ==> picks[k] < |catalog|
    ensures multiset(Tripled(Lookup(catalog, picks[..total / 3])))
         <= multiset(Entries(SpawnRoutine(total, catalog, columns, picks, swaps).spawns))
  {
  }

  /**
   * Within any run of as many consecutive spawns as there are columns, every
   * column is used once, and the spawn that many places later lands in the
   * same column. A negative column count behaves as its magnitude.
   */
  lemma LayoutCycles(queue: seq<ShapeData>, columns: int, i: nat, j: nat)
    requires columns != 0
    requires i < j < |queue|
    ensures j < i + Abs(columns) ==> Layout(queue, columns)[i].column != Layout(queue, columns)[j].column
    ensures j == i + Abs(columns) ==> Layout(queue, columns)[i].column == Layout(queue, columns)[j].column
  {
    var r := Layout(queue, columns);
    var c := Abs(columns);
    assert r[i].column == i % c && r[j].column == j % c;
    DivMod(i, c);
    DivMod(j, c);
    if j < i + c && r[i].column == r[j].column {
      assert c * (j / c - i / c) == j - i;
      MultipleBetween(c, j / c - i / c);
    }
    if j == i + c {
      assert j == c * (i / c + 1) + i % c;
      DivisionUnique(c, j, i / c + 1, i % c);
    }
  }

  lemma DivMod(x: int, c: int)
    requires c > 0
    ensures x == c * (x / c) + x % c && 0 <= x % c < c
  {
  }

  /** The only multiple of `c` strictly between `-c` and `c` is zero. */
  lemma MultipleBetween(c: int, m: int)
    requires c > 0
    ensures -c < c * m < c ==> m == 0
  {
  }

  /** Euclidean division is unique. */
  lemma DivisionUnique(c: int, x: int, q: int, rem: int)
    requires c > 0 && 0 <= rem < c && x == c * q + rem
    ensures x % c == rem
  {
    DivMod(x, c);
    assert c * (q - x / c) == x % c - rem;
    MultipleBetween(c, q - x / c);
  }
}
