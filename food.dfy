/**
 * Food placement by rejection sampling. The random coordinates are given as a stream `draw`:
 * `draw(k)` is the cell the k-th random sample would produce.
 */
module Food {
  import opened Types
  import opened Grid

  /**
   * What the model assumes of the random source: every sample lies on the board, which keeps
   * respawned food on the board, and every cell of the board is sampled sooner or later, which
   * makes the sampling loop end.
   */
  ghost predicate Sampler(draw: nat -> Coord, size: int) {
    && (forall k: nat :: 0 <= draw(k).x < size && 0 <= draw(k).y < size)
    && (forall c :: InGrid(c, size) ==> exists k: nat :: draw(k) == c)
  }

  /**
   * Draws cells until one is not covered by `body` and returns it: the first free draw. The loop
   * ends exactly when some draw is free, which is what the precondition says.
   */
  method SpawnFood(body: seq<Coord>, draw: nat -> Coord) returns (food: Coord)
    requires exists k: nat :: draw(k) !in body
    ensures food !in body
    ensures exists k: nat :: draw(k) == food && forall j :: 0 <= j < k ==> draw(j) in body
  {
    ghost var free: nat :| draw(free) !in body;
    var i := 0;
    food := draw(0);
    while food in body
      invariant i <= free
      invariant food == draw(i)
      invariant forall j :: 0 <= j < i ==> draw(j) in body
      decreases free - i
    {
      i := i + 1;
      food := draw(i);
    }
  }

  /** A fair sampler finds a free cell whenever the body leaves one. */
  lemma SamplerFindsFree(draw: nat -> Coord, size: nat, body: seq<Coord>)
    requires Sampler(draw, size)
    requires |body| < size * size
    ensures exists k: nat :: draw(k) !in body
  {
    FreeCellExists(body, size);
    var c :| InGrid(c, size) && c !in body;
    var k: nat :| draw(k) == c;
  }
}
