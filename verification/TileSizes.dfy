/** Tile sizes that divide the trip counts. */
module TileSizes {
  import opened Arithmetic

  /** A size that is no larger than the number of given tiles in the loop, or one, and that leaves
      at least two tiles of a loop of more than one iteration. */
  predicate Allowed(tripCount: nat, tileSize: nat, d: nat) {
    && (d == 1 || (d > 1 && d * tileSize <= tripCount))
    && (tripCount > 1 ==> 2 * d <= tripCount)
  }

  /** The largest allowed size that divides the trip count. */
  ghost predicate Adjusted(tripCount: nat, tileSize: nat, r: nat) {
    && Allowed(tripCount, tileSize, r) && tripCount % r == 0
    && forall d: nat :: r < d && Allowed(tripCount, tileSize, d) ==> tripCount % d != 0
  }

  lemma QuotientBound(tripCount: nat, tileSize: nat, d: nat)
    requires tileSize > 0
    ensures d * tileSize <= tripCount <==> d <= tripCount / tileSize
  {
    var q := tripCount / tileSize;
    assert tripCount == q * tileSize + tripCount % tileSize;
    if q < d {
      DigitBound(q, d, tileSize, tripCount % tileSize);
    } else if d < q {
      DigitBound(d, q, tileSize, 0);
    }
  }

  /** Counts each tile size down to a divisor. */
  method AdjustToDivisorsOfTripCounts(tileSizes: array<nat>, tripCounts: seq<nat>)
    requires tileSizes.Length == |tripCounts| && forall i :: 0 <= i < |tripCounts| ==> tileSizes[i] > 0
    modifies tileSizes
    ensures forall i :: 0 <= i < |tripCounts| ==> Adjusted(tripCounts[i], old(tileSizes[i]), tileSizes[i])
  {
    var i: nat := 0;
    while i < tileSizes.Length
      invariant i <= tileSizes.Length
      invariant forall k :: 0 <= k < i ==> Adjusted(tripCounts[k], old(tileSizes[k]), tileSizes[k])
      invariant forall k :: i <= k < tileSizes.Length ==> tileSizes[k] == old(tileSizes[k])
    {
      tileSizes[i] := AdjustOne(tripCounts[i], tileSizes[i]);
      i := i + 1;
    }
  }

  method AdjustOne(tripCount: nat, tileSize: nat) returns (r: nat)
    requires tileSize > 0
    ensures Adjusted(tripCount, tileSize, r)
  {
    r := if tripCount / tileSize > 1 then tripCount / tileSize else 1;
    if tripCount > 1 && r > tripCount / 2 {
      r := tripCount / 2;
    }
    forall d: nat | d > 1
      ensures Allowed(tripCount, tileSize, d) <==> d <= r
    {
      QuotientBound(tripCount, tileSize, d);
    }
    ghost var start := r;
    while tripCount % r != 0
      invariant 1 <= r <= start
      invariant forall d: nat :: r < d <= start ==> tripCount % d != 0
      decreases r
    {
      r := r - 1;
    }
  }
}
