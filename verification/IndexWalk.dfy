/** The order in which a triple loop visits what it addresses: i2 counts fastest and i4
    slowest. The host's copying loops and the controller's resumable copy both walk so. */
module IndexWalk {

  /** The address that belongs to indices i4, i3 and i2. */
  type Locator = (nat, nat, nat) -> nat

  /** How often each of the three loops runs. */
  datatype Extents = Extents(len4: nat, len3: nat, len2: nat)

  /** The addresses that come before (i4, i3, i2). */
  function Before(at: Locator, e: Extents, i4: nat, i3: nat, i2: nat): seq<nat>
    decreases i4, i3, i2
  {
    if i2 > 0 then Before(at, e, i4, i3, i2 - 1) + [at(i4, i3, i2 - 1)]
    else if i3 > 0 then Before(at, e, i4, i3 - 1, e.len2)
    else if i4 > 0 then Before(at, e, i4 - 1, e.len3, 0)
    else []
  }

  /** All addresses in lexicographic order of (i4, i3, i2). */
  function Walk(at: Locator, e: Extents): seq<nat> {
    Before(at, e, e.len4, 0, 0)
  }

  /** A position that the loops pass through: inside, or at the head of one of them. */
  predicate IsPosition(e: Extents, i4: nat, i3: nat, i2: nat) {
    i2 <= e.len2
    && ((i4 < e.len4 && i3 < e.len3) || (i4 < e.len4 && i3 == e.len3 && i2 == 0) || (i4 <= e.len4 && i3 == i2 == 0))
  }

  /** What comes before a position is a prefix of the walk. */
  lemma {:induction false} BeforeIsPrefix(at: Locator, e: Extents, i4: nat, i3: nat, i2: nat)
    requires IsPosition(e, i4, i3, i2)
    ensures Before(at, e, i4, i3, i2) <= Walk(at, e)
    decreases e.len4 - i4, e.len3 - i3, e.len2 - i2
  {
    if i4 < e.len4 {
      if i3 == e.len3 {
        BeforeIsPrefix(at, e, i4 + 1, 0, 0);
      } else if i2 < e.len2 {
        BeforeIsPrefix(at, e, i4, i3, i2 + 1);
      } else {
        BeforeIsPrefix(at, e, i4, i3 + 1, 0);
      }
    }
  }

  lemma {:induction false} BeforeLength(at: Locator, e: Extents, i4: nat, i3: nat, i2: nat)
    requires i3 <= e.len3 && i2 <= e.len2
    ensures |Before(at, e, i4, i3, i2)| == (i4 * e.len3 + i3) * e.len2 + i2
    decreases i4, i3, i2
  {
    if i2 > 0 {
      BeforeLength(at, e, i4, i3, i2 - 1);
    } else if i3 > 0 {
      BeforeLength(at, e, i4, i3 - 1, e.len2);
      assert (i4 * e.len3 + i3) * e.len2 == (i4 * e.len3 + i3 - 1) * e.len2 + e.len2;
    } else if i4 > 0 {
      BeforeLength(at, e, i4 - 1, e.len3, 0);
      assert (i4 - 1) * e.len3 + e.len3 == i4 * e.len3;
    }
  }

  /** The walk is the row-major enumeration: entry (i4 * len3 + i3) * len2 + i2 is the
      address of (i4, i3, i2), and there are no others. */
  lemma WalkAt(at: Locator, e: Extents, i4: nat, i3: nat, i2: nat)
    requires i4 < e.len4 && i3 < e.len3 && i2 < e.len2
    ensures |Walk(at, e)| == e.len4 * e.len3 * e.len2
    ensures 0 <= (i4 * e.len3 + i3) * e.len2 + i2 < |Walk(at, e)|
    ensures Walk(at, e)[(i4 * e.len3 + i3) * e.len2 + i2] == at(i4, i3, i2)
  {
    BeforeLength(at, e, e.len4, 0, 0);
    BeforeLength(at, e, i4, i3, i2);
    BeforeLength(at, e, i4, i3, i2 + 1);
    BeforeIsPrefix(at, e, i4, i3, i2 + 1);
    var before := Before(at, e, i4, i3, i2 + 1);
    assert before[|before| - 1] == at(i4, i3, i2);
    assert before[|before| - 1] == Walk(at, e)[|before| - 1];
  }

  /** Two loops over the same extents visit corresponding addresses at the same place. */
  lemma {:induction false} WalksCorrespond(
    at: Locator, other: Locator, translate: nat -> nat, e: Extents, i4: nat, i3: nat, i2: nat)
    requires forall a: nat, b: nat, c: nat :: other(a, b, c) == translate(at(a, b, c))
    ensures |Before(other, e, i4, i3, i2)| == |Before(at, e, i4, i3, i2)|
    ensures forall k :: 0 <= k < |Before(at, e, i4, i3, i2)| ==>
      Before(other, e, i4, i3, i2)[k] == translate(Before(at, e, i4, i3, i2)[k])
    decreases i4, i3, i2
  {
    if i2 > 0 {
      WalksCorrespond(at, other, translate, e, i4, i3, i2 - 1);
    } else if i3 > 0 {
      WalksCorrespond(at, other, translate, e, i4, i3 - 1, e.len2);
    } else if i4 > 0 {
      WalksCorrespond(at, other, translate, e, i4 - 1, e.len3, 0);
    }
  }
}
