/** Greedy placement of rectangular herds on the grid of a partition. */
module HerdPlacement {

  class Herd {
    const numRows: int
    const numCols: int
    const number: nat
    var locX: int
    var locY: int

    constructor (numRows: int, numCols: int, number: nat)
      ensures this.numRows == numRows && this.numCols == numCols && this.number == number
      ensures locX == -1 && locY == -1
    {
      this.numRows, this.numCols, this.number := numRows, numCols, number;
      locX, locY := -1, -1;
    }
  }

  /** Cells of the rectangle of a herd at (row, col); rows of the grid count from the top, rows
      of a placement from the bottom. */
  predicate Covers(gridRows: int, h: Herd, row: int, col: int, i: int, j: int) {
    gridRows - row - h.numRows <= i < gridRows - row && col <= j < col + h.numCols
  }

  class Partition {
    const numRows: int
    const numCols: int
    const grid: array2<int>

    ghost predicate Valid()
    {
      numRows >= 0 && numCols >= 0 && grid.Length0 == numRows && grid.Length1 == numCols
    }

    constructor (numRows: int, numCols: int)
      requires numRows >= 0 && numCols >= 0
      ensures Valid() && fresh(grid) && this.numRows == numRows && this.numCols == numCols
      ensures forall i, j :: 0 <= i < numRows && 0 <= j < numCols ==> grid[i, j] == -1
    {
      this.numRows, this.numCols := numRows, numCols;
      grid := new int[numRows, numCols]((_, _) => -1);
    }

    predicate FreeCell(i: int, j: int)
      requires Valid()
      reads grid
    {
      0 <= i < numRows && 0 <= j < numCols && grid[i, j] == -1
    }

    /** The whole rectangle is inside the grid and free. */
    ghost predicate Legal(h: Herd, row: int, col: int)
      requires Valid()
      reads grid
    {
      forall i, j :: Covers(numRows, h, row, col, i, j) ==> FreeCell(i, j)
    }

    method IsLegalPlacement(h: Herd, row: int, col: int) returns (legal: bool)
      requires Valid()
      ensures legal <==> Legal(h, row, col)
    {
      var i := numRows - row - h.numRows;
      while i < numRows - row
        invariant numRows - row - h.numRows <= i
        invariant forall r, j :: Covers(numRows, h, row, col, r, j) && r < i ==> FreeCell(r, j)
      {
        var j := col;
        while j < h.numCols + col
          invariant col <= j
          invariant forall c :: Covers(numRows, h, row, col, i, c) && c < j ==> FreeCell(i, c)
        {
          if i < 0 || j >= numCols {
            assert Covers(numRows, h, row, col, i, j) && !FreeCell(i, j);
            return false;
          }
          if i >= numRows || j < 0 {
            assert Covers(numRows, h, row, col, i, j) && !FreeCell(i, j);
            return false;
          }
          if grid[i, j] != -1 {
            assert Covers(numRows, h, row, col, i, j) && !FreeCell(i, j);
            return false;
          }
          j := j + 1;
        }
        i := i + 1;
      }
      return true;
    }

    method PlaceHerd(h: Herd, row: int, col: int)
      requires Valid() && Legal(h, row, col)
      modifies grid
      ensures forall i, j :: 0 <= i < numRows && 0 <= j < numCols ==>
        grid[i, j] == if Covers(numRows, h, row, col, i, j) then h.number else old(grid[i, j])
    {
      var i := numRows - row - h.numRows;
      while i < numRows - row
        invariant numRows - row - h.numRows <= i
        invariant forall r, c :: 0 <= r < numRows && 0 <= c < numCols ==>
          grid[r, c] == if Covers(numRows, h, row, col, r, c) && r < i then h.number else old(grid[r, c])
      {
        var j := col;
        while j < h.numCols + col
          invariant col <= j
          invariant forall r, c :: 0 <= r < numRows && 0 <= c < numCols ==>
            grid[r, c] == if Covers(numRows, h, row, col, r, c) && (r < i || (r == i && c < j)) then h.number
                          else old(grid[r, c])
        {
          assert old(FreeCell(i, j)) by {
            assert Covers(numRows, h, row, col, i, j);
          }
          grid[i, j] := h.number;
          j := j + 1;
        }
        i := i + 1;
      }
    }
  }

  // ---------- The invariant ----------

  predicate NumbersDiffer(herds: seq<Herd>) {
    forall a, b :: 0 <= a < b < |herds| ==> herds[a].number != herds[b].number
  }

  predicate AtLeastOneCell(herds: seq<Herd>) {
    forall a :: 0 <= a < |herds| ==> herds[a].numRows >= 1 && herds[a].numCols >= 1
  }

  predicate OwnsCell(p: Partition, h: Herd, i: int, j: int)
    reads h
  {
    Covers(p.numRows, h, h.locY, h.locX, i, j)
  }

  /** The rectangle of a herd is inside the grid, and its number is in the cells of the
      rectangle and nowhere else. */
  ghost predicate HasItsCells(p: Partition, h: Herd)
    requires p.Valid()
    reads p.grid, h
  {
    && 0 <= h.locX && h.locX + h.numCols <= p.numCols
    && 0 <= h.locY && h.locY + h.numRows <= p.numRows
    && forall i, j :: 0 <= i < p.numRows && 0 <= j < p.numCols ==> (p.grid[i, j] == h.number <==> OwnsCell(p, h, i, j))
  }

  predicate IsNumberOf(v: int, herds: seq<Herd>) {
    exists a :: 0 <= a < |herds| && herds[a].number == v
  }

  /** A cell that is not free has the number of a placed herd. */
  ghost predicate OnlyNumbers(p: Partition, placed: seq<Herd>)
    requires p.Valid()
    reads p.grid
  {
    forall i, j :: 0 <= i < p.numRows && 0 <= j < p.numCols && p.grid[i, j] != -1 ==> IsNumberOf(p.grid[i, j], placed)
  }

  ghost predicate GridOk(p: Partition, placed: seq<Herd>)
    requires p.Valid()
    reads p.grid, placed
  {
    OnlyNumbers(p, placed) && forall a :: 0 <= a < |placed| ==> HasItsCells(p, placed[a])
  }

  /** Placed herds do not overlap. */
  lemma PlacedDisjoint(p: Partition, placed: seq<Herd>, a: nat, b: nat, i: int, j: int)
    requires p.Valid() && GridOk(p, placed) && NumbersDiffer(placed) && a < b < |placed|
    ensures !(OwnsCell(p, placed[a], i, j) && OwnsCell(p, placed[b], i, j))
  {
    assert HasItsCells(p, placed[a]) && HasItsCells(p, placed[b]);
  }

  function Without(herds: seq<Herd>, k: nat): seq<Herd>
    requires k < |herds|
  {
    herds[..k] + herds[k + 1..]
  }

  lemma MoveOne(placed: seq<Herd>, unplaced: seq<Herd>, k: nat)
    requires k < |unplaced| && NumbersDiffer(placed + unplaced)
    ensures multiset(placed + [unplaced[k]]) + multiset(Without(unplaced, k)) == multiset(placed) + multiset(unplaced)
    ensures NumbersDiffer((placed + [unplaced[k]]) + Without(unplaced, k))
  {
    assert unplaced == unplaced[..k] + [unplaced[k]] + unplaced[k + 1..];
    DifferMoved(placed, unplaced, k);
  }

  lemma DifferMoved(placed: seq<Herd>, unplaced: seq<Herd>, k: nat)
    requires k < |unplaced| && NumbersDiffer(placed + unplaced)
    ensures NumbersDiffer((placed + [unplaced[k]]) + Without(unplaced, k))
  {
    var s, t := placed + unplaced, (placed + [unplaced[k]]) + Without(unplaced, k);
    var n := |placed|;
    forall a, b | 0 <= a < b < |t|
      ensures t[a].number != t[b].number
    {
      var a' := if a < n then a else if a == n then n + k else if a - 1 < n + k then a - 1 else a;
      var b' := if b < n then b else if b == n then n + k else if b - 1 < n + k then b - 1 else b;
      assert s[a'] == t[a] && s[b'] == t[b] && a' != b';
    }
  }

  /** The grid after a placement. */
  twostate predicate Painted(p: Partition, h: Herd, row: int, col: int)
    requires p.Valid()
    reads p.grid
  {
    forall i, j :: 0 <= i < p.numRows && 0 <= j < p.numCols ==>
      p.grid[i, j] == if Covers(p.numRows, h, row, col, i, j) then h.number else old(p.grid[i, j])
  }

  lemma NewNumber(placed: seq<Herd>, h: Herd)
    requires NumbersDiffer(placed + [h])
    ensures !IsNumberOf(h.number, placed)
  {
    forall a | 0 <= a < |placed|
      ensures placed[a].number != h.number
    {
      assert (placed + [h])[a].number != (placed + [h])[|placed|].number;
    }
  }

  lemma NumbersStay(placed: seq<Herd>, h: Herd)
    ensures IsNumberOf(h.number, placed + [h])
    ensures forall v :: IsNumberOf(v, placed) ==> IsNumberOf(v, placed + [h])
  {
    assert (placed + [h])[|placed|] == h;
    forall v | IsNumberOf(v, placed)
      ensures IsNumberOf(v, placed + [h])
    {
      var a :| 0 <= a < |placed| && placed[a].number == v;
      assert (placed + [h])[a].number == v;
    }
  }

  /** A legal place for a herd of at least one cell is inside the grid. */
  lemma LegalInside(p: Partition, h: Herd, row: int, col: int)
    requires p.Valid() && p.Legal(h, row, col) && h.numRows >= 1 && h.numCols >= 1
    ensures 0 <= row && row + h.numRows <= p.numRows && 0 <= col && col + h.numCols <= p.numCols
  {
    assert Covers(p.numRows, h, row, col, p.numRows - row - h.numRows, col);
    assert Covers(p.numRows, h, row, col, p.numRows - row - 1, col + h.numCols - 1);
    assert p.FreeCell(p.numRows - row - h.numRows, col);
    assert p.FreeCell(p.numRows - row - 1, col + h.numCols - 1);
  }

  // ---------- The pass ----------

  ghost predicate NowhereLegal(p: Partition, unplaced: seq<Herd>, row: int, col: int)
    requires p.Valid()
    reads p.grid
  {
    forall a :: 0 <= a < |unplaced| ==> !p.Legal(unplaced[a], row, col)
  }

  /** A cell that is taken is no corner for a herd. */
  lemma TakenCell(p: Partition, unplaced: seq<Herd>, row: int, col: int)
    requires p.Valid() && AtLeastOneCell(unplaced) && !p.FreeCell(p.numRows - row - 1, col)
    ensures NowhereLegal(p, unplaced, row, col)
  {
    forall a | 0 <= a < |unplaced|
      ensures !p.Legal(unplaced[a], row, col)
    {
      assert Covers(p.numRows, unplaced[a], row, col, p.numRows - row - 1, col);
    }
  }

  /** Placing a herd where it is legal: every placed herd still has its cells, and so has it. */
  method PlaceAt(p: Partition, placed: seq<Herd>, h: Herd, row: int, col: int)
    requires p.Valid() && GridOk(p, placed) && p.Legal(h, row, col)
    requires NumbersDiffer(placed + [h]) && h.numRows >= 1 && h.numCols >= 1
    modifies p.grid, h
    ensures GridOk(p, placed + [h]) && Painted(p, h, row, col) && h.locX == col && h.locY == row
  {
    NewNumber(placed, h);
    NumbersStay(placed, h);
    LegalInside(p, h, row, col);
    p.PlaceHerd(h, row, col);
    h.locX := col;
    h.locY := row;
    forall i, j | 0 <= i < p.numRows && 0 <= j < p.numCols
      ensures p.grid[i, j] == h.number <==> OwnsCell(p, h, i, j)
    {
      assert old(p.grid[i, j]) != h.number;
    }
    forall g | g in placed
      ensures HasItsCells(p, g)
    {
      assert old(HasItsCells(p, g)) && g.number != h.number && g != h;
      forall i, j | 0 <= i < p.numRows && 0 <= j < p.numCols
        ensures p.grid[i, j] == g.number <==> OwnsCell(p, g, i, j)
      {
        assert old(OwnsCell(p, g, i, j)) == OwnsCell(p, g, i, j);
        if Covers(p.numRows, h, row, col, i, j) {
          assert old(p.FreeCell(i, j));
        }
      }
    }
  }

  ghost predicate State(p: Partition, herds: seq<Herd>, unplaced: seq<Herd>, placed: seq<Herd>)
    requires p.Valid()
    reads p.grid, placed
  {
    && GridOk(p, placed) && NumbersDiffer(placed + unplaced) && AtLeastOneCell(unplaced)
    && multiset(placed) + multiset(unplaced) == multiset(herds)
    && (forall h :: h in unplaced ==> h in herds)
  }

  /** In the rows below `row`, and in it left of `col`, no herd of the list can be placed. */
  ghost predicate Scanned(p: Partition, unplaced: seq<Herd>, row: int, col: int)
    requires p.Valid()
    reads p.grid
  {
    forall r, c :: 0 <= r <= row && 0 <= c < p.numCols && (r < row || c < col) ==> NowhereLegal(p, unplaced, r, c)
  }

  // ---------- The order of the placements ----------

  /** At (row, col) the herd would leave the grid or overlap one of the placed herds. */
  ghost predicate Blocked(p: Partition, h: Herd, row: int, col: int, placed: seq<Herd>)
    reads placed
  {
    exists i, j :: Covers(p.numRows, h, row, col, i, j) &&
      (i < 0 || i >= p.numRows || j < 0 || j >= p.numCols || exists g :: g in placed && OwnsCell(p, g, i, j))
  }

  ghost predicate ComesBefore(herds: seq<Herd>, g: Herd, h: Herd) {
    exists x, y :: 0 <= x < y < |herds| && herds[x] == g && herds[y] == h
  }

  /** Rows count from the bottom, and columns from the left. */
  predicate Earlier(r: int, c: int, row: int, col: int) {
    r < row || (r == row && c < col)
  }

  /** Of the herds not placed before, none fits at a place before (row, col), and none that comes
      before h in the list fits at (row, col). */
  ghost predicate IsFirstFit(p: Partition, herds: seq<Herd>, before: seq<Herd>, h: Herd, row: int, col: int)
    reads before
  {
    forall g, r, c ::
      (g in herds && g !in before && 0 <= r < p.numRows && 0 <= c < p.numCols
       && (Earlier(r, c, row, col) || (r == row && c == col && ComesBefore(herds, g, h))))
      ==> Blocked(p, g, r, c, before)
  }

  /** Every herd was placed at the first place where a herd fitted, as the first one that did. */
  ghost predicate PlacedByFirstFit(p: Partition, herds: seq<Herd>, placed: seq<Herd>)
    reads placed
  {
    forall a :: 0 <= a < |placed| ==>
      IsFirstFit(p, herds, placed[..a], placed[a], placed[a].locY, placed[a].locX)
  }

  ghost predicate InListOrder(herds: seq<Herd>, unplaced: seq<Herd>) {
    forall a, b :: 0 <= a < b < |unplaced| ==> ComesBefore(herds, unplaced[a], unplaced[b])
  }

  lemma IllegalIsBlocked(p: Partition, h: Herd, row: int, col: int, placed: seq<Herd>)
    requires p.Valid() && GridOk(p, placed) && !p.Legal(h, row, col)
    ensures Blocked(p, h, row, col, placed)
  {
    var i, j :| Covers(p.numRows, h, row, col, i, j) && !p.FreeCell(i, j);
    if 0 <= i < p.numRows && 0 <= j < p.numCols {
      assert IsNumberOf(p.grid[i, j], placed);
      var a :| 0 <= a < |placed| && placed[a].number == p.grid[i, j];
      assert HasItsCells(p, placed[a]) && placed[a] in placed;
    }
  }

  /** A herd comes before or after another one, not both. */
  lemma OneOrder(herds: seq<Herd>, g: Herd, h: Herd)
    requires NumbersDiffer(herds) && ComesBefore(herds, g, h)
    ensures g != h && !ComesBefore(herds, h, g)
  {
  }

  /** What the scan knows when it places herd number k of those that are left. */
  lemma FirstFitHere(p: Partition, herds: seq<Herd>, unplaced: seq<Herd>, placed: seq<Herd>, row: int, col: int, k: nat)
    requires p.Valid() && State(p, herds, unplaced, placed) && Scanned(p, unplaced, row, col)
    requires NumbersDiffer(herds) && InListOrder(herds, unplaced) && k < |unplaced|
    requires forall a :: 0 <= a < k ==> !p.Legal(unplaced[a], row, col)
    ensures IsFirstFit(p, herds, placed, unplaced[k], row, col)
  {
    forall g, r, c | g in herds && g !in placed && 0 <= r < p.numRows && 0 <= c < p.numCols
      && (Earlier(r, c, row, col) || (r == row && c == col && ComesBefore(herds, g, unplaced[k])))
      ensures Blocked(p, g, r, c, placed)
    {
      var a := StillUnplaced(herds, unplaced, placed, g);
      if Earlier(r, c, row, col) {
        assert NowhereLegal(p, unplaced, r, c);
      } else {
        OneOrder(herds, g, unplaced[k]);
        assert a < k;
      }
      IllegalIsBlocked(p, g, r, c, placed);
    }
  }

  lemma PlacedOneMore(p: Partition, herds: seq<Herd>, placed: seq<Herd>, h: Herd)
    requires PlacedByFirstFit(p, herds, placed) && IsFirstFit(p, herds, placed, h, h.locY, h.locX)
    ensures PlacedByFirstFit(p, herds, placed + [h])
  {
    var more := placed + [h];
    forall a | 0 <= a < |more|
      ensures IsFirstFit(p, herds, more[..a], more[a], more[a].locY, more[a].locX)
    {
      assert more[..a] == if a < |placed| then placed[..a] else placed;
    }
  }

  lemma StillUnplaced(herds: seq<Herd>, unplaced: seq<Herd>, placed: seq<Herd>, g: Herd) returns (a: nat)
    requires multiset(placed) + multiset(unplaced) == multiset(herds) && g in herds && g !in placed
    ensures a < |unplaced| && unplaced[a] == g
  {
    assert g in multiset(herds) && g !in multiset(placed);
    assert g in multiset(unplaced);
    a :| a < |unplaced| && unplaced[a] == g;
  }

  lemma WithoutInOrder(herds: seq<Herd>, unplaced: seq<Herd>, k: nat)
    requires InListOrder(herds, unplaced) && k < |unplaced|
    ensures InListOrder(herds, Without(unplaced, k))
  {
    var rest := Without(unplaced, k);
    forall a, b | 0 <= a < b < |rest|
      ensures ComesBefore(herds, rest[a], rest[b])
    {
      var a', b' := if a < k then a else a + 1, if b < k then b else b + 1;
      assert ComesBefore(herds, unplaced[a'], unplaced[b']);
    }
  }

  /** One free cell: the first herd of the list that fits there is placed there. */
  method TryCell(p: Partition, ghost herds: seq<Herd>, unplaced: seq<Herd>, placed: seq<Herd>, row: int, col: int)
      returns (k: nat)
    requires p.Valid() && State(p, herds, unplaced, placed) && Scanned(p, unplaced, row, col)
    requires NumbersDiffer(herds) && InListOrder(herds, unplaced) && PlacedByFirstFit(p, herds, placed)
    modifies p.grid, herds
    ensures k <= |unplaced| && forall a :: 0 <= a < k ==> !old(p.Legal(unplaced[a], row, col))
    ensures k < |unplaced| ==>
      && GridOk(p, placed + [unplaced[k]]) && Painted(p, unplaced[k], row, col) && old(p.Legal(unplaced[k], row, col))
      && unplaced[k].locX == col && unplaced[k].locY == row
      && PlacedByFirstFit(p, herds, placed + [unplaced[k]])
    ensures k == |unplaced| ==> unchanged(p.grid) && GridOk(p, placed) && PlacedByFirstFit(p, herds, placed)
  {
    k := 0;
    while k < |unplaced|
      invariant k <= |unplaced| && unchanged(p.grid) && unchanged(set h | h in herds)
      invariant forall a :: 0 <= a < k ==> !p.Legal(unplaced[a], row, col)
    {
      var legalPlace := p.IsLegalPlacement(unplaced[k], row, col);
      if legalPlace {
        NewAmong(placed, unplaced, k);
        assert unplaced[k] in unplaced && unplaced[k] in herds;
        FirstFitHere(p, herds, unplaced, placed, row, col, k);
        NotPlaced(placed, unplaced[k]);
        PlaceAt(p, placed, unplaced[k], row, col);
        PlacedOneMore(p, herds, placed, unplaced[k]);
        return;
      }
      k := k + 1;
    }
  }

  lemma NotPlaced(placed: seq<Herd>, h: Herd)
    requires NumbersDiffer(placed + [h])
    ensures h !in placed
  {
    NewNumber(placed, h);
  }

  lemma NewAmong(placed: seq<Herd>, unplaced: seq<Herd>, k: nat)
    requires NumbersDiffer(placed + unplaced) && k < |unplaced|
    ensures NumbersDiffer(placed + [unplaced[k]])
  {
    var s := placed + unplaced;
    assert s[|placed| + k] == unplaced[k];
    forall a, b | 0 <= a < b < |placed + [unplaced[k]]|
      ensures (placed + [unplaced[k]])[a].number != (placed + [unplaced[k]])[b].number
    {
      assert s[a].number != s[if b < |placed| then b else |placed| + k].number;
    }
  }

  lemma ScannedNextRow(p: Partition, unplaced: seq<Herd>, row: int)
    requires p.Valid() && Scanned(p, unplaced, row, p.numCols)
    ensures Scanned(p, unplaced, row + 1, 0)
  {
    forall r, c | 0 <= r <= row + 1 && 0 <= c < p.numCols && (r < row + 1 || c < 0)
      ensures NowhereLegal(p, unplaced, r, c)
    {
      assert 0 <= r <= row && (r < row || c < p.numCols);
    }
  }

  /** One cell of the scan. */
  method ScanCell(p: Partition, ghost herds: seq<Herd>, row: int, col: int, unplaced0: seq<Herd>, placed0: seq<Herd>)
      returns (unplaced: seq<Herd>, placed: seq<Herd>)
    requires p.Valid() && State(p, herds, unplaced0, placed0) && Scanned(p, unplaced0, row, col)
    requires 0 <= row < p.numRows && 0 <= col < p.numCols
    requires NumbersDiffer(herds) && InListOrder(herds, unplaced0) && PlacedByFirstFit(p, herds, placed0)
    modifies p.grid, herds
    ensures State(p, herds, unplaced, placed) && Scanned(p, unplaced, row, col + 1)
    ensures InListOrder(herds, unplaced) && PlacedByFirstFit(p, herds, placed)
  {
    unplaced, placed := unplaced0, placed0;
    if p.grid[p.numRows - row - 1, col] == -1 {
      var k := TryCell(p, herds, unplaced, placed, row, col);
      if k < |unplaced| {
        MoveOne(placed, unplaced, k);
        WithoutInOrder(herds, unplaced, k);
        placed := placed + [unplaced[k]];
        unplaced := Without(unplaced, k);
        assert forall i, j :: p.FreeCell(i, j) ==> old(p.FreeCell(i, j));
        forall r, c, a | 0 <= r <= row && 0 <= c < p.numCols && (r < row || c < col) && 0 <= a < |unplaced|
          ensures !p.Legal(unplaced[a], r, c)
        {
          var b := if a < k then a else a + 1;
          assert unplaced[a] == unplaced0[b] && old(NowhereLegal(p, unplaced0, r, c));
          assert old(!p.Legal(unplaced0[b], r, c));
        }
        assert Covers(p.numRows, unplaced0[k], row, col, p.numRows - row - 1, col);
        TakenCell(p, unplaced, row, col);
      }
    } else {
      TakenCell(p, unplaced, row, col);
    }
  }

  /** One row of the scan; with the last herd placed it ends early. */
  method ScanRow(p: Partition, ghost herds: seq<Herd>, row: int, unplaced0: seq<Herd>, placed0: seq<Herd>)
      returns (unplaced: seq<Herd>, placed: seq<Herd>)
    requires p.Valid() && State(p, herds, unplaced0, placed0) && Scanned(p, unplaced0, row, 0)
    requires 0 <= row < p.numRows
    requires NumbersDiffer(herds) && InListOrder(herds, unplaced0) && PlacedByFirstFit(p, herds, placed0)
    modifies p.grid, herds
    ensures State(p, herds, unplaced, placed) && Scanned(p, unplaced, row, p.numCols)
    ensures InListOrder(herds, unplaced) && PlacedByFirstFit(p, herds, placed)
  {
    unplaced, placed := unplaced0, placed0;
    var j := 0;
    while j < p.numCols
      invariant 0 <= j <= p.numCols && State(p, herds, unplaced, placed) && Scanned(p, unplaced, row, j)
      invariant InListOrder(herds, unplaced) && PlacedByFirstFit(p, herds, placed)
    {
      unplaced, placed := ScanCell(p, herds, row, j, unplaced, placed);
      if placed != [] && unplaced == [] {
        return;
      }
      j := j + 1;
    }
  }

  /** Every row from the bottom, every column from the left. When herds are left over there is
      no place for any of them anywhere in the grid. */
  method NaivePlacement(p: Partition, herds: seq<Herd>) returns (unplaced: seq<Herd>, placed: seq<Herd>)
    requires p.Valid() && NumbersDiffer(herds) && AtLeastOneCell(herds)
    requires forall i, j :: 0 <= i < p.numRows && 0 <= j < p.numCols ==> p.grid[i, j] == -1
    modifies p.grid, herds
    ensures GridOk(p, placed) && NumbersDiffer(placed)
    ensures multiset(placed) + multiset(unplaced) == multiset(herds)
    ensures PlacedByFirstFit(p, herds, placed)
    ensures forall a, row, col :: 0 <= a < |unplaced| ==> !p.Legal(unplaced[a], row, col)
  {
    unplaced, placed := herds, [];
    assert [] + herds == herds;
    var i := 0;
    while i < p.numRows
      invariant 0 <= i <= p.numRows && State(p, herds, unplaced, placed) && Scanned(p, unplaced, i, 0)
      invariant InListOrder(herds, unplaced) && PlacedByFirstFit(p, herds, placed)
    {
      unplaced, placed := ScanRow(p, herds, i, unplaced, placed);
      if placed != [] && unplaced == [] {
        assert placed + [] == placed;
        return;
      }
      ScannedNextRow(p, unplaced, i);
      i := i + 1;
    }
    NothingAnywhere(p, unplaced);
    assert NumbersDiffer(placed) by {
      assert forall a :: 0 <= a < |placed| ==> (placed + unplaced)[a] == placed[a];
    }
  }

  lemma NothingAnywhere(p: Partition, unplaced: seq<Herd>)
    requires p.Valid() && AtLeastOneCell(unplaced) && Scanned(p, unplaced, p.numRows, 0)
    ensures forall a, row, col :: 0 <= a < |unplaced| ==> !p.Legal(unplaced[a], row, col)
  {
    forall a, row, col | 0 <= a < |unplaced|
      ensures !p.Legal(unplaced[a], row, col)
    {
      if 0 <= row < p.numRows && 0 <= col < p.numCols {
        assert NowhereLegal(p, unplaced, row, col);
      } else if p.Legal(unplaced[a], row, col) {
        LegalInside(p, unplaced[a], row, col);
      }
    }
  }

  /** The places come in the order of the scan: row by row from the bottom, each row from the left. */
  lemma PlacesInScanOrder(p: Partition, herds: seq<Herd>, placed: seq<Herd>, a: nat, b: nat)
    requires p.Valid() && GridOk(p, placed) && NumbersDiffer(placed) && AtLeastOneCell(placed)
    requires PlacedByFirstFit(p, herds, placed) && a < b < |placed| && placed[b] in herds
    ensures Earlier(placed[a].locY, placed[a].locX, placed[b].locY, placed[b].locX)
  {
    var g, h := placed[a], placed[b];
    assert HasItsCells(p, g) && HasItsCells(p, h);
    NotBlocked(p, placed, a, b);
    assert IsFirstFit(p, herds, placed[..a], g, g.locY, g.locX);
    PlacedDisjoint(p, placed, a, b, p.numRows - g.locY - 1, g.locX);
  }

  /** Where a herd is placed, none of the others is in its way. */
  lemma NotBlocked(p: Partition, placed: seq<Herd>, a: nat, b: nat)
    requires p.Valid() && GridOk(p, placed) && NumbersDiffer(placed) && a <= b < |placed|
    ensures placed[b] !in placed[..a]
    ensures !Blocked(p, placed[b], placed[b].locY, placed[b].locX, placed[..a])
  {
    assert HasItsCells(p, placed[b]);
    forall g, i, j | g in placed[..a]
      ensures g != placed[b] && !(OwnsCell(p, g, i, j) && OwnsCell(p, placed[b], i, j))
    {
      var c :| 0 <= c < a && placed[c] == g;
      PlacedDisjoint(p, placed, c, b, i, j);
    }
  }

  predicate Fits(p: Partition, h: Herd) {
    h.numRows <= p.numRows && h.numCols <= p.numCols
  }

  /** On an empty grid a herd that fits can be placed at the corner. */
  lemma FitsInEmptyGrid(p: Partition, placed: seq<Herd>, h: Herd)
    requires p.Valid() && GridOk(p, placed) && placed == [] && Fits(p, h)
    ensures p.Legal(h, 0, 0)
  {
    forall i, j | Covers(p.numRows, h, 0, 0, i, j)
      ensures p.FreeCell(i, j)
    {
      assert !IsNumberOf(p.grid[i, j], placed);
    }
  }

  /** Offsets of a placed herd in the device. */
  datatype Offset = Offset(number: nat, row: int, col: int)

  /** In the device, whose rows count from the bottom and which has the partition's corner at the
      anchor, the herd's cells are the rectangle of its size at the offset. */
  ghost predicate IsOffset(p: Partition, h: Herd, o: Offset, anchorRow: int, anchorCol: int)
    requires p.Valid()
    reads p.grid
  {
    && o.number == h.number
    && forall i, j :: 0 <= i < p.numRows && 0 <= j < p.numCols ==>
         (p.grid[i, j] == h.number <==>
          && o.row <= anchorRow + (p.numRows - 1 - i) < o.row + h.numRows
          && o.col <= anchorCol + j < o.col + h.numCols)
  }

  /** All herds get their offsets, or, when one is left over that has no place in the final
      grid, none does. A lone herd that fits always gets its offset. */
  method PlaceHerdsInPartition(p: Partition, anchorRow: int, anchorCol: int, herds: seq<Herd>)
      returns (ok: bool, placed: seq<Herd>, offsets: seq<Offset>)
    requires p.Valid() && NumbersDiffer(herds) && AtLeastOneCell(herds)
    requires forall i, j :: 0 <= i < p.numRows && 0 <= j < p.numCols ==> p.grid[i, j] == -1
    modifies p.grid, herds
    ensures GridOk(p, placed) && NumbersDiffer(placed) && PlacedByFirstFit(p, herds, placed)
    ensures ok ==> multiset(placed) == multiset(herds) && |offsets| == |placed|
    ensures ok ==> forall a :: 0 <= a < |placed| ==> IsOffset(p, placed[a], offsets[a], anchorRow, anchorCol)
    ensures !ok ==> offsets == [] && exists h :: h in herds && h !in placed && forall row, col :: !p.Legal(h, row, col)
    ensures |herds| == 1 && Fits(p, herds[0]) ==> ok
  {
    var unplaced;
    unplaced, placed := NaivePlacement(p, herds);
    offsets := [];
    if |unplaced| != 0 {
      ghost var h := unplaced[0];
      assert h in multiset(unplaced) && h in herds by {
        assert h in multiset(placed) + multiset(unplaced);
      }
      assert forall row, col :: !p.Legal(h, row, col);
      LeftOver(herds, placed, unplaced);
      if |herds| == 1 && Fits(p, herds[0]) {
        FitsInEmptyGrid(p, placed, h);
      }
      return false, placed, offsets;
    }
    offsets := PlacedOffsets(p, anchorRow, anchorCol, placed);
    return true, placed, offsets;
  }

  method PlacedOffsets(p: Partition, anchorRow: int, anchorCol: int, placed: seq<Herd>) returns (offsets: seq<Offset>)
    requires p.Valid() && GridOk(p, placed)
    ensures |offsets| == |placed|
    ensures forall a :: 0 <= a < |placed| ==> IsOffset(p, placed[a], offsets[a], anchorRow, anchorCol)
  {
    offsets := [];
    var a: nat := 0;
    while a < |placed|
      invariant |offsets| == a <= |placed|
      invariant forall b :: 0 <= b < a ==> IsOffset(p, placed[b], offsets[b], anchorRow, anchorCol)
    {
      assert HasItsCells(p, placed[a]);
      offsets := offsets + [Offset(placed[a].number, placed[a].locY + anchorRow, placed[a].locX + anchorCol)];
      a := a + 1;
    }
  }

  /** A herd that is left over is not placed; when it is the only one, nothing is. */
  lemma LeftOver(herds: seq<Herd>, placed: seq<Herd>, unplaced: seq<Herd>)
    requires NumbersDiffer(herds) && |unplaced| > 0
    requires multiset(placed) + multiset(unplaced) == multiset(herds)
    ensures unplaced[0] !in placed
    ensures |herds| == 1 ==> placed == []
  {
    var h := unplaced[0];
    assert h in multiset(unplaced);
    if h in placed {
      assert h in multiset(placed);
      assert multiset(herds)[h] >= 2;
      OnlyOnce(herds, h);
      assert false;
    }
    assert |multiset(placed)| + |multiset(unplaced)| == |multiset(herds)|;
  }

  lemma {:induction false} OnlyOnce(herds: seq<Herd>, h: Herd)
    requires NumbersDiffer(herds)
    ensures multiset(herds)[h] <= 1
  {
    if herds != [] {
      OnlyOnce(herds[1..], h);
      assert herds == [herds[0]] + herds[1..];
      forall a | 0 <= a < |herds[1..]|
        ensures herds[1..][a] != herds[0]
      {
        assert herds[0].number != herds[a + 1].number;
      }
    }
  }
}
