// Text set in lines: cells of some width, each of which may end its line, as a newline or by a soft
// break that takes one character of its own.
module LineLayout {

  // A newline has no width.
  datatype Cell = Cell(newline: bool, width: nat, breaks: bool)

  // Every line from a cell on has at most limit characters, the first one continuing a line of col.
  predicate BlocksFit(cells: seq<Cell>, at: nat, col: nat, limit: nat)
    requires at <= |cells|
    decreases |cells| - at
  {
    if at == |cells| then col <= limit
    else if cells[at].newline then col <= limit && BlocksFit(cells, at + 1, 0, limit)
    else if cells[at].breaks then col + cells[at].width + 1 <= limit && BlocksFit(cells, at + 1, 0, limit)
    else BlocksFit(cells, at + 1, col + cells[at].width, limit)
  }

  function Widths(cells: seq<Cell>): nat {
    if cells == [] then 0 else Widths(cells[..|cells| - 1]) + cells[|cells| - 1].width
  }

  // The cells from i to j stand on one line: there is no newline among them, and no soft break but
  // perhaps after the last.
  ghost predicate OneLine(cells: seq<Cell>, i: nat, j: nat) {
    && i <= j <= |cells|
    && (forall k :: i <= k < j ==> !cells[k].newline)
    && (forall k :: i <= k < j - 1 ==> !cells[k].breaks)
  }

  // How long they make it.
  function Length(cells: seq<Cell>, i: nat, j: nat): nat
    requires i <= j <= |cells|
  {
    Widths(cells[i..j]) + if i < j && cells[j - 1].breaks then 1 else 0
  }

  ghost predicate PiecesFit(cells: seq<Cell>, limit: nat) {
    forall i: nat, j: nat :: OneLine(cells, i, j) ==> Length(cells, i, j) <= limit
  }

  // The line that is being written at a cell began at another one.
  ghost predicate Begun(cells: seq<Cell>, start: nat, at: nat) {
    OneLine(cells, start, at) && (start < at ==> !cells[at - 1].breaks)
  }

  lemma WidthsMore(cells: seq<Cell>, i: nat, j: nat)
    requires i <= j < |cells|
    ensures Widths(cells[i..j + 1]) == Widths(cells[i..j]) + cells[j].width
  {
    assert cells[i..j + 1][..j - i] == cells[i..j];
  }

  lemma {:induction false} WidthsShrink(cells: seq<Cell>, start: nat, i: nat, j: nat)
    requires start <= i <= j <= |cells|
    ensures Widths(cells[i..j]) <= Widths(cells[start..j])
    decreases j - i
  {
    if i < j {
      WidthsShrink(cells, start, i, j - 1);
      WidthsMore(cells, i, j - 1);
      WidthsMore(cells, start, j - 1);
    } else {
      assert cells[i..j] == [];
    }
  }

  lemma {:induction false} BlocksBound(cells: seq<Cell>, at: nat, col: nat, limit: nat)
    requires at <= |cells| && BlocksFit(cells, at, col, limit)
    ensures col <= limit
    decreases |cells| - at
  {
    if at < |cells| && !cells[at].newline && !cells[at].breaks {
      BlocksBound(cells, at + 1, col + cells[at].width, limit);
    }
  }

  lemma {:induction false} PiecesOfBlocks(cells: seq<Cell>, start: nat, at: nat, limit: nat, i: nat, j: nat)
    requires Begun(cells, start, at) && BlocksFit(cells, at, Widths(cells[start..at]), limit)
    requires OneLine(cells, i, j) && start <= i && at <= j
    ensures Length(cells, i, j) <= limit
    decreases |cells| - at
  {
    WidthsShrink(cells, start, if i <= at then i else at, at);
    if j == at {
      BlocksBound(cells, at, Widths(cells[start..at]), limit);
    } else if !cells[at].newline && !cells[at].breaks {
      WidthsMore(cells, start, at);
      PiecesOfBlocks(cells, start, at + 1, limit, i, j);
    } else if at < i {
      assert cells[at + 1..at + 1] == [];
      PiecesOfBlocks(cells, at + 1, at + 1, limit, i, j);
    } else {
      assert j == at + 1;
      WidthsMore(cells, i, at);
    }
  }

  lemma {:induction false} BlocksOfPieces(cells: seq<Cell>, start: nat, at: nat, limit: nat)
    requires Begun(cells, start, at) && PiecesFit(cells, limit)
    ensures BlocksFit(cells, at, Widths(cells[start..at]), limit)
    decreases |cells| - at
  {
    assert Length(cells, start, at) <= limit;
    if at < |cells| {
      WidthsMore(cells, start, at);
      if !cells[at].newline && !cells[at].breaks {
        BlocksOfPieces(cells, start, at + 1, limit);
      } else {
        assert !cells[at].newline ==> OneLine(cells, start, at + 1);
        assert cells[at + 1..at + 1] == [];
        BlocksOfPieces(cells, at + 1, at + 1, limit);
      }
    }
  }

  // The lines keep to a limit exactly when every stretch of cells on one line does.
  lemma FitExactly(cells: seq<Cell>, limit: nat)
    ensures BlocksFit(cells, 0, 0, limit) <==> PiecesFit(cells, limit)
  {
    assert cells[0..0] == [];
    if PiecesFit(cells, limit) { BlocksOfPieces(cells, 0, 0, limit); }
    if BlocksFit(cells, 0, 0, limit) {
      forall i: nat, j: nat | OneLine(cells, i, j) ensures Length(cells, i, j) <= limit {
        PiecesOfBlocks(cells, 0, 0, limit, i, j);
      }
    }
  }

  // Cells of width at most one, or at most three.
  function Room(wide: bool, count: nat): nat {
    if wide then 3 * count else count
  }

  lemma {:induction false} WidthsBound(cells: seq<Cell>, i: nat, j: nat, wide: bool)
    requires OneLine(cells, i, j) && forall k :: 0 <= k < |cells| ==> cells[k].width <= Room(wide, 1)
    ensures Widths(cells[i..j]) <= Room(wide, j - i)
    decreases j - i
  {
    if i < j {
      WidthsMore(cells, i, j - 1);
      WidthsBound(cells, i, j - 1, wide);
    }
  }
}
