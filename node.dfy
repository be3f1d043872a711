/** The per-cell search record (models/node.py). */
module Nodes {
  import opened Costs

  datatype Option<T> = None | Some(value: T)

  /** A grid coordinate; `parent` links are kept as coordinates into the grid. */
  datatype Pos = Pos(row: int, col: int)

  class Node {
    /** Coordinates: set once by the constructor and never reassigned. */
    const row: int
    const col: int
    /** Best known cost from the start; Inf until the cell is reached. */
    var g: Cost
    /** Heuristic estimate to the goal. */
    var h: nat
    /** Priority g + h; Inf until the cell is reached. */
    var f: Cost
    /** Predecessor on the best known path, as the coordinates of that cell. */
    var parent: Option<Pos>
    var isWall: bool

    constructor (row: int, col: int)
      ensures this.row == row && this.col == col
      ensures g == Inf && h == 0 && f == Inf
      ensures parent == None && !isWall
    {
      this.row := row;
      this.col := col;
      g := Inf;
      h := 0;
      f := Inf;
      parent := None;
      isWall := false;
    }

    /** This node's coordinates, the value a child stores in its `parent`. */
    function At(): Pos
    {
      Pos(row, col)
    }

    /** `__lt__`: nodes are ordered by f alone. */
    predicate Less(other: Node): (r: bool)
      reads this, other
      ensures r ==> f.Fin? && f != other.f
      ensures f.Fin? && other.f.Inf? ==> r
    {
      Lt(f, other.f)
    }
  }

  lemma LessIrreflexive(a: Node)
    ensures !a.Less(a)
  {
    LtIrreflexive(a.f);
  }

  lemma LessTransitive(a: Node, b: Node, c: Node)
    requires a.Less(b) && b.Less(c)
    ensures a.Less(c)
  {
    LtTransitive(a.f, b.f, c.f);
  }

  lemma LessAsymmetric(a: Node, b: Node)
    requires a.Less(b)
    ensures !b.Less(a)
  {
    LtAsymmetric(a.f, b.f);
  }

  /** Two nodes are mutually not-less exactly when their f values are equal, so
      the order says nothing about which of two such nodes comes first. */
  lemma NotLessEitherWayIffEqualF(a: Node, b: Node)
    ensures (!a.Less(b) && !b.Less(a)) <==> a.f == b.f
  {
    LtTrichotomy(a.f, b.f);
    LtIrreflexive(a.f);
  }
}
