/** A board coordinate: `x` is the row and `y` the column. */
module Position {

  datatype Pos = Pos(x: int, y: int) {

    /** The row given at construction. */
    function GetX(): int { x }

    /** The column given at construction. */
    function GetY(): int { y }

    /** Coordinate-wise equality. */
    predicate Equals(other: Pos) {
      x == other.x && y == other.y
    }
  }

  /** The getters hand back exactly the coordinates the position was built from. */
  lemma GettersReturnCoordinates(x: int, y: int)
    ensures Pos(x, y).GetX() == x && Pos(x, y).GetY() == y
  {
  }

  /** `Equals` is value equality: two positions are equal iff both coordinates match. */
  lemma EqualsIffSameCoordinates(p: Pos, q: Pos)
    ensures p.Equals(q) <==> p.GetX() == q.GetX() && p.GetY() == q.GetY()
    ensures p.Equals(q) <==> p == q
  {
  }

  lemma EqualsReflexive(p: Pos)
    ensures p.Equals(p)
  {
  }

  lemma EqualsSymmetric(p: Pos, q: Pos)
    ensures p.Equals(q) <==> q.Equals(p)
  {
  }

  lemma EqualsTransitive(p: Pos, q: Pos, r: Pos)
    requires p.Equals(q) && q.Equals(r)
    ensures p.Equals(r)
  {
  }
}
