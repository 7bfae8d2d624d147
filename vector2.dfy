/**
 * The immutable integer pair used as both a grid coordinate and a displacement.
 * Being a datatype, its equality is structural on (x, y), as for the Kotlin data class.
 */
module Vectors {

  datatype Vector2 = Vector2(x: int, y: int)
  {
    /** Componentwise addition. */
    function Plus(other: Vector2): Vector2
    {
      Vector2(x + other.x, y + other.y)
    }

    /** Componentwise subtraction, the inverse of `Plus`. */
    function Minus(other: Vector2): Vector2
    {
      Vector2(x - other.x, y - other.y)
    }
  }

  const Origin := Vector2(0, 0)

  lemma PlusCommutes(a: Vector2, b: Vector2)
    ensures a.Plus(b) == b.Plus(a)
  {
  }

  lemma PlusAssociates(a: Vector2, b: Vector2, c: Vector2)
    ensures a.Plus(b).Plus(c) == a.Plus(b.Plus(c))
  {
  }

  lemma OriginIsIdentity(a: Vector2)
    ensures a.Plus(Origin) == a && Origin.Plus(a) == a
  {
  }

  /** Subtracting what was added gives back the start, and the other way round. */
  lemma PlusMinusRoundTrip(a: Vector2, b: Vector2)
    ensures a.Plus(b).Minus(b) == a
    ensures a.Minus(b).Plus(b) == a
  {
  }

  /** Two vectors are equal exactly when both coordinates are. */
  lemma StructuralEquality(a: Vector2, b: Vector2)
    ensures a == b <==> a.x == b.x && a.y == b.y
  {
  }
}
