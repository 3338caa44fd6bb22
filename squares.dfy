/** `squares` of filtered_logger.py: the square of every element of a
    list, in order. Python integers are unbounded, as Dafny's are. */
module Squares {

  /** The result is as long as the input and holds, at each position, the
      square of the input's element there. */
  function Squares(lst: seq<int>): (r: seq<int>)
    ensures |r| == |lst|
    ensures forall i :: 0 <= i < |lst| ==> r[i] == lst[i] * lst[i]
  {
    seq(|lst|, i requires 0 <= i < |lst| => lst[i] * lst[i])
  }

  /** Every element of the result is non-negative. */
  lemma SquaresNonNegative(lst: seq<int>)
    ensures forall i :: 0 <= i < |lst| ==> Squares(lst)[i] >= 0
  {
  }

  /** Squaring works element by element: the squares of a concatenation
      are the concatenation of the squares. */
  lemma SquaresAppend(a: seq<int>, b: seq<int>)
    ensures Squares(a + b) == Squares(a) + Squares(b)
  {
  }

  /** A sign change leaves the squares unchanged. */
  lemma SquaresIgnoreSign(lst: seq<int>)
    ensures Squares(seq(|lst|, i requires 0 <= i < |lst| => -lst[i])) == Squares(lst)
  {
  }

  lemma SquaresEmpty()
    ensures Squares([]) == []
  {
  }

  /** The call of filtered_logger.py:10. */
  lemma SquaresExample()
    ensures Squares([4, 5, 6, 2, 6, 8]) == [16, 25, 36, 4, 36, 64]
  {
  }
}
