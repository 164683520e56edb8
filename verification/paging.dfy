/**
  The page arithmetic shared by the paged clients: `slice($offset,
  $length)` asks for page `($offset / $length) + 1` of size `$length`.
  PHP's `/` gives a float when the division is inexact, and passing it to
  an `int` parameter truncates toward zero; dividing by zero throws.
 */
module Paging {
  import opened Wrappers

  function Abs(x: int): nat {
    if x < 0 then -x else x
  }

  /** The floor quotient of a natural number by a positive one, by repeated subtraction. */
  function Quotient(a: nat, b: nat): (q: nat)
    requires b > 0
    ensures q * b <= a < q * b + b
    decreases a
  {
    if a < b then 0 else 1 + Quotient(a - b, b)
  }

  /** Division truncating toward zero: the quotient of the magnitudes, with the sign of the exact quotient. */
  function TruncDiv(a: int, b: int): (q: int)
    requires b != 0
    ensures Abs(q) == Quotient(Abs(a), Abs(b))
    ensures (a < 0) == (b < 0) ==> q >= 0
    ensures (a < 0) != (b < 0) ==> q <= 0
  {
    var m: int := Quotient(Abs(a), Abs(b));
    if (a < 0) == (b < 0) then m else -m
  }

  /**
    The page requested by `slice(offset, length)`: the truncated value of
    `offset / length + 1`, that is of `(offset + length) / length`.
   */
  function PageNumber(offset: int, length: int): (r: Result<int>)
    ensures r.Failure? <==> length == 0
    ensures r.Failure? ==> r.error == DivisionByZero
  {
    if length == 0 then Failure(DivisionByZero) else Success(TruncDiv(offset + length, length))
  }

  /** For a non-negative offset and a positive length, the page is the floor quotient plus one. */
  lemma PageOfNonNegativeOffset(offset: nat, length: int)
    requires 0 < length
    ensures PageNumber(offset, length) == Success(Quotient(offset, length) + 1)
  {
    assert Quotient(offset + length, length) == 1 + Quotient(offset, length);
  }

  /** Multiples of the divisor divide exactly. */
  lemma {:induction false} QuotientOfMultiple(k: nat, length: int)
    requires 0 < length
    ensures Quotient(k * length, length) == k
  {
    if k > 0 {
      assert k * length - length == (k - 1) * length;
      QuotientOfMultiple(k - 1, length);
    }
  }

  /** A page-aligned offset asks for the page that starts at it. */
  lemma AlignedPage(k: nat, length: int)
    requires 0 < length
    ensures PageNumber(k * length, length) == Success(k + 1)
  {
    PageOfNonNegativeOffset(k * length, length);
    QuotientOfMultiple(k, length);
  }

  /** For a non-negative offset and a positive length, the requested page holds the offset. */
  lemma PageHoldsOffset(offset: nat, length: int)
    requires 0 < length
    ensures PageNumber(offset, length).Success?
    ensures var page := PageNumber(offset, length).value;
      1 <= page && (page - 1) * length <= offset < page * length
  {
    PageOfNonNegativeOffset(offset, length);
    var q := Quotient(offset, length);
    assert (q + 1 - 1) * length == q * length;
    assert (q + 1) * length == q * length + length;
  }

  /**
    Truncation, not flooring: an offset less than a page below zero, and
    one up to two pages below it, both ask for page 0.
   */
  lemma NegativeOffsetsAskPageZero(offset: int, length: int)
    requires 0 < length && -2 * length < offset < 0
    ensures PageNumber(offset, length) == Success(0)
  {
    assert Abs(offset + length) < length;
  }
}
