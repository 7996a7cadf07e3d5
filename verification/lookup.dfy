/** Table lookup shared by the board (pitch -> row) and the link parser ('&' search). */
module Lookup {

  /** Position of the first occurrence of `x` in `s`, or -1 when there is none:
      the behaviour of JavaScript's `Array.prototype.indexOf` and `String.prototype.indexOf`. */
  function IndexOf<T(==)>(s: seq<T>, x: T): (r: int)
    ensures -1 <= r < |s|
    ensures r == -1 <==> x !in s
    ensures 0 <= r ==> r < |s| && s[r] == x && x !in s[..r]
  {
    if |s| == 0 then -1
    else if s[0] == x then 0
    else
      var k := IndexOf(s[1..], x);
      assert k >= 0 ==> s[..k + 1] == [s[0]] + s[1..][..k];
      if k == -1 then -1 else k + 1
  }

  /** No value occurs twice in `s`. */
  predicate Distinct<T(==)>(s: seq<T>) {
    forall a, b :: 0 <= a < b < |s| ==> s[a] != s[b]
  }

  /** In a table without repeats, looking an entry up gives back its own position. */
  lemma IndexOfDistinct<T>(s: seq<T>, k: int)
    requires Distinct(s)
    requires 0 <= k < |s|
    ensures IndexOf(s, s[k]) == k
  {
  }
}
