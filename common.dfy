/** Small value types and sequence helpers shared by the three components. */
module Common {

  /** A value that may be missing (JavaScript's `undefined`). */
  datatype Option<+T> = None | Some(value: T)

  /** Position of the first occurrence of `x` in `s`, or -1 when `x` does not
      occur; the behaviour of JavaScript's `Array.prototype.indexOf`. */
  function IndexOf<T(==)>(s: seq<T>, x: T): (r: int)
    ensures r == -1 <==> x !in s
    ensures -1 <= r < |s|
    ensures 0 <= r ==> s[r] == x && x !in s[..r]
  {
    if s == [] then -1
    else if s[0] == x then 0
    else
      var k := IndexOf(s[1..], x);
      assert k >= 0 ==> s[..k + 1] == [s[0]] + s[1..][..k];
      if k == -1 then -1 else k + 1
  }

  /** The first occurrence of `s[i]` is at or before `i`. */
  lemma IndexOfBefore<T>(s: seq<T>, i: nat)
    requires i < |s|
    ensures 0 <= IndexOf(s, s[i]) <= i
  {
    assert s[i] in s;
  }
}
