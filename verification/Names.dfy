/** Case-insensitive comparison of names. */
module Names {

  /** The string with every character upcased; `up` is the upcase table. */
  function Fold(up: char -> char, s: string): (f: string)
    ensures |f| == |s|
  {
    if s == "" then "" else [up(s[0])] + Fold(up, s[1..])
  }

  /** Case-insensitive equality of counted strings. */
  predicate SameName(up: char -> char, a: string, b: string)
  {
    Fold(up, a) == Fold(up, b)
  }

  lemma {:induction false} SameNamePointwise(up: char -> char, a: string, b: string)
    ensures SameName(up, a, b) <==> |a| == |b| && forall i :: 0 <= i < |a| ==> up(a[i]) == up(b[i])
  {
    if |a| == |b| != 0 {
      SameNamePointwise(up, a[1..], b[1..]);
      assert forall i :: 0 <= i < |a| - 1 ==> a[1..][i] == a[i + 1] && b[1..][i] == b[i + 1];
      assert SameName(up, a, b) <==> up(a[0]) == up(b[0]) && SameName(up, a[1..], b[1..]) by {
        assert Fold(up, a)[1..] == Fold(up, a[1..]) && Fold(up, b)[1..] == Fold(up, b[1..]);
      }
      assert (forall i :: 0 <= i < |a| ==> up(a[i]) == up(b[i])) <==>
        (up(a[0]) == up(b[0]) && forall i :: 1 <= i < |a| ==> up(a[i]) == up(b[i]));
    }
  }
}
