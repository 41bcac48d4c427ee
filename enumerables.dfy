/** The `IEnumerable` extension helpers the picker adapter calls (`Count`, `ElementAt`,
    `GetPosition`), given the meaning they have on a finite sequence of items:
    `Count` is `|s|`, `ElementAt(i)` is `s[i]` and `GetPosition` is defined here. */
module Enumerables {

  /** True when no item occurs twice. */
  predicate Distinct<T(==)>(s: seq<T>) {
    forall i, j :: 0 <= i < j < |s| ==> s[i] != s[j]
  }

  /** `GetPosition`: the index of the first item equal to `x`, or -1 when there is none. */
  function Position<T(==)>(s: seq<T>, x: T): (r: int)
    ensures -1 <= r < |s|
    ensures r == -1 <==> x !in s
    ensures 0 <= r ==> s[r] == x
    ensures forall j :: 0 <= j < r ==> s[j] != x
  {
    if |s| == 0 then -1
    else if s[0] == x then 0
    else
      var p := Position(s[1..], x);
      if p < 0 then -1 else p + 1
  }

  /** Any index that holds `x` is at or after the position reported for `x`; in a sequence
      without repeated items it is exactly that position. */
  lemma PositionOfElement<T>(s: seq<T>, i: int)
    requires 0 <= i < |s|
    ensures 0 <= Position(s, s[i]) <= i
    ensures Distinct(s) ==> Position(s, s[i]) == i
  {
  }
}
