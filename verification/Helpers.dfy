/** Small facts used by several modules. */
module Helpers {
  function Min(a: nat, b: nat): nat { if a < b then a else b }

  lemma AddNothing<T>(s: seq<T>)
    ensures s + [] == s && [] + s == s
  {
  }

  lemma Reassociate<T>(a: seq<T>, b: seq<T>, c: seq<T>)
    ensures a + (b + c) == (a + b) + c
  {
  }

  lemma SubSlice<T>(s: seq<T>, m: nat, a: nat, b: nat)
    requires a <= b <= m <= |s|
    ensures s[..m][a..b] == s[a..b]
  {
  }
}
