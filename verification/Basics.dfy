/** What several of the models share. */
module Basics {

  datatype Option<T> = None | Some(value: T)

  /** The scheduler's levels, one ready queue each. */
  const NICE_LEVELS: nat := 16

  predicate Distinct(l: seq<nat>) {
    forall i, j :: 0 <= i < j < |l| ==> l[i] != l[j]
  }

  /** The list without the first occurrence of a value. */
  function Without(l: seq<nat>, x: nat): seq<nat> {
    if l == [] then [] else if l[0] == x then l[1..] else [l[0]] + Without(l[1..], x)
  }

  lemma {:induction false} WithoutMeaning(l: seq<nat>, x: nat)
    requires Distinct(l)
    ensures Distinct(Without(l, x)) && forall y :: y in Without(l, x) <==> y in l && y != x
  {
    if l != [] {
      var t := l[1..];
      assert Distinct(t) && l == [l[0]] + t;
      WithoutMeaning(t, x);
      forall y | y in t ensures y != l[0] {
        var i :| 0 <= i < |t| && t[i] == y;
        assert l[i + 1] == y;
      }
      if l[0] != x {
        var r := Without(t, x);
        forall i, j | 0 <= i < j < |r| + 1 ensures ([l[0]] + r)[i] != ([l[0]] + r)[j] {
          assert ([l[0]] + r)[j] == r[j - 1] && r[j - 1] in r;
        }
      }
    }
  }

  /** The list without the element at an index. */
  function WithoutAt(l: seq<nat>, i: nat): seq<nat> {
    if i < |l| then l[..i] + l[i + 1..] else l
  }

  /** One element is somewhere in front of another. */
  ghost predicate Ahead(l: seq<nat>, x: nat, y: nat) {
    exists i, j :: 0 <= i < j < |l| && l[i] == x && l[j] == y
  }
}
