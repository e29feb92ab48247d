/** Sequences without repetition, and how long they can be. */
module Counting {

  predicate NoDup(s: seq<int>) {
    forall i, j :: 0 <= i < j < |s| ==> s[i] != s[j]
  }

  function Elems(s: seq<int>): set<int> {
    set x | x in s
  }

  function Without(s: seq<int>, k: nat): seq<int>
    requires k < |s|
  {
    s[..k] + s[k + 1..]
  }

  /** The first element, or what stands for none. */
  function Head(s: seq<int>, none: int): int {
    if s == [] then none else s[0]
  }

  /** Distinct values below `c` number at most `c`. */
  lemma {:induction false} Pigeonhole(s: seq<nat>, c: nat)
    requires forall i :: 0 <= i < |s| ==> s[i] < c
    requires forall i, j :: 0 <= i < j < |s| ==> s[i] != s[j]
    ensures |s| <= c
  {
    if s != [] {
      assert s[0] < c;
      var last := c - 1;
      if k :| 0 <= k < |s| && s[k] == last {
        var rest := s[..k] + s[k + 1..];
        Pigeonhole(rest, last);
      } else {
        Pigeonhole(s[1..], last);
      }
    }
  }
}
