/**
 * What it means to insert into a list, to remove from it, to replace an element and to move one: position by position,
 * without slices.
 */
module ListEdits {

  /** `t` is `s` with `x` at position `i` and everything from there on one place later. */
  ghost predicate Inserted<T(!new)>(s: seq<T>, t: seq<T>, i: nat, x: T) {
    && i <= |s| && |t| == |s| + 1 && t[i] == x
    && (forall k :: 0 <= k < i ==> t[k] == s[k])
    && (forall k :: i < k < |t| ==> t[k] == s[k - 1])
  }

  ghost predicate Replaced<T(!new)>(s: seq<T>, t: seq<T>, i: nat, x: T) {
    i < |s| && |t| == |s| && t[i] == x && forall k :: 0 <= k < |s| && k != i ==> t[k] == s[k]
  }

  /** Where the element at `k` is after the one at `from` has been moved to `to`. */
  function Landing(k: nat, from: nat, to: nat): nat {
    if k == from then to else if from < k <= to then k - 1 else if to <= k < from then k + 1 else k
  }

  ghost predicate Moved<T(!new)>(s: seq<T>, t: seq<T>, from: nat, to: nat) {
    && from < |s| && to < |s| && |t| == |s|
    && forall k :: 0 <= k < |s| ==> Landing(k, from, to) < |s| && t[Landing(k, from, to)] == s[k]
  }
}
