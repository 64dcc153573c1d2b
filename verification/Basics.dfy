/** The vocabulary the models share: bounds, ASCII characters, sequences without repetition. */
module Basics {

  function Max(a: int, b: int): int { if a < b then b else a }

  function Min(a: int, b: int): int { if a < b then a else b }

  predicate IsLower(c: char) { 'a' <= c <= 'z' }

  predicate IsUpper(c: char) { 'A' <= c <= 'Z' }

  predicate IsDigit(c: char) { '0' <= c <= '9' }

  function ToUpper(c: char): char { if IsLower(c) then (c as int - 32) as char else c }

  function ToLower(c: char): char { if IsUpper(c) then (c as int + 32) as char else c }

  predicate Distinct<T(==)>(s: seq<T>) { forall i, j | 0 <= i < j < |s| :: s[i] != s[j] }

  function ToSet<T>(s: seq<T>): set<T> { set x | x in s }

  lemma ToSetOfOneMore<T>(s: seq<T>, x: T)
    ensures ToSet(s + [x]) == ToSet(s) + {x}
  {
    forall y ensures y in ToSet(s + [x]) <==> y in ToSet(s) + {x} {
      assert y in s + [x] <==> y in s || y == x;
    }
  }

  /** What each position hands to the next holds from the first on. */
  lemma {:induction false} StaysTrue(b: seq<bool>, since: nat, n: nat)
    requires since <= n < |b| && b[since]
    requires forall k | since <= k < n :: b[k] ==> b[k + 1]
    ensures b[n]
  {
    if since < n { StaysTrue(b, since, n - 1); }
  }

  lemma SubsetIsNoLarger<T>(a: set<T>, b: set<T>)
    ensures a <= b ==> |a| <= |b|
  {
    if a <= b {
      assert b == a + (b - a);
    }
  }

  /** A number above all of a finite set. */
  lemma {:induction false} Above(used: set<nat>) returns (n: nat)
    ensures forall k | k in used :: k < n
    decreases used
  {
    if used == {} {
      n := 0;
    } else {
      assert (forall k :: k !in used) ==> used == {};
      var k :| k in used;
      var below := Above(used - {k});
      n := below + k + 1;
      forall x | x in used ensures x < n {
        if x != k { assert x in used - {k}; }
      }
    }
  }
}
