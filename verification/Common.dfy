/** What several parts share. */
module Common {

  datatype Option<+T> = None | Some(value: T)

  /** An output of a transaction. */
  datatype OutPoint = OutPoint(hash: nat, n: nat)

  predicate AreBytes(s: seq<nat>) {
    forall i :: 0 <= i < |s| ==> s[i] < 256
  }

  /** Any hash to 32 bytes. */
  ghost predicate IsHash(h: seq<nat> -> seq<nat>) {
    forall x: seq<nat> :: |h(x)| == 32 && AreBytes(h(x))
  }

  lemma SubsetSize<T>(a: set<T>, b: set<T>)
    requires a <= b
    ensures |a| <= |b|
  {
    assert b == a + (b - a);
  }
}
