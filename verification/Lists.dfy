/** What the insertion sorts of several modules share. */
module Lists {
  lemma {:induction false} InsertedCounts<T>(s: seq<T>, p: nat, x: T)
    requires p <= |s|
    ensures multiset(s[..p] + [x] + s[p..]) == multiset(s) + multiset{x}
  {
    assert s == s[..p] + s[p..];
  }
}
