/** What several models need of sequences and sets. */
module Collections {

  predicate Distinct<T(==)>(s: seq<T>) {
    forall i, j | 0 <= i < j < |s| :: s[i] != s[j]
  }

  function RemoveAt<T>(s: seq<T>, i: nat): seq<T>
    requires i < |s|
  {
    s[..i] + s[i + 1..]
  }

  /** A loop that counts what is in `these` and not in `those`. */
  method CountOutside(these: set<string>, those: set<string>) returns (n: nat)
    ensures n == |these - those|
  {
    n := 0;
    var todo := these;
    ghost var found: set<string> := {};
    while todo != {}
      invariant todo <= these && found == (these - todo) - those && n == |found|
      decreases |todo|
    {
      var id :| id in todo;
      todo := todo - {id};
      if id !in those {
        found := found + {id};
        n := n + 1;
      }
    }
    assert found == these - those;
  }

  lemma SubsetIsSmaller<T>(a: set<T>, b: set<T>)
    requires a <= b
    ensures |a| <= |b|
    decreases a
  {
    if a != {} {
      var x :| x in a;
      SubsetIsSmaller(a - {x}, b - {x});
    }
  }
}
