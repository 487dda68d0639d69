/** The least element of a set of integers. */
module LeastOfSet {

  ghost predicate IsLeast(k: int, keys: set<int>) {
    k in keys && forall j :: j in keys ==> k <= j
  }

  lemma Pick<T>(s: set<T>) returns (x: T)
    requires s != {}
    ensures x in s
  {
    x :| x in s;
  }

  lemma {:induction false} HasLeast(keys: set<int>) returns (k: int)
    requires keys != {}
    ensures IsLeast(k, keys)
    decreases |keys|
  {
    var j := Pick(keys);
    if keys == {j} {
      k := j;
    } else {
      assert keys - {j} != {};
      var l := HasLeast(keys - {j});
      k := if j <= l then j else l;
      assert forall i :: i in keys ==> i == j || i in keys - {j};
    }
  }

  lemma SomeLeast(keys: set<int>)
    requires keys != {}
    ensures exists k :: IsLeast(k, keys)
  {
    var k := HasLeast(keys);
  }

  ghost function Least(keys: set<int>): (k: int)
    requires keys != {}
    ensures IsLeast(k, keys)
  {
    SomeLeast(keys);
    var k :| IsLeast(k, keys);
    k
  }
}
