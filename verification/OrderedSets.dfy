/** The first key of an ordered container. */
module OrderedSets {
  lemma Least(keys: set<nat>) returns (m: nat)
    requires keys != {}
    ensures m in keys && forall j :: j in keys ==> m <= j
  {
    m :| m in keys;
    if keys == {m} {
    } else {
      assert keys - {m} != {};
      var least := Least(keys - {m});
      assert forall j :: j in keys ==> j == m || j in keys - {m};
      m := if m <= least then m else least;
    }
  }

  lemma LeastExists(keys: set<nat>)
    requires keys != {}
    ensures exists m :: m in keys && forall j :: j in keys ==> m <= j
  {
    var m := Least(keys);
  }

  /** `*begin()` */
  function Min(keys: set<nat>): (m: nat)
    requires keys != {}
    ensures m in keys && forall j :: j in keys ==> m <= j
  {
    LeastExists(keys);
    var m :| m in keys && forall j :: j in keys ==> m <= j;
    m
  }
}
