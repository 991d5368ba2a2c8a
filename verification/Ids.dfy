/** Names for subscribers. */
module Ids {
  lemma FreshId(ids: set<nat>)
    ensures exists id: nat :: id !in ids
  {
    if ids != {} {
      var most := Most(ids);
      assert most + 1 !in ids;
    } else {
      assert 0 !in ids;
    }
  }

  lemma {:induction false} Most(ids: set<nat>) returns (m: nat)
    requires ids != {}
    ensures m in ids && forall id :: id in ids ==> id <= m
  {
    var id :| id in ids;
    if ids == {id} {
      return id;
    }
    var rest := Most(ids - {id});
    assert forall x :: x in ids ==> x == id || x in ids - {id};
    m := if id > rest then id else rest;
  }
}
