/** Identifiers as the data-access layer sees them. */
module Ids {
  import opened Wrappers

  /** Python truthiness of an `int | None` id: `None` and `0` are both falsy. */
  predicate Truthy(id: Option<int>) {
    id.Some? && id.value != 0
  }

  /** Some member of a non-empty set. */
  lemma Pick(ids: set<int>) returns (x: int)
    requires ids != {}
    ensures x in ids
  {
    // Supplies the witness that a non-empty set has a member, which the
    // such-that below does not find on its own.
    if forall y :: y !in ids {
      assert false;
    }
    x :| x in ids;
  }

  /** Every non-empty finite set of ids has a largest element. */
  lemma {:induction false} HasMax(ids: set<int>)
    requires ids != {}
    ensures exists m :: m in ids && forall k :: k in ids ==> k <= m
    decreases |ids|
  {
    var x := Pick(ids);
    var rest := ids - {x};
    if rest == {} {
      assert forall k :: k in ids ==> k in rest || k == x;
    } else {
      HasMax(rest);
      var m :| m in rest && forall k :: k in rest ==> k <= m;
      var top := if m < x then x else m;
      forall k | k in ids ensures k <= top {
        if k != x { assert k in rest; }
      }
      assert top in ids;
    }
  }

  /** The surrogate key the engine hands to a newly inserted row. Which key an
      engine picks is its own business; this model uses one more than the
      largest key in use (at least 1), which is what an integer primary key
      without AUTOINCREMENT gets in SQLite. */
  function NextId(ids: set<int>): (id: int)
    ensures id >= 1 && id !in ids
    ensures forall k :: k in ids ==> k < id
  {
    if ids == {} then 1
    else
      HasMax(ids);
      var m :| m in ids && forall k :: k in ids ==> k <= m;
      if m < 1 then 1 else m + 1
  }
}
