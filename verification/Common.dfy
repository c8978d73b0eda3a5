/** Types shared by every part of the model. */
module Common {
  datatype Option<+T> = None | Some(value: T)

  /** A set is as large as another when one list of pairs matches their members up. */
  lemma {:induction false} SameSize<A, B>(s: set<A>, t: set<B>, pairs: set<(A, B)>)
    requires forall p <- pairs :: p.0 in s && p.1 in t
    requires forall a <- s :: exists b :: (a, b) in pairs
    requires forall b <- t :: exists a :: (a, b) in pairs
    requires forall p <- pairs, q <- pairs :: p.0 == q.0 <==> p.1 == q.1
    ensures |s| == |t|
    decreases s
  {
    if a :| a in s {
      var b :| (a, b) in pairs;
      var rest := set p <- pairs | p.0 != a;
      forall x | x in s - {a}
        ensures exists y :: (x, y) in rest
      {
        var y :| (x, y) in pairs;
        assert (x, y) in rest;
      }
      forall y | y in t - {b}
        ensures exists x :: (x, y) in rest
      {
        var x :| (x, y) in pairs;
        assert x == a ==> (x, y).1 == (a, b).1;
        assert (x, y) in rest;
      }
      SameSize(s - {a}, t - {b}, rest);
    } else {
      assert t == {};
    }
  }
}
