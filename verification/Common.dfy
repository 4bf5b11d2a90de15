/** Small things every module needs: optional values, and finite sets as lists. */
module Common {

  datatype Option<+T> = None | Some(value: T)

  lemma {:induction false} SubsetSize<T>(a: set<T>, b: set<T>)
    requires a <= b
    ensures |a| <= |b|
    decreases |a|
  {
    if a == {} {
    } else {
      var x :| x in a;
      SubsetSize(a - {x}, b - {x});
    }
  }

  /** The elements of a set in some order. */
  method ListOf(s: set<string>) returns (list: seq<string>)
    ensures forall x :: x in list <==> x in s
  {
    list := [];
    var todo := s;
    while todo != {}
      invariant todo <= s
      invariant forall x :: x in list <==> x in s && x !in todo
    {
      var x :| x in todo;
      todo := todo - {x};
      list := list + [x];
    }
  }
}
