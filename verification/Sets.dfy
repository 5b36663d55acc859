/** Elements of finite sets. */
module Sets {

  ghost function Pick<T>(s: set<T>): (x: T)
    requires s != {}
    ensures x in s
  {
    assert (forall x :: x !in s) ==> s == {};
    var x :| x in s;
    x
  }
}
