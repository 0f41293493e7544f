/** Ranging over a hash set: every member once, in an order nobody promises. */
module Lists {

  predicate NoDuplicates<T(==)>(s: seq<T>) { forall i, j :: 0 <= i < j < |s| ==> s[i] != s[j] }

  method ListOf<T(==)>(members: set<T>) returns (list: seq<T>)
    ensures forall x :: x in list <==> x in members
    ensures NoDuplicates(list)
  {
    list := [];
    var left := members;
    while left != {}
      invariant left <= members
      invariant forall x :: x in list <==> x in members && x !in left
      invariant NoDuplicates(list)
      decreases |left|
    {
      var x :| x in left;
      left := left - {x};
      list := list + [x];
    }
  }

  /** A list without duplicates is as long as the set of its members. */
  lemma {:induction false} SizeOfList<T>(s: seq<T>, members: set<T>)
    requires NoDuplicates(s) && forall x :: x in s <==> x in members
    ensures |s| == |members|
  {
    if s != [] {
      var last := s[|s| - 1];
      var init := s[..|s| - 1];
      assert s == init + [last];
      assert last !in init;
      SizeOfList(init, members - {last});
    } else {
      assert forall x :: x in members ==> x in s;
      assert members == {};
    }
  }
}
