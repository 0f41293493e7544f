/**
 Pages cut from a filtered, strictly descending list, and the walk that follows them.
 A page is asked for "after a key"; the list behind it is not filtered, the page is.
 */
module FilteredWalk {
  import opened Text

  function Filter<T>(s: seq<T>, keep: T -> bool): seq<T> {
    if s == [] then []
    else
      var last := s[|s| - 1];
      Filter(s[..|s| - 1], keep) + if keep(last) then [last] else []
  }

  function Take<T>(s: seq<T>, n: nat): seq<T> { if |s| <= n then s else s[..n] }

  /** Fetching one more than a page tells whether more remain; cutting it off leaves the page. */
  lemma CutOverfetch<T>(kept: seq<T>, limit: nat, rows: seq<T>)
    requires rows == Take(kept, limit + 1)
    ensures |rows| > limit <==> |kept| > limit
    ensures (if |rows| > limit then rows[..limit] else rows) == Take(kept, limit)
    ensures |rows| > limit >= 1 ==> rows[limit - 1] == Take(kept, limit)[limit - 1]
  {
    if |rows| > limit { assert rows[..limit] == kept[..limit]; }
  }

  /** Ranking keys compare lexicographically; ids break the last tie. */
  datatype Key = Key(score: int, time: int, id: int)

  predicate Below(x: Key, y: Key) {
    x.score < y.score || (x.score == y.score && (x.time < y.time || (x.time == y.time && x.id < y.id)))
  }

  ghost predicate Descending<T>(rows: seq<T>, key: T -> Key) {
    forall i, j :: 0 <= i < j < |rows| ==> Below(key(rows[j]), key(rows[i]))
  }

  function BelowKey<T>(key: T -> Key, k: Key): T -> bool { (r: T) => Below(key(r), k) }

  /** What a repository holds strictly after a cursor. */
  function After<T>(rows: seq<T>, key: T -> Key, from: Option<Key>): seq<T> {
    match from
    case None => rows
    case Some(k) => Filter(rows, BelowKey(key, k))
  }

  datatype Page<T> = Page(items: seq<T>, hasMore: bool)

  function PageOf<T>(rest: seq<T>, keep: T -> bool, limit: nat): Page<T> {
    var kept := Filter(rest, keep);
    Page(Take(kept, limit), |kept| > limit)
  }

  lemma {:induction false} FilterConcat<T>(s: seq<T>, t: seq<T>, keep: T -> bool)
    ensures Filter(s + t, keep) == Filter(s, keep) + Filter(t, keep)
  {
    if t == [] {
      assert s + t == s;
    } else {
      FilterConcat(s, t[..|t| - 1], keep);
      assert (s + t)[..|s + t| - 1] == s + t[..|t| - 1];
    }
  }

  lemma FilterStep<T>(s: seq<T>, n: nat, keep: T -> bool)
    requires n < |s|
    ensures Filter(s[..n + 1], keep) == Filter(s[..n], keep) + if keep(s[n]) then [s[n]] else []
  {
    assert s[..n + 1][..n] == s[..n];
  }

  lemma FilterCut<T>(s: seq<T>, n: nat, keep: T -> bool)
    requires n <= |s|
    ensures Filter(s, keep) == Filter(s[..n], keep) + Filter(s[n..], keep)
  {
    assert s == s[..n] + s[n..];
    FilterConcat(s[..n], s[n..], keep);
  }

  lemma {:induction false} FilterAll<T>(s: seq<T>, keep: T -> bool)
    requires forall i :: 0 <= i < |s| ==> keep(s[i])
    ensures Filter(s, keep) == s
  {
    if s != [] {
      FilterAll(s[..|s| - 1], keep);
      assert s == s[..|s| - 1] + [s[|s| - 1]];
    }
  }

  lemma {:induction false} FilterNone<T>(s: seq<T>, keep: T -> bool)
    requires forall i :: 0 <= i < |s| ==> !keep(s[i])
    ensures Filter(s, keep) == []
  {
    if s != [] { FilterNone(s[..|s| - 1], keep); }
  }

  lemma {:induction false} FilterMembers<T>(s: seq<T>, keep: T -> bool)
    ensures forall x :: x in Filter(s, keep) ==> x in s && keep(x)
    ensures forall x :: x in s && keep(x) ==> x in Filter(s, keep)
  {
    if s != [] {
      FilterMembers(s[..|s| - 1], keep);
      assert s == s[..|s| - 1] + [s[|s| - 1]];
    }
  }

  /** Filters that agree on the rows keep the same. */
  lemma {:induction false} FilterAgrees<T>(rows: seq<T>, keep: T -> bool, same: T -> bool)
    requires forall r :: r in rows ==> keep(r) == same(r)
    ensures Filter(rows, keep) == Filter(rows, same)
  {
    if rows != [] {
      assert rows[|rows| - 1] in rows;
      FilterAgrees(rows[..|rows| - 1], keep, same);
    }
  }

  /** The k-th kept row sits at some index of the list, and the kept rows up to there are the first k. */
  lemma {:induction false} FilterIndex<T>(s: seq<T>, keep: T -> bool, k: nat) returns (n: nat)
    requires 1 <= k <= |Filter(s, keep)|
    ensures 1 <= n <= |s| && Filter(s[..n], keep) == Filter(s, keep)[..k] && s[n - 1] == Filter(s, keep)[k - 1]
  {
    var init := s[..|s| - 1];
    if k <= |Filter(init, keep)| {
      n := FilterIndex(init, keep, k);
      assert init[..n] == s[..n];
    } else {
      n := |s|;
      assert s[..n] == s;
    }
  }

  /** In a descending list, what lies after a key is a suffix. */
  lemma {:induction false} AfterIsSuffix<T>(rows: seq<T>, key: T -> Key, from: Option<Key>) returns (m: nat)
    requires Descending(rows, key)
    ensures m <= |rows| && After(rows, key, from) == rows[m..]
    ensures from.Some? ==> forall i :: 0 <= i < |rows| ==> (Below(key(rows[i]), from.value) <==> m <= i)
  {
    m := 0;
    if from.Some? {
      while m < |rows| && !Below(key(rows[m]), from.value)
        invariant m <= |rows|
        invariant forall i :: 0 <= i < m ==> !Below(key(rows[i]), from.value)
      {
        m := m + 1;
      }
      LaterAreBelow(rows, key, from.value, m);
      CutIsSuffix(rows, BelowKey(key, from.value), m);
    }
  }

  lemma LaterAreBelow<T>(rows: seq<T>, key: T -> Key, from: Key, m: nat)
    requires Descending(rows, key) && m <= |rows| && (m < |rows| ==> Below(key(rows[m]), from))
    ensures forall i :: m <= i < |rows| ==> Below(key(rows[i]), from)
  {
    forall i | m <= i < |rows| ensures Below(key(rows[i]), from) {
      if i > m { assert Below(key(rows[i]), key(rows[m])); }
    }
  }

  lemma CutIsSuffix<T>(rows: seq<T>, keep: T -> bool, m: nat)
    requires m <= |rows|
    requires (forall i :: 0 <= i < m ==> !keep(rows[i])) && (forall i :: m <= i < |rows| ==> keep(rows[i]))
    ensures Filter(rows, keep) == rows[m..]
  {
    FilterCut(rows, m, keep);
    FilterNone(rows[..m], keep);
    FilterAll(rows[m..], keep);
  }

  /** Asking after the n-th row of an answer gives the rest of that answer. */
  lemma AfterNth<T>(rows: seq<T>, key: T -> Key, from: Option<Key>, n: nat)
    requires Descending(rows, key)
    requires 1 <= n <= |After(rows, key, from)|
    ensures After(rows, key, Some(key(After(rows, key, from)[n - 1]))) == After(rows, key, from)[n..]
  {
    var m := AfterIsSuffix(rows, key, from);
    var k := key(rows[m + n - 1]);
    var m' := AfterIsSuffix(rows, key, Some(k));
    assert m' == m + n by {
      assert !Below(k, k);
      if m + n < |rows| { assert Below(key(rows[m + n]), k); }
    }
    assert rows[m..][n..] == rows[m + n..];
  }

  /** The rows left after the last item of a full page: strictly fewer, and holding exactly the kept rows not yet shown. */
  lemma NextPage<T>(rows: seq<T>, key: T -> Key, keep: T -> bool, limit: nat, from: Option<Key>)
    requires Descending(rows, key) && limit >= 1
    requires PageOf(After(rows, key, from), keep, limit).hasMore
    ensures
      var rest := After(rows, key, from);
      var next := After(rows, key, Some(key(PageOf(rest, keep, limit).items[limit - 1])));
      |next| < |rest| && Filter(next, keep) == Filter(rest, keep)[limit..]
  {
    var rest := After(rows, key, from);
    var n := FilterIndex(rest, keep, limit);
    AfterNth(rows, key, from, n);
    FilterCut(rest, n, keep);
  }

  /** Every page met by following each page's last item. */
  ghost function Walk<T>(rows: seq<T>, key: T -> Key, keep: T -> bool, limit: nat, from: Option<Key>): seq<Page<T>>
    requires Descending(rows, key) && limit >= 1
    decreases |After(rows, key, from)|
  {
    var page := PageOf(After(rows, key, from), keep, limit);
    if page.hasMore then
      NextPage(rows, key, keep, limit, from);
      [page] + Walk(rows, key, keep, limit, Some(key(page.items[limit - 1])))
    else [page]
  }

  lemma WalkStep<T>(rows: seq<T>, key: T -> Key, keep: T -> bool, limit: nat, from: Option<Key>)
    requires Descending(rows, key) && limit >= 1
    ensures
      var page := PageOf(After(rows, key, from), keep, limit);
      Walk(rows, key, keep, limit, from) ==
        if page.hasMore then [page] + Walk(rows, key, keep, limit, Some(key(page.items[limit - 1]))) else [page]
  {
  }

  /** Number of pages that show `total` items: one page even when there are none. */
  function PageCount(total: nat, limit: nat): nat
    requires limit >= 1
  {
    if total <= limit then 1 else 1 + PageCount(total - limit, limit)
  }

  lemma {:induction false} PageCountIsCeiling(total: nat, limit: nat)
    requires limit >= 1
    ensures PageCount(total, limit) == if total == 0 then 1 else (total + limit - 1) / limit
  {
    if total > limit {
      PageCountIsCeiling(total - limit, limit);
      assert (total - limit + limit - 1) / limit + 1 == (total + limit - 1) / limit by {
        DivideStep(total - 1, limit);
      }
    } else if total > 0 {
      DivideSmall(total - 1, limit);
    }
  }

  /** A quotient is the only number of whole divisors that leaves a proper remainder. */
  lemma QuotientIs(x: nat, d: nat, q: nat)
    requires d >= 1 && q * d <= x < q * d + d
    ensures x / d == q
  {
    var p := x / d;
    assert x == p * d + x % d;
    MulLess(p, q, d);
    MulLess(q, p, d);
  }

  lemma MulLess(p: nat, q: nat, d: nat)
    ensures p < q ==> p * d + d <= q * d
  {
    if p < q {
      var k: nat := q - p - 1;
      assert q * d == (p + 1 + k) * d == p * d + d + k * d;
    }
  }

  lemma DivideStep(x: nat, d: nat)
    requires d >= 1
    ensures (x + d) / d == x / d + 1
  {
    assert x == x / d * d + x % d;
    assert (x / d + 1) * d == x / d * d + d;
    QuotientIs(x + d, d, x / d + 1);
  }

  lemma DivideSmall(x: nat, d: nat)
    requires x < d
    ensures (x + d) / d == 1
  {
    QuotientIs(x + d, d, 1);
  }

  function SliceAt<T>(kept: seq<T>, at: nat, limit: nat): seq<T> { if at >= |kept| then [] else Take(kept[at..], limit) }

  /** Page i of a filtered list, counted from zero, by plain slicing. */
  function Slice<T>(kept: seq<T>, limit: nat, i: nat): seq<T> { SliceAt(kept, i * limit, limit) }

  function Flatten<T>(pages: seq<Page<T>>): seq<T> {
    if pages == [] then [] else pages[0].items + Flatten(pages[1..])
  }

  /** The walk shows the filtered list, in order, each row once. */
  lemma {:induction false} WalkShowsAll<T>(rows: seq<T>, key: T -> Key, keep: T -> bool, limit: nat, from: Option<Key>)
    requires Descending(rows, key) && limit >= 1
    ensures Flatten(Walk(rows, key, keep, limit, from)) == Filter(After(rows, key, from), keep)
    decreases |After(rows, key, from)|
  {
    var rest := After(rows, key, from);
    var page := PageOf(rest, keep, limit);
    var pages := Walk(rows, key, keep, limit, from);
    if page.hasMore {
      NextPage(rows, key, keep, limit, from);
      var next := Some(key(page.items[limit - 1]));
      WalkShowsAll(rows, key, keep, limit, next);
      assert pages[1..] == Walk(rows, key, keep, limit, next);
      var kept := Filter(rest, keep);
      assert kept == kept[..limit] + kept[limit..];
    } else {
      assert Flatten(pages) == page.items + Flatten(pages[1..]);
    }
  }

  lemma SliceShift<T>(kept: seq<T>, limit: nat, i: nat)
    requires limit >= 1 && |kept| > limit
    ensures Slice(kept[limit..], limit, i) == Slice(kept, limit, i + 1)
  {
    var at := i * limit;
    assert (i + 1) * limit == at + limit;
    if at < |kept| - limit { assert kept[limit..][at..] == kept[at + limit..]; }
  }

  /** Page i of the walk is slice i of the filtered list, and exactly the last page says there is no more. */
  lemma {:induction false} WalkIsSlicing<T>(rows: seq<T>, key: T -> Key, keep: T -> bool, limit: nat, from: Option<Key>)
    requires Descending(rows, key) && limit >= 1
    ensures
      var kept := Filter(After(rows, key, from), keep);
      var pages := Walk(rows, key, keep, limit, from);
      && |pages| == PageCount(|kept|, limit)
      && forall i :: 0 <= i < |pages| ==> pages[i] == Page(Slice(kept, limit, i), i < |pages| - 1)
    decreases |After(rows, key, from)|
  {
    var rest := After(rows, key, from);
    var kept := Filter(rest, keep);
    var page := PageOf(rest, keep, limit);
    var pages := Walk(rows, key, keep, limit, from);
    assert page.items == Slice(kept, limit, 0) by {
      if |kept| > 0 { assert kept[0..] == kept; }
    }
    if page.hasMore {
      NextPage(rows, key, keep, limit, from);
      var next := Some(key(page.items[limit - 1]));
      WalkIsSlicing(rows, key, keep, limit, next);
      var tail := Walk(rows, key, keep, limit, next);
      forall i | 0 <= i < |pages| ensures pages[i] == Page(Slice(kept, limit, i), i < |pages| - 1) {
        if i > 0 {
          assert pages[i] == tail[i - 1];
          SliceShift(kept, limit, i - 1);
        }
      }
    }
  }
}
