/** Which tag reaches the cached lists of which other tag, for names that may hold colons. */
module TagKeys {
  import opened Text
  import opened Numerals
  import opened CacheKeys

  const LIMIT := "limit"
  const LAST := "last"
  const SORT := "sort"

  // Texts cut at colons.

  lemma PrefixesNest(p: string, q: string, whole: string)
    requires p <= whole && q <= whole && |p| <= |q|
    ensures p <= q
  {
    assert p == whole[..|p|] == q[..|p|];
  }

  lemma NoColonAhead(s: string, text: string)
    requires ':' !in text
    ensures !HasPrefix(text, s + ":")
  {
    assert (s + ":")[|s|] == ':';
  }

  /** Cutting the first field off both sides. */
  lemma ColonCut(a: string, rest: string, s: string)
    requires ':' !in a && HasPrefix(a + ":" + rest, s + ":")
    ensures s == a || (a + ":" <= s && HasPrefix(rest, s[|a| + 1..] + ":"))
  {
    var whole := a + ":" + rest;
    assert a + ":" <= whole && whole[|a|] == ':' && whole[|s|] == (s + ":")[|s|] == ':';
    assert forall k :: 0 <= k < |a| ==> whole[k] == a[k] && a[k] != ':';
    if |s| > |a| {
      PrefixesNest(a + ":", s + ":", whole);
      assert a + ":" <= s;
      HeadCancels(a + ":", s[|a| + 1..] + ":", rest);
      assert s + ":" == (a + ":") + (s[|a| + 1..] + ":");
    } else {
      PrefixesNest(s + ":", a + ":", whole);
    }
  }

  lemma TwoFields(a: string, b: string, c: string, s: string)
    requires ':' !in a && ':' !in b && ':' !in c && HasPrefix(a + ":" + (b + ":" + c), s + ":")
    ensures s == a || s == a + ":" + b
  {
    ColonCut(a, b + ":" + c, s);
    if s != a {
      var t := s[|a| + 1..];
      ColonCut(b, c, t);
      if t != b { NoColonAhead(t[|b| + 1..], c); }
      assert s == (a + ":") + t;
    }
  }

  /** Between colon-free names only equal ones match. */
  lemma PlainNames(tag: string, other: string, rest: string)
    requires ':' !in tag && ':' !in other
    ensures HasPrefix(other + ":" + rest, tag + ":") <==> tag == other
  {
    if HasPrefix(other + ":" + rest, tag + ":") {
      ColonCut(other, rest, tag);
      NoColonAhead(other, tag);
    }
  }

  lemma {:induction false} CollidesByName(tag: string, r: Read)
    requires r.TagPostListRead? || r.RankedTagPostListRead?
    ensures r.tag == tag ==> Collides(tag, r)
    ensures ':' !in tag && ':' !in r.tag ==> (Collides(tag, r) <==> r.tag == tag)
  {
    if ':' !in tag && ':' !in r.tag { PlainNames(tag, r.tag, AfterTag(r)); }
  }

  // The same said of two names, over all keys of the second.

  /** A text that printing some 64-bit integer gives. */
  predicate IsPrinted(s: string) { ParseInt64(s).Some? && PrintInt(ParseInt64(s).value) == s }

  /** A printed limit, alone or with the word that follows it. */
  predicate NumberTail(s: string) {
    IsPrinted(s) || (|s| >= 5 && s[|s| - 5..] == ":" + LAST && IsPrinted(s[..|s| - 5]))
  }

  /** The beginnings, cut before a colon, of what a list by date prints after its tag. */
  predicate DateTail(s: string) { s == LIMIT || (LIMIT + ":" <= s && NumberTail(s[|LIMIT| + 1..])) }

  /** The same for a ranked list, whose sort is free text here. */
  predicate RankedTail(s: string) { s == SORT || SORT + ":" <= s }

  /** One name reaches the lists of another: the other is it or extends it by a colon, or it extends the other by a
      colon and the beginning of what a key prints there. */
  predicate Reaches(tag: string, other: string) {
    || tag + ":" <= other + ":"
    || (other + ":" <= tag && (DateTail(tag[|other| + 1..]) || RankedTail(tag[|other| + 1..])))
  }

  /** A list of a tag as readers ask for it: numbers are 64 bits wide. */
  predicate IsTagRead(r: Read, tag: string) {
    match r
    case TagPostListRead(t, limit, last) => t == tag && IsInt64(limit) && IsInt64(last)
    case RankedTagPostListRead(t, _, _, limit, _) => t == tag && IsInt64(limit)
    case _ => false
  }

  /** What a date list prints after its tag, field by field. */
  lemma {:induction false} LimitLastFields(limit: int, last: int)
    ensures LimitLast(limit, last) == LIMIT + ":" + (PrintInt(limit) + ":" + (LAST + ":" + PrintInt(last)))
  {
  }

  lemma {:induction false} SortFields(sort: string, window: string, rest: string)
    ensures SortWindow(sort, window) + rest == SORT + ":" + (sort + ":" + ("window:" + window + ":" + rest))
  {
  }

  lemma {:induction false} NumberTailIs(number: string, last: string, s: string)
    requires IsPrinted(number) && ':' !in number && ':' !in last
    requires HasPrefix(number + ":" + (LAST + ":" + last), s + ":")
    ensures NumberTail(s)
  {
    TwoFields(number, LAST, last, s);
    if s != number { assert s[..|s| - 5] == number && s[|s| - 5..] == ":" + LAST; }
  }

  lemma {:induction false} DateTailIs(limit: int, last: int, s: string)
    requires IsInt64(limit) && HasPrefix(LimitLast(limit, last), s + ":")
    ensures DateTail(s)
  {
    var number := PrintInt(limit);
    PrintIntShape(limit);
    PrintIntShape(last);
    ParsePrintInt64(limit);
    LimitLastFields(limit, last);
    ColonCut(LIMIT, number + ":" + (LAST + ":" + PrintInt(last)), s);
    if s != LIMIT { NumberTailIs(number, PrintInt(last), s[|LIMIT| + 1..]); }
  }

  lemma RankedTailIs(sort: string, window: string, rest: string, s: string)
    requires HasPrefix(SortWindow(sort, window) + rest, s + ":")
    ensures RankedTail(s)
  {
    SortFields(sort, window, rest);
    ColonCut(SORT, sort + ":" + ("window:" + window + ":" + rest), s);
  }

  /** `a:b` and `a:b:c` begin `a:b:c:d`. */
  lemma FieldsBegin(a: string, b: string, c: string, d: string)
    ensures HasPrefix(a + ":" + (b + ":" + (c + ":" + d)), a + ":")
    ensures HasPrefix(a + ":" + (b + ":" + (c + ":" + d)), (a + ":" + b) + ":")
    ensures HasPrefix(a + ":" + (b + ":" + (c + ":" + d)), (a + ":" + (b + ":" + c)) + ":")
  {
    var whole := a + ":" + (b + ":" + (c + ":" + d));
    assert whole == ((a + ":" + b) + ":") + (c + ":" + d);
    assert whole == ((a + ":" + (b + ":" + c)) + ":") + d;
  }

  lemma {:induction false} ParsedIsInt64(s: string)
    requires ParseInt64(s).Some?
    ensures IsInt64(ParseInt64(s).value)
  {
  }

  /** What begins a date list's text after its tag: the word, the word and the number, and the number's follower. */
  lemma {:induction false} DateBegins(limit: int)
    ensures HasPrefix(LimitLast(limit, 0), LIMIT + ":")
    ensures HasPrefix(LimitLast(limit, 0), (LIMIT + ":" + PrintInt(limit)) + ":")
    ensures HasPrefix(LimitLast(limit, 0), (LIMIT + ":" + (PrintInt(limit) + ":" + LAST)) + ":")
  {
    LimitLastFields(limit, 0);
    FieldsBegin(LIMIT, PrintInt(limit), LAST, PrintInt(0));
  }

  lemma {:induction false} NumberTailWitness(t: string) returns (limit: int)
    requires NumberTail(t)
    ensures IsInt64(limit) && (t == PrintInt(limit) || t == PrintInt(limit) + ":" + LAST)
  {
    var number := if IsPrinted(t) then t else t[..|t| - 5];
    ParsedIsInt64(number);
    limit := ParseInt64(number).value;
    if !IsPrinted(t) { assert t == number + (":" + LAST); }
  }

  lemma {:induction false} DateTailWitness(s: string) returns (limit: int)
    requires DateTail(s)
    ensures IsInt64(limit) && HasPrefix(LimitLast(limit, 0), s + ":")
  {
    limit := 0;
    if s != LIMIT {
      limit := NumberTailWitness(s[|LIMIT| + 1..]);
      assert s == LIMIT + ":" + s[|LIMIT| + 1..];
    }
    DateBegins(limit);
  }

  lemma RankedTailWitness(s: string, rest: string) returns (sort: string)
    requires RankedTail(s)
    ensures HasPrefix(SortWindow(sort, "") + rest, s + ":")
  {
    sort := if s == SORT then "" else s[|SORT| + 1..];
    SortFields(sort, "", rest);
    FieldsBegin(SORT, sort, "window", "" + ":" + rest);
    assert "window:" + "" + ":" + rest == "window" + ":" + ("" + ":" + rest);
    if s != SORT { assert s == SORT + ":" + sort; }
  }

  /** A longer name collides through what stands behind the shorter. */
  lemma LongerCollides(tag: string, other: string, rest: string)
    requires |tag| > |other|
    ensures HasPrefix(other + ":" + rest, tag + ":") <==> other + ":" <= tag && HasPrefix(rest, tag[|other| + 1..] + ":")
  {
    if HasPrefix(other + ":" + rest, tag + ":") { PrefixesNest(other + ":", tag + ":", other + ":" + rest); }
    if other + ":" <= tag {
      assert tag + ":" == (other + ":") + (tag[|other| + 1..] + ":");
      HeadCancels(other + ":", tag[|other| + 1..] + ":", rest);
    }
  }

  lemma ShorterCollides(tag: string, other: string, rest: string)
    requires |tag| <= |other|
    ensures HasPrefix(other + ":" + rest, tag + ":") <==> tag + ":" <= other + ":"
  {
    if HasPrefix(other + ":" + rest, tag + ":") { PrefixesNest(tag + ":", other + ":", other + ":" + rest); }
  }

  lemma {:induction false} CollisionReaches(tag: string, r: Read)
    requires (r.TagPostListRead? || r.RankedTagPostListRead?) && IsTagRead(r, r.tag) && Collides(tag, r)
    ensures Reaches(tag, r.tag)
  {
    if |tag| <= |r.tag| { ShorterCollides(tag, r.tag, AfterTag(r)); }
    else {
      LongerCollides(tag, r.tag, AfterTag(r));
      match r
      case TagPostListRead(t, limit, last) => DateTailIs(limit, last, tag[|t| + 1..]);
      case RankedTagPostListRead(t, sort, window, limit, cursor) => RankedTailIs(sort, window, LimitCursor(limit, cursor), tag[|t| + 1..]);
    }
  }

  lemma {:induction false} ReachingCollides(tag: string, other: string) returns (r: Read)
    requires Reaches(tag, other)
    ensures (r.TagPostListRead? || r.RankedTagPostListRead?) && IsTagRead(r, other) && Collides(tag, r)
  {
    if tag + ":" <= other + ":" {
      r := TagPostListRead(other, 0, 0);
      ShorterCollides(tag, other, AfterTag(r));
    } else if DateTail(tag[|other| + 1..]) {
      var limit := DateTailWitness(tag[|other| + 1..]);
      r := TagPostListRead(other, limit, 0);
      LongerCollides(tag, other, AfterTag(r));
    } else {
      var sort := RankedTailWitness(tag[|other| + 1..], LimitCursor(0, ""));
      r := RankedTagPostListRead(other, sort, "", 0, "");
      LongerCollides(tag, other, AfterTag(r));
    }
  }

  /** For all limits, ids, sorts, windows and cursors, no list of `other` is under a prefix of `tag`: exactly when `tag` does not reach `other`. */
  lemma {:induction false} SparedIff(tag: string, other: string)
    ensures (forall r: Read :: (r.TagPostListRead? || r.RankedTagPostListRead?) && IsTagRead(r, other) ==> !Collides(tag, r)) <==> !Reaches(tag, other)
  {
    if Reaches(tag, other) {
      var r := ReachingCollides(tag, other);
      assert IsTagRead(r, other) && Collides(tag, r);
    } else {
      forall r: Read | (r.TagPostListRead? || r.RankedTagPostListRead?) && IsTagRead(r, other) ensures !Collides(tag, r) {
        if Collides(tag, r) { CollisionReaches(tag, r); }
      }
    }
  }
}
