/** Tag names of posts: normalising what authors type, and making a post's active tags exactly that. */
module TagCoordinator {
  import opened Text
  import opened Lists
  import opened ForumStore

  const MAX_POST_TAGS := 10
  const MAX_TAG_LENGTH := 30

  /** Bytes of a text in UTF-8. */
  function Utf8Length(s: string): nat {
    if s == "" then 0
    else
      var c := s[0] as int;
      (if c < 0x80 then 1 else if c < 0x800 then 2 else if c < 0x10000 then 3 else 4) + Utf8Length(s[1..])
  }

  function NormalizeTagName(tag: string): string { ToLower(TrimSpace(tag)) }

  /** Two tags have one normal form exactly when they are equal but for case and white space around them; it is the form of itself. */
  lemma {:induction false} SameFormIff(a: string, b: string)
    ensures NormalizeTagName(a) == NormalizeTagName(b) <==> SameButCase(TrimSpace(a), TrimSpace(b))
    ensures NormalizeTagName(NormalizeTagName(a)) == NormalizeTagName(a)
  {
    LowerEqualIff(TrimSpace(a), TrimSpace(b));
    var left, right := TrimCuts(a);
    LowerKeeps(TrimSpace(a));
    TightStays(ToLower(TrimSpace(a)));
  }

  /** How many characters have this code point or a higher one. */
  function CountFrom(s: string, code: int): nat { if s == "" then 0 else (if s[0] as int >= code then 1 else 0) + CountFrom(s[1..], code) }

  /** One byte a character, and one more each for those beyond one, two and three bytes. */
  lemma {:induction false} Utf8LengthCounts(s: string)
    ensures Utf8Length(s) == |s| + CountFrom(s, 0x80) + CountFrom(s, 0x800) + CountFrom(s, 0x10000)
  {
    if s != "" { Utf8LengthCounts(s[1..]); }
  }

  predicate IsTagName(name: string) { name != "" && Utf8Length(name) <= MAX_TAG_LENGTH }

  /** Dictionary order by code point. */
  predicate Before(a: string, b: string) {
    b != "" && (a == "" || a[0] < b[0] || (a[0] == b[0] && Before(a[1..], b[1..])))
  }

  /** At the first difference the smaller character goes first; a text goes before its continuations. */
  lemma {:induction false} BeforeIff(a: string, b: string)
    ensures Before(a, b) <==> exists k :: 0 <= k <= |a| && k < |b| && a[..k] == b[..k] && (k == |a| || a[k] < b[k])
  {
    if b != "" && a != "" && a[0] == b[0] {
      BeforeIff(a[1..], b[1..]);
      FirstDifference(a, b);
    } else if b != "" && (a == "" || a[0] < b[0]) {
      assert a[..0] == b[..0];
    } else if b != "" {
      forall k | 0 <= k <= |a| && k < |b| && a[..k] == b[..k] ensures !(k == |a| || a[k] < b[k]) {
        if k > 0 { SameHead(a, b, k); }
      }
    }
  }

  lemma SameHead(a: string, b: string, k: nat)
    requires 0 < k <= |a| && k <= |b| && a[..k] == b[..k]
    ensures a[0] == b[0]
  {
    assert a[0] == a[..k][0] == b[..k][0];
  }

  lemma FirstDifference(a: string, b: string)
    requires a != "" && b != "" && a[0] == b[0]
    ensures (exists k :: 0 <= k <= |a| && k < |b| && a[..k] == b[..k] && (k == |a| || a[k] < b[k])) <==>
      exists k :: 0 <= k <= |a[1..]| && k < |b[1..]| && a[1..][..k] == b[1..][..k] && (k == |a[1..]| || a[1..][k] < b[1..][k])
  {
    if k :| 0 <= k <= |a| && k < |b| && a[..k] == b[..k] && (k == |a| || a[k] < b[k]) {
      assert k > 0;
      assert a[1..][..k - 1] == a[..k][1..] == b[..k][1..] == b[1..][..k - 1];
      assert k - 1 == |a[1..]| || a[1..][k - 1] < b[1..][k - 1];
    }
    if k :| 0 <= k <= |a[1..]| && k < |b[1..]| && a[1..][..k] == b[1..][..k] && (k == |a[1..]| || a[1..][k] < b[1..][k]) {
      assert a[..k + 1] == [a[0]] + a[1..][..k] == [b[0]] + b[1..][..k] == b[..k + 1];
      assert k + 1 == |a| || a[k + 1] < b[k + 1];
    }
  }

  predicate Ascending(names: seq<string>) { forall i, j :: 0 <= i < j < |names| ==> Before(names[i], names[j]) }

  lemma {:induction false} BeforeIsTotal(a: string, b: string)
    ensures Before(a, b) || Before(b, a) || a == b
  {
    if a != "" && b != "" && a[0] == b[0] {
      BeforeIsTotal(a[1..], b[1..]);
      assert a == [a[0]] + a[1..] && b == [b[0]] + b[1..];
    }
  }

  lemma {:induction false} BeforeIsTransitive(a: string, b: string, c: string)
    requires Before(a, b) && Before(b, c)
    ensures Before(a, c)
  {
    if a != "" && a[0] == b[0] == c[0] { BeforeIsTransitive(a[1..], b[1..], c[1..]); }
  }

  lemma {:induction false} InsertKeepsOrder(names: seq<string>, p: nat, name: string)
    requires Ascending(names) && p <= |names|
    requires p > 0 ==> Before(names[p - 1], name)
    requires p < |names| ==> Before(name, names[p])
    ensures Ascending(names[..p] + [name] + names[p..])
  {
    forall i | 0 <= i < p ensures Before(names[i], name) {
      if i < p - 1 { BeforeIsTransitive(names[i], names[p - 1], name); }
    }
    forall j | p <= j < |names| ensures Before(name, names[j]) {
      if j > p { BeforeIsTransitive(name, names[p], names[j]); }
    }
  }

  method SortStrings(list: seq<string>) returns (out: seq<string>)
    requires NoDuplicates(list)
    ensures Ascending(out) && forall x :: x in out <==> x in list
  {
    out := [];
    for i := 0 to |list|
      invariant Ascending(out) && forall x :: x in out <==> x in list[..i]
    {
      assert list[..i + 1] == list[..i] + [list[i]] && list[i] !in list[..i];
      out := Insert(out, list[i]);
    }
    assert list[..|list|] == list;
  }

  method Insert(names: seq<string>, name: string) returns (out: seq<string>)
    requires Ascending(names) && name !in names
    ensures Ascending(out) && forall x :: x in out <==> x in names || x == name
  {
    var p := 0;
    while p < |names| && Before(names[p], name)
      invariant p <= |names| && (p > 0 ==> Before(names[p - 1], name))
    {
      p := p + 1;
    }
    if p < |names| {
      assert names[p] in names;
      BeforeIsTotal(names[p], name);
    }
    InsertKeepsOrder(names, p, name);
    out := names[..p] + [name] + names[p..];
    assert names == names[..p] + names[p..];
  }

  predicate Normalizes(tags: seq<string>) {
    |tags| <= MAX_POST_TAGS && forall i :: 0 <= i < |tags| ==> IsTagName(NormalizeTagName(tags[i]))
  }

  predicate HasForm(tags: seq<string>, name: string) { exists i :: 0 <= i < |tags| && NormalizeTagName(tags[i]) == name }

  /** The distinct normal forms in dictionary order, unless a tag is blank or too long or there are too many. */
  method NormalizeTags(tags: seq<string>) returns (r: Result<seq<string>>)
    ensures r.Ok? <==> Normalizes(tags)
    ensures r.Ok? ==> Ascending(r.value) && forall n :: n in r.value <==> HasForm(tags, n)
    ensures r.Ok? ==> forall n :: n in r.value ==> IsTagName(n)
    ensures r.Err? ==> r.error == InvalidInput
    ensures r.Ok? <==> |tags| <= 10 && forall t :: t in tags ==> !IsBlank(t) && Utf8Length(NormalizeTagName(t)) <= 30
  {
    BlankForms(tags);
    hide NormalizeTagName, Utf8Length, IsBlank, Before;
    if |tags| > MAX_POST_TAGS { return Err(InvalidInput); }
    var seen: set<string> := {};
    var out: seq<string> := [];
    for i := 0 to |tags|
      invariant NoDuplicates(out) && forall n :: n in seen <==> n in out
      invariant forall n :: n in out <==> HasForm(tags[..i], n)
      invariant forall k :: 0 <= k < i ==> IsTagName(NormalizeTagName(tags[k]))
      invariant forall n :: n in out ==> IsTagName(n)
    {
      var normalized := NormalizeTagName(tags[i]);
      if normalized == "" || Utf8Length(normalized) > MAX_TAG_LENGTH { return Err(InvalidInput); }
      FormOfNext(tags, i);
      if normalized in seen { continue; }
      seen := seen + {normalized};
      out := out + [normalized];
    }
    assert tags[..|tags|] == tags;
    out := SortStrings(out);
    return Ok(out);
  }

  /** The forms of what was typed: trimmed and in lower case. */
  lemma FormsAre(tags: seq<string>, name: string)
    ensures HasForm(tags, name) <==> exists t :: t in tags && ToLower(TrimSpace(t)) == name
  {
    if HasForm(tags, name) {
      var i :| 0 <= i < |tags| && NormalizeTagName(tags[i]) == name;
      assert tags[i] in tags;
    }
  }

  lemma BlankForms(tags: seq<string>)
    ensures Normalizes(tags) <==> |tags| <= 10 && forall t :: t in tags ==> !IsBlank(t) && Utf8Length(NormalizeTagName(t)) <= 30
  {
    assert forall i :: 0 <= i < |tags| ==> tags[i] in tags;
    forall t ensures IsBlank(t) <==> NormalizeTagName(t) == "" { assert |NormalizeTagName(t)| == |TrimSpace(t)|; }
  }

  lemma FormOfNext(tags: seq<string>, i: nat)
    requires i < |tags|
    ensures forall n :: HasForm(tags[..i + 1], n) <==> HasForm(tags[..i], n) || n == NormalizeTagName(tags[i])
  {
    var more := tags[..i + 1];
    assert more[i] == tags[i];
    forall n ensures HasForm(more, n) <==> HasForm(tags[..i], n) || n == NormalizeTagName(tags[i]) {
      if HasForm(tags[..i], n) {
        var k :| 0 <= k < i && NormalizeTagName(tags[..i][k]) == n;
        assert more[k] == tags[..i][k];
      }
      if HasForm(more, n) {
        var k :| 0 <= k < |more| && NormalizeTagName(more[k]) == n;
        assert k < i ==> tags[..i][k] == more[k];
      }
    }
  }

  /** The names of either list, each once, without blanks. */
  method UnionTagNames(left: seq<string>, right: seq<string>) returns (out: seq<string>)
    ensures Ascending(out) && forall n :: n in out <==> n != "" && (n in left || n in right)
  {
    var items := left + right;
    var seen: set<string> := {};
    out := [];
    for i := 0 to |items|
      invariant NoDuplicates(out) && forall n :: n in seen <==> n in out
      invariant forall n :: n in out <==> n != "" && n in items[..i]
    {
      assert items[..i + 1] == items[..i] + [items[i]];
      if items[i] == "" || items[i] in seen { continue; }
      seen := seen + {items[i]};
      out := out + [items[i]];
    }
    assert items[..|items|] == items;
    out := SortStrings(out);
  }

  /** Only tags and relations changed: known tags keep their names, and other posts their relations. */
  ghost predicate OnlyTagsOf(post: int, before: Rows, after: Rows) {
    && after == before.(tags := after.tags, relations := after.relations)
    && NamesSound(after.tags)
    && (forall t :: t in before.tags ==> t in after.tags && after.tags[t] == before.tags[t])
    && (forall p, t :: p != post ==> ((p, t) in after.relations <==> (p, t) in before.relations))
    && (forall p, t :: p != post && (p, t) in before.relations ==> after.relations[(p, t)] == before.relations[(p, t)])
    && (forall t :: (post, t) in after.relations ==> t in after.tags)
  }

  /** Some tags of the new tables whose names are exactly these. */
  ghost predicate Names(tags: map<int, string>, ids: set<int>, names: seq<string>) {
    && (forall t :: t in ids ==> t in tags && tags[t] in names)
    && (forall n :: n in names ==> exists t :: t in ids && t in tags && tags[t] == n)
  }

  method SelectTagByName(db: Database, name: string) returns (r: Result<Option<int>>)
    ensures db.reliable ==> r.Ok?
    ensures r.Ok? && r.value.Some? ==> r.value.value in db.rows.tags && db.rows.tags[r.value.value] == name
    ensures r.Ok? && r.value.None? ==> forall t :: t in db.rows.tags ==> db.rows.tags[t] != name
  {
    var failed := db.CallFails();
    if failed { return Err(RepositoryFailure); }
    var ids := ListOf(db.rows.tags.Keys);
    for i := 0 to |ids|
      invariant forall k :: 0 <= k < i ==> db.rows.tags[ids[k]] != name
    {
      if db.rows.tags[ids[i]] == name { return Ok(Some(ids[i])); }
    }
    return Ok(None);
  }

  method GetOrCreateTagID(db: Database, name: string) returns (r: Result<int>)
    requires NamesSound(db.rows.tags) && name != ""
    modifies db`rows
    ensures db.reliable ==> r.Ok?
    ensures r.Ok? ==> db.rows == old(db.rows).(tags := db.rows.tags) && NamesSound(db.rows.tags)
    ensures r.Ok? ==> forall t :: t in old(db.rows).tags ==> t in db.rows.tags && db.rows.tags[t] == old(db.rows).tags[t]
    ensures r.Ok? ==> r.value in db.rows.tags && db.rows.tags[r.value] == name
  {
    var found := SelectTagByName(db, name);
    if found.Err? { return Err(RepositoryFailure); }
    if found.value.Some? { return Ok(found.value.value); }
    var failed := db.CallFails();
    if failed { return Err(RepositoryFailure); }
    var id := db.FreshID(db.rows.tags.Keys);
    db.rows := db.rows.(tags := db.rows.tags[id := name]);
    return Ok(id);
  }

  /** Sets or clears the mark of a relation; only UpsertActive makes a new one. */
  method UpsertActive(db: Database, post: int, tag: int) returns (ok: bool)
    modifies db`rows
    ensures db.reliable ==> ok
    ensures ok ==> db.rows == old(db.rows).(relations := old(db.rows).relations[(post, tag) := true])
  {
    var failed := db.CallFails();
    if failed { return false; }
    db.rows := db.rows.(relations := db.rows.relations[(post, tag) := true]);
    return true;
  }

  method SoftDelete(db: Database, post: int, tag: int) returns (ok: bool)
    requires (post, tag) in db.rows.relations
    modifies db`rows
    ensures db.reliable ==> ok
    ensures ok ==> db.rows == old(db.rows).(relations := old(db.rows).relations[(post, tag) := false])
  {
    var failed := db.CallFails();
    if failed { return false; }
    db.rows := db.rows.(relations := db.rows.relations[(post, tag) := false]);
    return true;
  }

  method SelectActiveByPostID(db: Database, post: int) returns (r: Result<seq<int>>)
    requires TagsSound(db.rows)
    ensures db.reliable ==> r.Ok?
    ensures r.Ok? ==> NoDuplicates(r.value) && forall t :: t in r.value <==> Tagged(db.rows, post, t)
  {
    var failed := db.CallFails();
    if failed { return Err(RepositoryFailure); }
    var ids := ListOf(set t | t in db.rows.tags && Tagged(db.rows, post, t));
    return Ok(ids);
  }

  method UpsertOne(db: Database, post: int, name: string) returns (r: Result<int>)
    requires NamesSound(db.rows.tags) && name != "" && forall t :: (post, t) in db.rows.relations ==> t in db.rows.tags
    modifies db`rows
    ensures db.reliable ==> r.Ok?
    ensures r.Ok? ==> OnlyTagsOf(post, old(db.rows), db.rows)
    ensures r.Ok? ==> r.value in db.rows.tags && db.rows.tags[r.value] == name
    ensures r.Ok? ==> forall t :: Tagged(db.rows, post, t) <==> t == r.value || Tagged(old(db.rows), post, t)
  {
    r := GetOrCreateTagID(db, name);
    if r.Err? { return; }
    var ok := UpsertActive(db, post, r.value);
    if !ok { return Err(RepositoryFailure); }
  }

  /** Makes every name an active tag of the post and returns their ids; tags it already had stay active. */
  method UpsertPostTags(db: Database, post: int, names: seq<string>) returns (r: Result<set<int>>)
    requires TagsSound(db.rows) && forall n :: n in names ==> n != ""
    modifies db`rows
    ensures db.reliable ==> r.Ok?
    ensures r.Ok? ==> OnlyTagsOf(post, old(db.rows), db.rows) && Names(db.rows.tags, r.value, names)
    ensures r.Ok? ==> forall t :: Tagged(db.rows, post, t) <==> t in r.value || Tagged(old(db.rows), post, t)
  {
    var ids: set<int> := {};
    for i := 0 to |names|
      invariant OnlyTagsOf(post, old(db.rows), db.rows) && Names(db.rows.tags, ids, names[..i])
      invariant forall t :: Tagged(db.rows, post, t) <==> t in ids || Tagged(old(db.rows), post, t)
    {
      ghost var before, had := db.rows, ids;
      assert names[..i + 1] == names[..i] + [names[i]];
      assert names[i] in names;
      var one := UpsertOne(db, post, names[i]);
      if one.Err? { return Err(one.error); }
      ids := ids + {one.value};
      MoreTags(post, old(db.rows), before, db.rows);
      MoreNames(before.tags, db.rows.tags, had, names[..i], one.value);
    }
    assert names[..|names|] == names;
    return Ok(ids);
  }

  lemma MoreTags(post: int, first: Rows, middle: Rows, last: Rows)
    requires OnlyTagsOf(post, first, middle) && OnlyTagsOf(post, middle, last)
    ensures OnlyTagsOf(post, first, last)
  {
  }

  lemma MoreNames(before: map<int, string>, after: map<int, string>, ids: set<int>, names: seq<string>, id: int)
    requires Names(before, ids, names) && id in after
    requires forall t :: t in before ==> t in after && after[t] == before[t]
    ensures Names(after, ids + {id}, names + [after[id]])
  {
    forall n | n in names + [after[id]] ensures exists t :: t in ids + {id} && t in after && after[t] == n {
      if n in names {
        var t :| t in ids && t in before && before[t] == n;
        assert t in ids + {id} && t in after && after[t] == n;
      } else {
        assert id in ids + {id} && after[id] == n;
      }
    }
  }

  /** Afterwards the post's active tags are exactly the given names. */
  method SyncPostTags(db: Database, post: int, names: seq<string>) returns (ok: bool)
    requires TagsSound(db.rows) && forall n :: n in names ==> n != ""
    modifies db`rows
    ensures db.reliable ==> ok
    ensures ok ==> OnlyTagsOf(post, old(db.rows), db.rows)
    ensures ok ==> ActiveTags(db.rows, post) == set n | n in names
  {
    var current := SelectActiveByPostID(db, post);
    if current.Err? { return false; }
    var wanted := UpsertPostTags(db, post, names);
    if wanted.Err? { return false; }
    ok := DropOthers(db, post, current.value, wanted.value);
    if ok {
      MoreTags(post, old(db.rows), old(db.rows), db.rows);
      ActiveAreNamed(db.rows, post, wanted.value, names);
    }
  }

  method DropOthers(db: Database, post: int, current: seq<int>, wanted: set<int>) returns (ok: bool)
    requires NamesSound(db.rows.tags) && (forall t :: (post, t) in db.rows.relations ==> t in db.rows.tags)
    requires forall t :: Tagged(db.rows, post, t) <==> t in wanted || t in current
    modifies db`rows
    ensures db.reliable ==> ok
    ensures ok ==> OnlyTagsOf(post, old(db.rows), db.rows) && db.rows.tags == old(db.rows).tags
    ensures ok ==> forall t :: Tagged(db.rows, post, t) <==> t in wanted
  {
    for i := 0 to |current|
      invariant OnlyTagsOf(post, old(db.rows), db.rows) && db.rows.tags == old(db.rows).tags
      invariant forall t :: (post, t) in db.rows.relations <==> (post, t) in old(db.rows).relations
      invariant forall t :: Tagged(db.rows, post, t) <==> t in wanted || (t in current && t !in current[..i])
    {
      assert current[..i + 1] == current[..i] + [current[i]];
      assert current[i] in current && Tagged(old(db.rows), post, current[i]);
      if current[i] in wanted { continue; }
      var deleted := SoftDelete(db, post, current[i]);
      if !deleted { return false; }
    }
    assert current[..|current|] == current;
    return true;
  }

  lemma ActiveAreNamed(rows: Rows, post: int, ids: set<int>, names: seq<string>)
    requires Names(rows.tags, ids, names) && forall t :: Tagged(rows, post, t) <==> t in ids
    ensures ActiveTags(rows, post) == set n | n in names
  {
    var active, wanted := ActiveTags(rows, post), set n | n in names;
    forall n | n in wanted ensures n in active {
      var t :| t in ids && t in rows.tags && rows.tags[t] == n;
      assert Tagged(rows, post, t);
    }
    assert active == wanted;
  }

  /** Tables stay sound when only the tags of one known post changed. */
  lemma TagsStaySound(post: int, before: Rows, after: Rows)
    requires OnlyTagsOf(post, before, after) && TagsSound(before) && post in before.posts
    ensures TagsSound(after)
  {
    forall p, t | (p, t) in after.relations ensures p in after.posts && t in after.tags {
      assert p != post ==> (p, t) in before.relations;
    }
  }

  /** What changes for one post is invisible in the tags of another. */
  lemma OthersKeepTags(post: int, before: Rows, after: Rows, other: int)
    requires OnlyTagsOf(post, before, after) && TagsSound(before) && other != post
    ensures ActiveTags(after, other) == ActiveTags(before, other)
  {
    var earlier, later := ActiveTags(before, other), ActiveTags(after, other);
    forall n | n in earlier ensures n in later {
      var t :| t in before.tags && Tagged(before, other, t) && before.tags[t] == n;
      assert Tagged(after, other, t) && after.tags[t] == n;
    }
    forall n | n in later ensures n in earlier {
      var t :| t in after.tags && Tagged(after, other, t) && after.tags[t] == n;
      assert Tagged(before, other, t);
      assert before.tags[t] == n;
    }
    assert earlier == later;
  }

  /** The names of the post's active tags, in dictionary order. */
  method ActiveTagNames(db: Database, post: int) returns (r: Result<seq<string>>)
    requires TagsSound(db.rows)
    ensures db.reliable ==> r.Ok?
    ensures r.Ok? ==> forall n :: n in r.value <==> n in ActiveTags(db.rows, post)
  {
    var ids := SelectActiveByPostID(db, post);
    if ids.Err? { return Err(RepositoryFailure); }
    var failed := db.CallFails();
    if failed { return Err(RepositoryFailure); }
    var tags, list := db.rows.tags, ids.value;
    assert forall t :: t in list ==> t in tags;
    var names: seq<string> := [];
    for i := 0 to |list|
      invariant |names| == i && forall k :: 0 <= k < i ==> list[k] in tags && names[k] == tags[list[k]]
    {
      assert list[i] in list;
      names := names + [tags[list[i]]];
    }
    assert NoDuplicates(names);
    forall n | n in ActiveTags(db.rows, post) ensures n in names {
      var t :| t in tags && Tagged(db.rows, post, t) && tags[t] == n;
      assert t in list;
      var k :| 0 <= k < |list| && list[k] == t;
      assert names[k] == n;
    }
    forall n | n in names ensures n in ActiveTags(db.rows, post) {
      var k :| 0 <= k < |names| && names[k] == n;
      assert list[k] in list && Tagged(db.rows, post, list[k]);
    }
    names := SortStrings(names);
    return Ok(names);
  }
}
