/** Attachment embeds in post text: the Markdown that is printed for a file, and the references read back from text. */
module Embeds {
  import opened Text
  import opened Lists

  const OPENING := "!["
  const LINK := "](attachment://"

  predicate IsRefChar(c: char) { '0' <= c <= '9' || 'a' <= c <= 'f' || 'A' <= c <= 'F' || c == '-' }

  /** The shape of an attachment id that the reading pattern accepts. */
  predicate IsRef(s: string) { s != "" && forall i :: 0 <= i < |s| ==> IsRefChar(s[i]) }

  predicate Reads(s: string, i: nat, text: string) { i + |text| <= |s| && s[i..i + |text|] == text }

  /** The first ']' at or after a place, or the end of the text. */
  function FirstClose(s: string, i: nat): (j: nat)
    requires i <= |s|
    ensures i <= j <= |s| && (j < |s| ==> s[j] == ']') && forall k :: i <= k < j ==> s[k] != ']'
    decreases |s| - i
  {
    if i == |s| || s[i] == ']' then i else FirstClose(s, i + 1)
  }

  /** The end of the run of id characters that starts at a place. */
  function RefEnd(s: string, i: nat): (j: nat)
    requires i <= |s|
    ensures i <= j <= |s| && (j < |s| ==> !IsRefChar(s[j])) && forall k :: i <= k < j ==> IsRefChar(s[k])
    decreases |s| - i
  {
    if i == |s| || !IsRefChar(s[i]) then i else RefEnd(s, i + 1)
  }

  datatype Match = Match(ref: string, end: nat)

  /** The pattern !\[[^\]]*]\(attachment://([0-9a-fA-F-]+)\) matched at one place; it can match there in one way only. */
  function MatchAt(s: string, i: nat): (m: Option<Match>)
    requires i <= |s|
    ensures m.Some? ==> i < m.value.end <= |s| && IsRef(m.value.ref)
  {
    if !Reads(s, i, OPENING) then None
    else
      var close := FirstClose(s, i + |OPENING|);
      if !Reads(s, close, LINK) then None
      else
        var start := close + |LINK|;
        var end := RefEnd(s, start);
        if end > start && end < |s| && s[end] == ')' then Some(Match(s[start..end], end + 1)) else None
  }

  /** All matches from a place on, leftmost first and without overlap. */
  function FindAll(s: string, i: nat): seq<string>
    requires i <= |s|
    decreases |s| - i
  {
    if i == |s| then []
    else match MatchAt(s, i)
      case Some(m) => [m.ref] + FindAll(s, m.end)
      case None => FindAll(s, i + 1)
  }

  /** The ids a text refers to. */
  function Refs(content: string): set<string> { set r | r in FindAll(content, 0) }

  /** The order of first appearance, each once. */
  function Firsts(refs: seq<string>): seq<string> {
    if refs == [] then []
    else
      var init, last := Firsts(refs[..|refs| - 1]), refs[|refs| - 1];
      if last in init then init else init + [last]
  }

  lemma {:induction false} FirstsAreDistinct(refs: seq<string>)
    ensures NoDuplicates(Firsts(refs)) && forall r :: r in Firsts(refs) <==> r in refs
  {
    if refs != [] {
      FirstsAreDistinct(refs[..|refs| - 1]);
      assert refs == refs[..|refs| - 1] + [refs[|refs| - 1]];
    }
  }

  lemma {:induction false} FindAllAreRefs(s: string, i: nat)
    requires i <= |s|
    ensures forall r :: r in FindAll(s, i) ==> IsRef(r)
    decreases |s| - i
  {
    if i < |s| {
      match MatchAt(s, i)
      case Some(m) => FindAllAreRefs(s, m.end);
      case None => FindAllAreRefs(s, i + 1);
    }
  }

  lemma {:induction false} RefsNeedNoTrim(r: string)
    requires IsRef(r)
    ensures TrimSpace(r) == r
  {
    TrimKeeps(r);
  }

  /** Lists every referenced id once, in the order of first appearance. */
  method ExtractAttachmentRefs(content: string) returns (out: seq<string>)
    ensures NoDuplicates(out) && forall r :: r in out <==> r in Refs(content)
    ensures out == Firsts(FindAll(content, 0))
  {
    var matches := FindAll(content, 0);
    FindAllAreRefs(content, 0);
    var seen: set<string> := {};
    out := [];
    for i := 0 to |matches|
      invariant out == Firsts(matches[..i])
      invariant forall r :: r in seen <==> r in out
    {
      RefsNeedNoTrim(matches[i]);
      assert matches[..i + 1][..i] == matches[..i];
      var ref := TrimSpace(matches[i]);
      if ref == "" || ref in seen { continue; }
      seen := seen + {ref};
      out := out + [ref];
    }
    assert matches[..|matches|] == matches;
    FirstsAreDistinct(matches);
  }

  function EscapeChar(c: char): string {
    if c == '\\' || c == '[' || c == ']' || c == '(' || c == ')' then ['\\', c]
    else if c == '\r' || c == '\n' then " "
    else [c]
  }

  function Escape(s: string): string {
    if s == "" then "" else Escape(s[..|s| - 1]) + EscapeChar(s[|s| - 1])
  }

  function AltText(fileName: string): string {
    var alt := Escape(TrimSpace(fileName));
    if alt == "" then "attachment" else alt
  }

  function Embed(fileName: string, ref: string): string { OPENING + AltText(fileName) + LINK + ref + ")" }

  /** Brackets stand behind a backslash only. */
  predicate Behind(t: string) {
    && (t != "" ==> t[0] != '[' && t[0] != ']' && t[0] != '(')
    && forall k :: 0 < k < |t| && (t[k] == '[' || t[k] == ']' || t[k] == '(') ==> t[k - 1] == '\\'
  }

  predicate Guarded(alt: string) { alt != "" && Behind(alt) }

  lemma {:induction false} OneMoreEscaped(t: string, c: char)
    requires Behind(t)
    ensures Behind(t + EscapeChar(c)) && (']' in t + EscapeChar(c) <==> ']' in t || c == ']')
  {
    var x := EscapeChar(c);
    var e := t + x;
    assert |x| == 1 || (|x| == 2 && x[0] == '\\' && x[1] == c);
    forall k | 0 < k < |e| && (e[k] == '[' || e[k] == ']' || e[k] == '(') ensures e[k - 1] == '\\' {
      assert k < |t| ==> e[k] == t[k];
      assert k >= |t| ==> e[k] == x[k - |t|];
    }
  }

  /** In escaped text '[', ']' and '(' only ever follow a backslash, and ']' survives. */
  lemma {:induction false} EscapedBrackets(s: string)
    ensures (']' in Escape(s) <==> ']' in s) && Behind(Escape(s))
  {
    if s != "" {
      hide EscapeChar, Behind;
      var init, last := s[..|s| - 1], s[|s| - 1];
      EscapedBrackets(init);
      assert s == init + [last];
      OneMoreEscaped(Escape(init), last);
    }
  }

  lemma {:induction false} AltBrackets(fileName: string)
    ensures ']' in AltText(fileName) <==> ']' in TrimSpace(fileName)
    ensures Guarded(AltText(fileName))
  {
    EscapedBrackets(TrimSpace(fileName));
    if Escape(TrimSpace(fileName)) == "" { assert ']' !in "attachment"; }
  }

  /** An embed of `ref` stands in `s` from `b`, its first ']' at `close`. */
  predicate Stands(s: string, b: nat, close: nat, ref: string) {
    && b + 2 <= close && close + 15 + |ref| < |s|
    && Reads(s, b, OPENING) && (forall k :: b <= k < close ==> s[k] != ']')
    && Reads(s, close, LINK) && s[close + 15..close + 15 + |ref|] == ref && s[close + 15 + |ref|] == ')'
  }

  lemma Regroup(before: string, opening: string, alt: string, link: string, ref: string, after: string)
    ensures before + (opening + alt + link + ref + ")") + after == before + opening + alt + (link + ref + ")" + after)
  {
  }

  lemma FrontParts(before: string, opening: string, alt: string, tail: string, s: string)
    requires s == before + opening + alt + tail
    ensures s[|before|..|before| + |opening|] == opening
    ensures s[|before| + |opening|..|before| + |opening| + |alt|] == alt
    ensures s[|before| + |opening| + |alt|..] == tail
  {
  }

  lemma TailParts(link: string, ref: string, after: string, tail: string)
    requires tail == link + ref + ")" + after
    ensures |tail| > |link| + |ref|
    ensures tail[..|link|] == link && tail[|link|..|link| + |ref|] == ref && tail[|link| + |ref|] == ')'
  {
  }

  lemma SliceOfTail(s: string, at: nat, tail: string, i: nat, j: nat)
    requires at <= |s| && s[at..] == tail && i <= j <= |tail|
    ensures at + j <= |s| && s[at + i..at + j] == tail[i..j]
  {
    var slice := s[at + i..at + j];
    assert |slice| == j - i;
    assert forall k :: 0 <= k < j - i ==> slice[k] == s[at + (i + k)] == s[at..][i + k] == tail[i + k];
  }

  /** Where the parts of an embed stand in a text. */
  lemma EmbedLayout(before: string, fileName: string, ref: string, after: string, s: string, b: nat, alt: string, close: nat)
    requires s == before + Embed(fileName, ref) + after && b == |before| && alt == AltText(fileName) && close == b + 2 + |alt|
    ensures |s| >= close + 15 + |ref| + 1
    ensures Reads(s, b, OPENING) && s[b + 2..close] == alt
    ensures Reads(s, close, LINK) && s[close + 15..close + 15 + |ref|] == ref && s[close + 15 + |ref|] == ')'
  {
    var opening, link := OPENING, LINK;
    assert |opening| == 2 && |link| == 15;
    var tail := link + ref + ")" + after;
    Regroup(before, opening, alt, link, ref, after);
    FrontParts(before, opening, alt, tail, s);
    TailParts(link, ref, after, tail);
    SliceOfTail(s, close, tail, 0, 15);
    SliceOfTail(s, close, tail, 15, 15 + |ref|);
    assert s[close..][15 + |ref|] == ')';
  }

  lemma {:induction false} EmbedStands(before: string, fileName: string, ref: string, after: string, s: string)
    requires ']' !in TrimSpace(fileName) && s == before + Embed(fileName, ref) + after
    ensures Stands(s, |before|, |before| + 2 + |AltText(fileName)|, ref)
  {
    var b, alt := |before|, AltText(fileName);
    var close := b + 2 + |alt|;
    EmbedLayout(before, fileName, ref, after, s, b, alt, close);
    AltBrackets(fileName);
    assert s[b] == OPENING[0] && s[b + 1] == OPENING[1];
    forall k | b + 2 <= k < close ensures s[k] != ']' { assert s[k] == s[b + 2..close][k - b - 2]; }
  }

  lemma RefEndIs(s: string, start: nat, end: nat)
    requires start <= end < |s| && (forall k :: start <= k < end ==> IsRefChar(s[k])) && !IsRefChar(s[end])
    ensures RefEnd(s, start) == end
  {
  }

  lemma FirstCloseIs(s: string, from: nat, close: nat)
    requires from <= close < |s| && s[close] == ']' && forall k :: from <= k < close ==> s[k] != ']'
    ensures FirstClose(s, from) == close
  {
  }

  /** A start whose first ']' is the embed's own reads the embed's id. */
  lemma {:induction false} MatchReadsEmbed(s: string, i: nat, b: nat, close: nat, ref: string)
    requires IsRef(ref) && Stands(s, b, close, ref)
    requires Reads(s, i, OPENING) && FirstClose(s, i + 2) == close
    ensures MatchAt(s, i).Some? && MatchAt(s, i).value.ref == ref
  {
    var start := close + 15;
    forall k | start <= k < start + |ref| ensures IsRefChar(s[k]) {
      assert s[k] == s[start..start + |ref|][k - start];
    }
    RefEndIs(s, start, start + |ref|);
  }

  /** From its first ']' on, a match holds no '!'. */
  lemma {:induction false} NoBangAfterClose(s: string, i: nat, k: nat)
    requires i <= |s| && MatchAt(s, i).Some? && FirstClose(s, i + 2) <= k < MatchAt(s, i).value.end
    ensures s[k] != '!'
  {
    var close := FirstClose(s, i + 2);
    assert '!' !in LINK;
    assert k < close + 15 ==> s[k] == s[close..close + 15][k - close];
  }

  /** A match that begins at or before a standing embed ends before it, or reads its id. */
  lemma {:induction false} MatchBefore(s: string, i: nat, b: nat, close: nat, ref: string)
    requires IsRef(ref) && Stands(s, b, close, ref) && i <= b
    ensures i == b ==> MatchAt(s, i).Some?
    ensures MatchAt(s, i).Some? ==> MatchAt(s, i).value.end <= b || MatchAt(s, i).value.ref == ref
  {
    assert s[b] == OPENING[0];
    if i == b {
      FirstCloseIs(s, b + 2, close);
      MatchReadsEmbed(s, b, b, close, ref);
    } else if MatchAt(s, i).Some? && MatchAt(s, i).value.end > b {
      var first := FirstClose(s, i + 2);
      assert s[i + 1] == OPENING[1];
      assert first > b by {
        if first <= b { NoBangAfterClose(s, i, b); }
      }
      FirstCloseIs(s, i + 2, close);
      MatchReadsEmbed(s, i, b, close, ref);
    }
  }

  lemma {:induction false} FoundFrom(s: string, i: nat, b: nat, close: nat, ref: string)
    requires IsRef(ref) && Stands(s, b, close, ref) && i <= b
    ensures ref in FindAll(s, i)
    decreases b - i
  {
    MatchBefore(s, i, b, close, ref);
    match MatchAt(s, i)
    case None => FoundFrom(s, i + 1, b, close, ref);
    case Some(m) => if m.end <= b { FoundFrom(s, m.end, b, close, ref); }
  }

  /** Wherever it is pasted, the embed of a file name without ']' is read back. */
  lemma {:induction false} EmbedIsFound(before: string, fileName: string, ref: string, after: string)
    requires IsRef(ref) && ']' !in TrimSpace(fileName)
    ensures ref in Refs(before + Embed(fileName, ref) + after)
  {
    var s := before + Embed(fileName, ref) + after;
    EmbedStands(before, fileName, ref, after, s);
    FoundFrom(s, 0, |before|, |before| + 2 + |AltText(fileName)|, ref);
  }

  lemma {:induction false} NothingFrom(s: string, i: nat)
    requires i <= |s| && forall k :: i <= k < |s| ==> MatchAt(s, k).None?
    ensures FindAll(s, i) == []
    decreases |s| - i
  {
    if i < |s| { NothingFrom(s, i + 1); }
  }

  /** A text that is one embed and nothing else. */
  predicate IsEmbed(s: string, alt: string, ref: string) {
    var close := 2 + |alt|;
    && Guarded(alt) && IsRef(ref) && |s| == close + 15 + |ref| + 1
    && Reads(s, 0, OPENING) && s[2..close] == alt && Reads(s, close, LINK)
    && s[close + 15..close + 15 + |ref|] == ref && s[close + 15 + |ref|] == ')'
  }

  /** Inside an embed the opening is read at the front only. */
  lemma {:induction false} OneOpening(s: string, alt: string, ref: string, k: nat)
    requires IsEmbed(s, alt, ref) && 0 < k < |s| - 1
    ensures !(s[k] == '!' && s[k + 1] == '[')
  {
    var close := 2 + |alt|;
    if k < 2 {
      assert s[1] == OPENING[1];
    } else if k + 1 < close {
      assert s[k] == alt[k - 2] && s[k + 1] == alt[k - 1];
    } else if k < close {
      assert s[k + 1] == LINK[0];
    } else if k < close + 15 {
      assert '!' !in LINK;
      assert s[k] == s[close..close + 15][k - close];
    } else {
      assert s[k] == s[close + 15..close + 15 + |ref|][k - close - 15] == ref[k - close - 15];
      assert IsRefChar(ref[k - close - 15]);
    }
  }

  lemma SecondOfLink(s: string, j: nat)
    requires Reads(s, j, LINK)
    ensures j + 1 < |s| && s[j + 1] == '('
  {
    var link := s[j..j + |LINK|];
    assert |LINK| == 15 && s[j + 1] == link[1];
    assert link == "](attachment://";
    assert link[1] == '(';
  }

  /** After the first ']' of a name comes a backslash escape or another ']', never the link. */
  lemma {:induction false} ClosesTooEarly(s: string, alt: string, ref: string)
    requires IsEmbed(s, alt, ref) && ']' in alt
    ensures !Reads(s, FirstClose(s, 2), LINK)
  {
    var close, j := 2 + |alt|, FirstClose(s, 2);
    var at :| 0 <= at < |alt| && alt[at] == ']';
    assert s[2 + at] == alt[at];
    assert j < close && s[j] == alt[j - 2];
    if j + 1 < close {
      assert s[j + 1] == s[2..close][j - 1] == alt[j - 1];
    } else {
      assert s[j + 1] == s[close..close + |LINK|][0] == LINK[0];
    }
    assert s[j + 1] != '(';
    if Reads(s, j, LINK) { SecondOfLink(s, j); }
  }

  lemma Unpadded(s: string)
    ensures "" + s + "" == s
  {
  }

  lemma {:induction false} EmbedAlone(fileName: string, ref: string)
    requires IsRef(ref)
    ensures IsEmbed(Embed(fileName, ref), AltText(fileName), ref)
  {
    var s, alt := Embed(fileName, ref), AltText(fileName);
    AltBrackets(fileName);
    Unpadded(s);
    EmbedLayout("", fileName, ref, "", s, 0, alt, 2 + |alt|);
    assert |LINK| == 15;
  }

  /** A ']' in the name is printed as "\]": it ends the alternative text too early and hides the id. */
  lemma {:induction false} EmbedIsLost(fileName: string, ref: string)
    requires IsRef(ref) && ']' in TrimSpace(fileName)
    ensures Refs(Embed(fileName, ref)) == {}
  {
    var s, alt := Embed(fileName, ref), AltText(fileName);
    EmbedAlone(fileName, ref);
    AltBrackets(fileName);
    ClosesTooEarly(s, alt, ref);
    forall k | 0 <= k < |s| ensures MatchAt(s, k).None? {
      if 0 < k < |s| - 1 { OneOpening(s, alt, ref, k); }
      assert Reads(s, k, OPENING) ==> s[k] == OPENING[0] && s[k + 1] == OPENING[1];
    }
    NothingFrom(s, 0);
  }

  /** The exact condition on a file name under which its embed can be read back wherever it stands. */
  lemma {:induction false} EmbedRoundTripIff(fileName: string, ref: string)
    requires IsRef(ref)
    ensures (forall before, after :: ref in Refs(before + Embed(fileName, ref) + after)) <==> ']' !in TrimSpace(fileName)
  {
    if ']' in TrimSpace(fileName) {
      EmbedIsLost(fileName, ref);
      Unpadded(Embed(fileName, ref));
      assert ref !in Refs("" + Embed(fileName, ref) + "");
    } else {
      forall before, after ensures ref in Refs(before + Embed(fileName, ref) + after) {
        EmbedIsFound(before, fileName, ref, after);
      }
    }
  }

  // What is read, said of the text alone.

  /** A picture link to the id: an opening, a text without ']', and the link. */
  ghost predicate Links(content: string, ref: string) {
    exists before: string, alt: string, after: string ::
      content == before + "![" + alt + "](attachment://" + ref + ")" + after && ']' !in alt
  }

  lemma {:induction false} FoundIsMatched(s: string, i: nat, ref: string) returns (at: nat)
    requires i <= |s| && ref in FindAll(s, i)
    ensures at < |s| && MatchAt(s, at).Some? && MatchAt(s, at).value.ref == ref
    decreases |s| - i
  {
    match MatchAt(s, i)
    case None => at := FoundIsMatched(s, i + 1, ref);
    case Some(m) => if m.ref == ref { at := i; } else { at := FoundIsMatched(s, m.end, ref); }
  }

  lemma MatchParts(s: string, i: nat, close: nat, start: nat, end: nat)
    requires i < |s| && MatchAt(s, i).Some? && close == FirstClose(s, i + 2) && start == close + 15 && end == RefEnd(s, start)
    ensures i + 2 <= close && start <= end < |s| && MatchAt(s, i).value.ref == s[start..end]
    ensures s[i..i + 2] == "![" && s[close..start] == "](attachment://" && s[end] == ')'
    ensures forall k :: i + 2 <= k < close ==> s[k] != ']'
  {
    assert |OPENING| == 2 && |LINK| == 15;
  }

  lemma {:induction false} MatchLinks(s: string, i: nat)
    requires i < |s| && MatchAt(s, i).Some?
    ensures Links(s, MatchAt(s, i).value.ref)
  {
    var close := FirstClose(s, i + 2);
    var start := close + 15;
    var end := RefEnd(s, start);
    MatchParts(s, i, close, start, end);
    hide MatchAt, FirstClose, RefEnd, Links, IsRef;
    SixParts(s, i, close, start, end);
    var alt := s[i + 2..close];
    forall k | 0 <= k < |alt| ensures alt[k] != ']' { assert alt[k] == s[i + 2 + k]; }
    LinkedBy(s, s[..i], alt, s[start..end], s[end + 1..]);
  }

  lemma LinkedBy(s: string, before: string, alt: string, ref: string, after: string)
    requires s == before + "![" + alt + "](attachment://" + ref + ")" + after && ']' !in alt
    ensures Links(s, ref)
  {
  }

  lemma SixParts(s: string, i: nat, close: nat, start: nat, end: nat)
    requires i + 2 <= close <= start <= end < |s|
    ensures s == s[..i] + s[i..i + 2] + s[i + 2..close] + s[close..start] + s[start..end] + [s[end]] + s[end + 1..]
  {
  }

  lemma LinkStands(s: string, before: string, alt: string, ref: string, after: string)
    requires s == before + "![" + alt + "](attachment://" + ref + ")" + after && ']' !in alt
    ensures Stands(s, |before|, |before| + 2 + |alt|, ref)
  {
    var opening, link := OPENING, LINK;
    assert |opening| == 2 && |link| == 15;
    var tail := link + ref + ")" + after;
    var b, close := |before|, |before| + 2 + |alt|;
    Regroup(before, opening, alt, link, ref, after);
    assert before + "![" + alt + "](attachment://" + ref + ")" + after == before + (opening + alt + link + ref + ")") + after;
    FrontParts(before, opening, alt, tail, s);
    TailParts(link, ref, after, tail);
    SliceOfTail(s, close, tail, 0, 15);
    SliceOfTail(s, close, tail, 15, 15 + |ref|);
    assert s[close..][15 + |ref|] == ')';
    assert s[b] == opening[0] && s[b + 1] == opening[1];
    forall k | b + 2 <= k < close ensures s[k] != ']' { assert s[k] == s[b + 2..close][k - b - 2]; }
  }

  lemma {:induction false} ReadIsLinked(content: string, ref: string)
    requires ref in Refs(content)
    ensures IsRef(ref) && Links(content, ref)
  {
    FindAllAreRefs(content, 0);
    var at := FoundIsMatched(content, 0, ref);
    MatchLinks(content, at);
  }

  lemma {:induction false} LinkIsRead(content: string, before: string, alt: string, ref: string, after: string)
    requires IsRef(ref) && content == before + "![" + alt + "](attachment://" + ref + ")" + after && ']' !in alt
    ensures ref in FindAll(content, 0)
  {
    hide *;
    LinkStands(content, before, alt, ref, after);
    FoundFrom(content, 0, |before|, |before| + 2 + |alt|, ref);
  }

  lemma {:induction false} LinkedIsRead(content: string, ref: string)
    requires IsRef(ref) && Links(content, ref)
    ensures ref in FindAll(content, 0)
  {
    hide IsRef, FindAll;
    var before: string, alt: string, after: string :|
      content == before + "![" + alt + "](attachment://" + ref + ")" + after && ']' !in alt;
    LinkIsRead(content, before, alt, ref, after);
  }

  /** The ids read from a text are exactly those of its picture links: scanning without overlap misses none and adds none. */
  lemma {:induction false} RefsIff(content: string, ref: string)
    ensures ref in Refs(content) <==> IsRef(ref) && Links(content, ref)
  {
    hide IsRef, Links, FindAll;
    if ref in Refs(content) { ReadIsLinked(content, ref); }
    if IsRef(ref) && Links(content, ref) { LinkedIsRead(content, ref); }
  }

  /** Ids keep the order in which they first appear: one listed earlier appears before any appearance of a later one. */
  lemma {:induction false} FirstsInOrder(refs: seq<string>, i: nat, j: nat, n: nat)
    requires i < j < |Firsts(refs)| && n < |refs| && refs[n] == Firsts(refs)[j]
    ensures Firsts(refs)[i] in refs[..n]
    decreases |refs|
  {
    var init, last := refs[..|refs| - 1], refs[|refs| - 1];
    var listed := Firsts(init);
    FirstsAreDistinct(init);
    FirstsAreDistinct(refs);
    if j < |listed| {
      if n < |init| {
        FirstsInOrder(init, i, j, n);
        assert init[..n] == refs[..n];
      } else {
        assert listed[i] in listed;
        assert init == refs[..n];
      }
    } else {
      assert listed[i] in listed && Firsts(refs)[j] == last;
      assert last !in listed;
      forall k | 0 <= k < |init| ensures refs[k] != last { assert init[k] in init; }
      assert init == refs[..n];
    }
  }

  /** Ids of hexadecimal digits, in either case, and dashes are read back, and nothing else is ever read. */
  lemma {:induction false} IdsAreHex(before: string, fileName: string, ref: string, after: string, content: string)
    requires ref != "" && (forall c :: c in ref ==> '0' <= c <= '9' || 'a' <= c <= 'f' || 'A' <= c <= 'F' || c == '-')
    requires ']' !in TrimSpace(fileName)
    ensures ref in Refs(before + Embed(fileName, ref) + after)
    ensures forall r, c :: r in Refs(content) && c in r ==> '0' <= c <= '9' || 'a' <= c <= 'f' || 'A' <= c <= 'F' || c == '-'
  {
    assert forall i :: 0 <= i < |ref| ==> ref[i] in ref;
    EmbedIsFound(before, fileName, ref, after);
    FindAllAreRefs(content, 0);
  }

  // The alternative text says the name.

  /** A reader of Markdown drops the backslash of an escape. */
  function Unescape(s: string): string {
    if s == "" then ""
    else if s[0] == '\\' && |s| > 1 then [s[1]] + Unescape(s[2..])
    else [s[0]] + Unescape(s[1..])
  }

  function OneLineChar(c: char): char { if c == '\r' || c == '\n' then ' ' else c }

  function OneLine(s: string): string { seq(|s|, i requires 0 <= i < |s| => OneLineChar(s[i])) }

  lemma {:induction false} UnescapeChar(c: char, rest: string)
    ensures Unescape(EscapeChar(c) + rest) == [OneLineChar(c)] + Unescape(rest)
  {
    var all := EscapeChar(c) + rest;
    assert all[|EscapeChar(c)|..] == rest;
  }

  lemma OneLineFront(c: char, rest: string)
    ensures OneLine([c] + rest) == [OneLineChar(c)] + OneLine(rest)
  {
  }

  lemma Associates(a: string, b: string, c: string)
    ensures (a + b) + c == a + (b + c)
  {
  }

  lemma {:induction false} EscapeFront(c: char, s: string)
    ensures Escape([c] + s) == EscapeChar(c) + Escape(s)
  {
    hide EscapeChar;
    var all := [c] + s;
    if s == "" {
      assert all[..0] == "" && all[0] == c;
      assert Escape(all) == Escape("") + EscapeChar(c);
    } else {
      var init, last := s[..|s| - 1], s[|s| - 1];
      EscapeFront(c, init);
      assert all[..|all| - 1] == [c] + init;
      Associates(EscapeChar(c), Escape(init), EscapeChar(last));
    }
  }

  /** Escaping loses nothing but line breaks, which become blanks. */
  lemma {:induction false} UnescapeEscape(s: string)
    ensures Unescape(Escape(s)) == OneLine(s)
    decreases |s|
  {
    if s != "" {
      var c, rest := s[0], s[1..];
      assert s == [c] + rest;
      EscapeFront(c, rest);
      UnescapeEscape(rest);
      OneLineFront(c, rest);
      UnescapeChar(c, Escape(rest));
    }
  }

  /** The embed of a file: a picture link whose text reads as the trimmed name, or as "attachment" when the name is blank. */
  lemma {:induction false} EmbedSaysName(fileName: string, ref: string)
    ensures Embed(fileName, ref) == "![" + AltText(fileName) + "](attachment://" + ref + ")"
    ensures Unescape(AltText(fileName)) == if IsBlank(fileName) then "attachment" else OneLine(TrimSpace(fileName))
  {
    UnescapeEscape(TrimSpace(fileName));
    UnescapeEscape("attachment");
    if Escape(TrimSpace(fileName)) == "" {
      assert TrimSpace(fileName) == "" by { assert |OneLine(TrimSpace(fileName))| == |TrimSpace(fileName)|; }
      NoEscapes("attachment");
    }
  }

  lemma {:induction false} NoEscapes(s: string)
    requires '\\' !in s
    ensures Unescape(s) == s
  {
    if s != "" { NoEscapes(s[1..]); }
  }
}
