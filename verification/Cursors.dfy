/** The three opaque page cursors: by id, by feed rank and by search score.  A score travels as its 64-bit pattern. */
module Cursors {
  import opened Text
  import opened Numerals
  import Base64Url

  const PREFIX := "v1:"

  datatype FeedCursor = FeedCursor(sort: string, window: string, scoreBits: nat, publishedAt: int, postID: int)

  datatype SearchCursor = SearchCursor(sort: string, window: string, scoreBits: nat, postID: int)

  /** A text that can stand between two colons of a cursor. */
  predicate IsField(s: string) { Base64Url.IsBytes(s) && ':' !in s }

  predicate IsFeedCursor(c: FeedCursor) {
    IsField(c.sort) && IsField(c.window) && c.scoreBits < TWO_64 && IsInt64(c.publishedAt) && IsInt64(c.postID) && c.postID >= 0
  }

  predicate IsSearchCursor(c: SearchCursor) {
    IsField(c.sort) && IsField(c.window) && c.scoreBits < TWO_64 && IsInt64(c.postID) && c.postID >= 0
  }

  /** The text after the version prefix; None for a cursor that is not base64url or has another prefix. */
  function Payload(cursor: string): Option<string> {
    match Base64Url.Decode(TrimSpace(cursor))
    case None => None
    case Some(raw) => if HasPrefix(raw, PREFIX) then Some(raw[|PREFIX|..]) else None
  }

  function Armour(payload: string): string
    requires Base64Url.IsBytes(payload)
  {
    Base64Url.Encode(PREFIX + payload)
  }

  function DecodeOpaque(cursor: string): Result<int> {
    if IsBlank(cursor) then Ok(0)
    else match Payload(cursor)
      case None => Err(InvalidInput)
      case Some(text) =>
        match ParseInt64(text)
        case None => Err(InvalidInput)
        case Some(id) => if id < 0 then Err(InvalidInput) else Ok(id)
  }

  function EncodeOpaque(id: int): string {
    IntIsField(id);
    Armour(PrintInt(id))
  }

  function DecodeFeed(sort: string, window: string, cursor: string): Result<Option<FeedCursor>> {
    if IsBlank(cursor) then Ok(None)
    else match Payload(cursor)
      case None => Err(InvalidInput)
      case Some(text) =>
        var parts := Split(text);
        if |parts| != 5 || parts[0] != sort || parts[1] != window then Err(InvalidInput)
        else
          var bits, at, id := ParseUint64(parts[2], 16), ParseInt64(parts[3]), ParseInt64(parts[4]);
          if bits.None? || at.None? || id.None? || id.value < 0 then Err(InvalidInput)
          else Ok(Some(FeedCursor(sort, window, bits.value, at.value, id.value)))
  }

  function FeedPayload(c: FeedCursor): string {
    c.sort + ":" + (c.window + ":" + (PrintNat(c.scoreBits, 16) + ":" + (PrintInt(c.publishedAt) + ":" + PrintInt(c.postID))))
  }

  function EncodeFeed(c: FeedCursor): string
    requires IsFeedCursor(c)
  {
    FeedPayloadIsBytes(c);
    Armour(FeedPayload(c))
  }

  function DecodeSearch(sort: string, window: string, cursor: string): Result<Option<SearchCursor>> {
    if IsBlank(cursor) then Ok(None)
    else match Payload(cursor)
      case None => Err(InvalidInput)
      case Some(text) =>
        var parts := Split(text);
        if |parts| != 4 || parts[0] != sort || parts[1] != window then Err(InvalidInput)
        else
          var bits, id := ParseUint64(parts[2], 16), ParseInt64(parts[3]);
          if bits.None? || id.None? || id.value < 0 then Err(InvalidInput)
          else Ok(Some(SearchCursor(sort, window, bits.value, id.value)))
  }

  function SearchPayload(c: SearchCursor): string {
    c.sort + ":" + (c.window + ":" + (PrintNat(c.scoreBits, 16) + ":" + PrintInt(c.postID)))
  }

  function EncodeSearch(c: SearchCursor): string
    requires IsSearchCursor(c)
  {
    SearchPayloadIsBytes(c);
    Armour(SearchPayload(c))
  }

  lemma DigitsAreField(s: string)
    requires IsDigits(s)
    ensures IsField(s)
  {
  }

  lemma {:induction false} NatIsField(n: nat)
    ensures IsField(PrintNat(n, 16))
  {
    ParsePrintNat(n, 16);
    DigitsAreField(PrintNat(n, 16));
  }

  lemma {:induction false} IntIsField(n: int)
    ensures IsField(PrintInt(n))
  {
    PrintIntShape(n);
    if n < 0 { DigitsAreField(PrintInt(n)[1..]); } else { DigitsAreField(PrintInt(n)); }
  }

  lemma {:induction false} FeedPayloadIsBytes(c: FeedCursor)
    requires IsFeedCursor(c)
    ensures Base64Url.IsBytes(FeedPayload(c))
  {
    NatIsField(c.scoreBits);
    IntIsField(c.publishedAt);
    IntIsField(c.postID);
  }

  lemma {:induction false} SearchPayloadIsBytes(c: SearchCursor)
    requires IsSearchCursor(c)
    ensures Base64Url.IsBytes(SearchPayload(c))
  {
    NatIsField(c.scoreBits);
    IntIsField(c.postID);
  }

  lemma {:induction false} ArmourRoundTrip(payload: string)
    requires Base64Url.IsBytes(payload)
    ensures Payload(Armour(payload)) == Some(payload)
    ensures !IsBlank(Armour(payload))
  {
    var raw := PREFIX + payload;
    Base64Url.RoundTrip(raw);
    assert raw[|PREFIX|..] == payload;
  }

  /** Decoding undoes encoding for every non-negative 64-bit id. */
  lemma {:induction false} OpaqueRoundTrip(id: int)
    requires IsInt64(id) && id >= 0
    ensures DecodeOpaque(EncodeOpaque(id)) == Ok(id)
    ensures !IsBlank(EncodeOpaque(id))
  {
    IntIsField(id);
    ArmourRoundTrip(PrintInt(id));
    ParsePrintInt64(id);
  }

  lemma {:induction false} FeedPayloadSplits(c: FeedCursor)
    requires IsFeedCursor(c)
    ensures Split(FeedPayload(c)) == [c.sort, c.window, PrintNat(c.scoreBits, 16), PrintInt(c.publishedAt), PrintInt(c.postID)]
  {
    var bits, at, id := PrintNat(c.scoreBits, 16), PrintInt(c.publishedAt), PrintInt(c.postID);
    NatIsField(c.scoreBits);
    IntIsField(c.publishedAt);
    IntIsField(c.postID);
    SplitLast(id);
    SplitFirst(at, id);
    SplitFirst(bits, at + ":" + id);
    SplitFirst(c.window, bits + ":" + (at + ":" + id));
    SplitFirst(c.sort, c.window + ":" + (bits + ":" + (at + ":" + id)));
  }

  /** Decoding undoes encoding for every score pattern, 64-bit time and non-negative id. */
  lemma {:induction false} FeedRoundTrip(c: FeedCursor)
    requires IsFeedCursor(c)
    ensures DecodeFeed(c.sort, c.window, EncodeFeed(c)) == Ok(Some(c))
    ensures !IsBlank(EncodeFeed(c))
  {
    FeedPayloadIsBytes(c);
    ArmourRoundTrip(FeedPayload(c));
    FeedPayloadSplits(c);
    ParsePrintUint64(c.scoreBits, 16);
    ParsePrintInt64(c.publishedAt);
    ParsePrintInt64(c.postID);
  }

  lemma {:induction false} SearchPayloadSplits(c: SearchCursor)
    requires IsSearchCursor(c)
    ensures Split(SearchPayload(c)) == [c.sort, c.window, PrintNat(c.scoreBits, 16), PrintInt(c.postID)]
  {
    var bits, id := PrintNat(c.scoreBits, 16), PrintInt(c.postID);
    NatIsField(c.scoreBits);
    IntIsField(c.postID);
    SplitLast(id);
    SplitFirst(bits, id);
    SplitFirst(c.window, bits + ":" + id);
    SplitFirst(c.sort, c.window + ":" + (bits + ":" + id));
  }

  /** Decoding undoes encoding for every score pattern and non-negative id. */
  lemma {:induction false} SearchRoundTrip(c: SearchCursor)
    requires IsSearchCursor(c)
    ensures DecodeSearch(c.sort, c.window, EncodeSearch(c)) == Ok(Some(c))
    ensures !IsBlank(EncodeSearch(c))
  {
    SearchPayloadIsBytes(c);
    ArmourRoundTrip(SearchPayload(c));
    SearchPayloadSplits(c);
    ParsePrintUint64(c.scoreBits, 16);
    ParsePrintInt64(c.postID);
  }

  /** No cursor but a blank one is read by two of the three decoders. */
  lemma {:induction false} DecodersAreDisjoint(cursor: string, feedSort: string, feedWindow: string, searchSort: string, searchWindow: string)
    requires !IsBlank(cursor)
    ensures DecodeFeed(feedSort, feedWindow, cursor).Ok? ==> DecodeOpaque(cursor) == Err(InvalidInput)
    ensures DecodeSearch(searchSort, searchWindow, cursor).Ok? ==> DecodeOpaque(cursor) == Err(InvalidInput)
    ensures DecodeFeed(feedSort, feedWindow, cursor).Ok? ==> DecodeSearch(searchSort, searchWindow, cursor) == Err(InvalidInput)
  {
    if Payload(cursor).Some? && ParseInt64(Payload(cursor).value).Some? {
      ParsedIntHoldsNoColon(Payload(cursor).value);
      SplitLast(Payload(cursor).value);
    }
  }

  /** A cursor belongs to its order: printed for one sort and window it is refused under every other. */
  lemma {:induction false} FeedCursorBelongs(c: FeedCursor, sort: string, window: string)
    requires IsFeedCursor(c)
    ensures DecodeFeed(sort, window, EncodeFeed(c)) == if sort == c.sort && window == c.window then Ok(Some(c)) else Err(InvalidInput)
  {
    FeedRoundTrip(c);
    FeedPayloadIsBytes(c);
    ArmourRoundTrip(FeedPayload(c));
    FeedPayloadSplits(c);
  }

  lemma {:induction false} SearchCursorBelongs(c: SearchCursor, sort: string, window: string)
    requires IsSearchCursor(c)
    ensures DecodeSearch(sort, window, EncodeSearch(c)) == if sort == c.sort && window == c.window then Ok(Some(c)) else Err(InvalidInput)
  {
    SearchRoundTrip(c);
    SearchPayloadIsBytes(c);
    ArmourRoundTrip(SearchPayload(c));
    SearchPayloadSplits(c);
  }

  /** What a decoder accepts is in range, whoever wrote it. */
  lemma {:induction false} DecodedInRange(sort: string, window: string, cursor: string)
    ensures DecodeOpaque(cursor).Ok? ==> 0 <= DecodeOpaque(cursor).value < 0x8000_0000_0000_0000
    ensures DecodeFeed(sort, window, cursor).Ok? && DecodeFeed(sort, window, cursor).value.Some? ==>
      var c := DecodeFeed(sort, window, cursor).value.value;
      c.sort == sort && c.window == window && 0 <= c.postID < 0x8000_0000_0000_0000 && c.scoreBits < 0x1_0000_0000_0000_0000
    ensures DecodeSearch(sort, window, cursor).Ok? && DecodeSearch(sort, window, cursor).value.Some? ==>
      var c := DecodeSearch(sort, window, cursor).value.value;
      c.sort == sort && c.window == window && 0 <= c.postID < 0x8000_0000_0000_0000 && c.scoreBits < 0x1_0000_0000_0000_0000
  {
  }

  /** The printed form: version 1, a colon, the decimal id, in base64url. */
  lemma {:induction false} FirstOpaqueCursor()
    ensures EncodeOpaque(1) == "djE6MQ"
  {
    IntIsField(1);
    assert PrintInt(1) == "1";
    var raw := PREFIX + "1";
    assert raw == "v1:1" && raw[3..] == "1";
    Base64Url.AppendSextet(0, 29, 29, 0, "");
    Base64Url.AppendSextet(29, 35, 1891, 1, "d");
    Base64Url.AppendSextet(1891, 4, 121028, 2, "dj");
    Base64Url.AppendSextet(121028, 58, 7745850, 3, "djE");
    Base64Url.AppendSextet(0, 12, 12, 0, "");
    Base64Url.AppendSextet(12, 16, 784, 1, "M");
    assert Base64Url.Encode("1") == "MQ";
    assert Base64Url.Encode(raw) == "djE6" + "MQ";
  }

  /** The other two forms: sort, window, the score's pattern in hexadecimal, the time, the id. */
  lemma {:induction false} FirstFeedCursor()
    ensures EncodeFeed(FeedCursor("top", "7d", 255, -5, 7)) == Base64Url.Encode("v1:top:7d:ff:-5:7")
  {
    SomeNumbers();
    assert "-5" + ":" + "7" == "-5:7";
    assert "ff" + ":" + "-5:7" == "ff:-5:7";
    assert "7d" + ":" + "ff:-5:7" == "7d:ff:-5:7";
    assert "top" + ":" + "7d:ff:-5:7" == "top:7d:ff:-5:7";
    assert PREFIX + "top:7d:ff:-5:7" == "v1:top:7d:ff:-5:7";
  }

  lemma {:induction false} FirstSearchCursor()
    ensures EncodeSearch(SearchCursor("relevance", "", 255, 7)) == Base64Url.Encode("v1:relevance::ff:7")
  {
    SomeNumbers();
    assert "ff" + ":" + "7" == "ff:7";
    assert "" + ":" + "ff:7" == ":ff:7";
    assert "relevance" + ":" + ":ff:7" == "relevance::ff:7";
    assert PREFIX + "relevance::ff:7" == "v1:relevance::ff:7";
  }

  lemma {:induction false} SomeNumbers()
    ensures PrintNat(255, 16) == "ff" && PrintInt(-5) == "-5" && PrintInt(7) == "7"
  {
    assert PrintNat(15, 16) == "f";
    assert PrintNat(5, 10) == "5";
  }

  /** A cursor that any decoder reads holds no colon. */
  lemma {:induction false} ReadableHoldsNoColon(cursor: string)
    requires IsBlank(cursor) || Payload(cursor).Some?
    ensures ':' !in cursor
  {
    var a, b := TrimCuts(cursor);
    if !IsBlank(cursor) { Base64Url.DecodableHoldsNoColon(TrimSpace(cursor)); }
    forall i | 0 <= i < |cursor| ensures cursor[i] != ':' {
      assert cursor[i] == if i < |a| then a[i] else if i < |a| + |TrimSpace(cursor)| then TrimSpace(cursor)[i - |a|] else b[i - |a| - |TrimSpace(cursor)|];
    }
  }
}
