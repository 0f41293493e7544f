/** Unpadded base64url: sections 3.2 and 5 of RFC 4648.  A byte string is a string of characters below 256. */
module Base64Url {
  import opened Text

  predicate IsBytes(s: string) { forall i :: 0 <= i < |s| ==> s[i] as int < 256 }

  /** The 6-bit alphabet of section 5. */
  function SextetChar(v: nat): char
    requires v < 64
  {
    if v < 26 then ('A' as int + v) as char
    else if v < 52 then ('a' as int + v - 26) as char
    else if v < 62 then ('0' as int + v - 52) as char
    else if v == 62 then '-' else '_'
  }

  function SextetValue(c: char): (v: Option<nat>)
    ensures v.Some? ==> v.value < 64
  {
    if 'A' <= c <= 'Z' then Some(c as int - 'A' as int)
    else if 'a' <= c <= 'z' then Some(c as int - 'a' as int + 26)
    else if '0' <= c <= '9' then Some(c as int - '0' as int + 52)
    else if c == '-' then Some(62)
    else if c == '_' then Some(63)
    else None
  }

  /** The sextets of `v`, most significant first. */
  function Sextets(v: nat, count: nat): (s: string)
    ensures |s| == count
  {
    if count == 0 then "" else Sextets(v / 64, count - 1) + [SextetChar(v % 64)]
  }

  /** Reads sextets back as one number. */
  function SextetsValue(s: string): Option<nat> {
    if s == "" then Some(0)
    else
      var init, last := SextetsValue(s[..|s| - 1]), SextetValue(s[|s| - 1]);
      if init.Some? && last.Some? then Some(init.value * 64 + last.value) else None
  }

  function Encode(b: string): string
    requires IsBytes(b)
  {
    if |b| == 0 then ""
    else if |b| == 1 then Sextets(b[0] as int * 16, 2)
    else if |b| == 2 then Sextets((b[0] as int * 256 + b[1] as int) * 4, 3)
    else Sextets((b[0] as int * 256 + b[1] as int) * 256 + b[2] as int, 4) + Encode(b[3..])
  }

  function DropNewlines(s: string): string {
    if s == "" then ""
    else if s[0] == '\n' || s[0] == '\r' then DropNewlines(s[1..])
    else [s[0]] + DropNewlines(s[1..])
  }

  /** The low byte of `v`. */
  function Byte(v: nat): char { (v % 256) as char }

  /** Decodes quantum by quantum; spare bits of a short last quantum are not checked. */
  function DecodeQuanta(s: string): Option<string> {
    if s == "" then Some("")
    else if |s| == 1 then None
    else
      var v := SextetsValue(if |s| < 4 then s else s[..4]);
      if v.None? then None
      else if |s| == 2 then Some([Byte(v.value / 16)])
      else if |s| == 3 then Some([Byte(v.value / 4 / 256), Byte(v.value / 4)])
      else
        var rest := DecodeQuanta(s[4..]);
        if rest.None? then None
        else Some([Byte(v.value / 256 / 256), Byte(v.value / 256), Byte(v.value)] + rest.value)
  }

  /** Line breaks are skipped anywhere in the input. */
  function Decode(s: string): Option<string> { DecodeQuanta(DropNewlines(s)) }

  predicate InAlphabet(s: string) { forall i :: 0 <= i < |s| ==> SextetValue(s[i]).Some? }

  lemma SextetRoundTrip(v: nat)
    requires v < 64
    ensures SextetValue(SextetChar(v)) == Some(v)
  {
  }

  function Pow64(n: nat): nat { if n == 0 then 1 else 64 * Pow64(n - 1) }

  lemma {:induction false} SextetsRoundTrip(v: nat, count: nat)
    requires v < Pow64(count)
    ensures SextetsValue(Sextets(v, count)) == Some(v)
    ensures InAlphabet(Sextets(v, count))
  {
    if count > 0 {
      var hi, lo := v / 64, v % 64;
      DivideBy64(v, Pow64(count - 1));
      SextetsRoundTrip(hi, count - 1);
      SextetRoundTrip(lo);
      assert Sextets(v, count) == Sextets(hi, count - 1) + [SextetChar(lo)];
      OneMoreSextet(Sextets(hi, count - 1), hi, lo);
    }
  }

  lemma DivideBy64(v: nat, p: nat)
    requires v < 64 * p
    ensures v / 64 < p && v == v / 64 * 64 + v % 64
  {
  }

  lemma {:induction false} OneMoreSextet(s: string, hi: nat, lo: nat)
    requires lo < 64 && SextetsValue(s) == Some(hi)
    ensures SextetsValue(s + [SextetChar(lo)]) == Some(hi * 64 + lo)
  {
    SextetRoundTrip(lo);
    assert (s + [SextetChar(lo)])[..|s|] == s;
  }

  lemma ByteOf(hi: nat, c: char)
    requires c as int < 256
    ensures Byte(hi * 256 + c as int) == c && (hi * 256 + c as int) / 256 == hi
  {
  }

  lemma {:induction false} QuantaRoundTrip(b: string)
    requires IsBytes(b)
    ensures DecodeQuanta(Encode(b)) == Some(b) && InAlphabet(Encode(b))
    ensures b != "" ==> Encode(b) != ""
  {
    if |b| == 0 {
    } else if |b| == 1 {
      OneByteRoundTrip(b);
    } else if |b| == 2 {
      TwoBytesRoundTrip(b);
    } else {
      QuantaRoundTrip(b[3..]);
      FullQuantumRoundTrip(b);
    }
  }

  lemma {:induction false} OneByteRoundTrip(b: string)
    requires IsBytes(b) && |b| == 1
    ensures DecodeQuanta(Encode(b)) == Some(b) && InAlphabet(Encode(b))
  {
    var x := b[0] as int;
    var s := Sextets(x * 16, 2);
    assert Pow64(2) == 64 * Pow64(1) == 4096;
    SextetsRoundTrip(x * 16, 2);
    assert Encode(b) == s;
    assert DecodeQuanta(s) == Some([Byte(x * 16 / 16)]);
    assert Byte(x) == b[0] by { ByteOf(0, b[0]); }
    assert b == [b[0]];
  }

  lemma {:induction false} TwoBytesRoundTrip(b: string)
    requires IsBytes(b) && |b| == 2
    ensures DecodeQuanta(Encode(b)) == Some(b) && InAlphabet(Encode(b))
  {
    var x := b[0] as int * 256 + b[1] as int;
    var s := Sextets(x * 4, 3);
    assert Pow64(3) == 64 * Pow64(2) == 262144;
    SextetsRoundTrip(x * 4, 3);
    assert Encode(b) == s;
    assert x * 4 / 4 == x;
    assert DecodeQuanta(s) == Some([Byte(x / 256), Byte(x)]);
    TopBytes(b[0], b[1]);
    assert b == [b[0], b[1]];
  }

  lemma TopBytes(c: char, d: char)
    requires c as int < 256 && d as int < 256
    ensures Byte((c as int * 256 + d as int) / 256) == c && Byte(c as int * 256 + d as int) == d
  {
    ByteOf(c as int, d);
    ByteOf(0, c);
  }

  lemma {:induction false} DecodeFullQuantum(head: string, v: nat, tail: string, rest: string)
    requires |head| == 4 && SextetsValue(head) == Some(v) && DecodeQuanta(tail) == Some(rest)
    ensures DecodeQuanta(head + tail) == Some([Byte(v / 256 / 256), Byte(v / 256), Byte(v)] + rest)
  {
    assert (head + tail)[..4] == head && (head + tail)[4..] == tail;
  }

  lemma ThreeBytes(c: char, d: char, e: char, v: nat)
    requires c as int < 256 && d as int < 256 && e as int < 256
    requires v == (c as int * 256 + d as int) * 256 + e as int
    ensures v < 16777216 && Byte(v / 256 / 256) == c && Byte(v / 256) == d && Byte(v) == e
  {
    ByteOf(c as int * 256 + d as int, e);
    TopBytes(c, d);
  }

  lemma {:induction false} FullQuantumRoundTrip(b: string)
    requires IsBytes(b) && |b| >= 3
    requires DecodeQuanta(Encode(b[3..])) == Some(b[3..]) && InAlphabet(Encode(b[3..]))
    ensures DecodeQuanta(Encode(b)) == Some(b) && InAlphabet(Encode(b))
  {
    var v := (b[0] as int * 256 + b[1] as int) * 256 + b[2] as int;
    ThreeBytes(b[0], b[1], b[2], v);
    assert v < Pow64(4) by { assert Pow64(4) == 64 * Pow64(3) == 64 * (64 * Pow64(2)); }
    SextetsRoundTrip(v, 4);
    DecodeFullQuantum(Sextets(v, 4), v, Encode(b[3..]), b[3..]);
    assert b == [b[0], b[1], b[2]] + b[3..];
  }

  lemma {:induction false} NoNewlinesToDrop(s: string)
    requires InAlphabet(s)
    ensures DropNewlines(s) == s
  {
    if s != "" {
      NoNewlinesToDrop(s[1..]);
      assert s == [s[0]] + s[1..];
    }
  }

  lemma AlphabetHasNoSpace(s: string)
    requires InAlphabet(s)
    ensures forall i :: 0 <= i < |s| ==> !IsSpace(s[i])
  {
  }

  /** Decoding undoes encoding on every byte string, and what is printed is free of white space. */
  lemma {:induction false} RoundTrip(b: string)
    requires IsBytes(b)
    ensures Decode(Encode(b)) == Some(b)
    ensures TrimSpace(Encode(b)) == Encode(b)
    ensures forall i :: 0 <= i < |Encode(b)| ==> !IsSpace(Encode(b)[i])
    ensures b != "" ==> Encode(b) != ""
  {
    QuantaRoundTrip(b);
    NoNewlinesToDrop(Encode(b));
    AlphabetHasNoSpace(Encode(b));
    TrimKeeps(Encode(b));
  }

  lemma {:induction false} AppendSextet(hi: nat, lo: nat, v: nat, count: nat, front: string)
    requires lo < 64 && v == hi * 64 + lo && Sextets(hi, count) == front
    ensures Sextets(v, count + 1) == front + [SextetChar(lo)]
  {
    assert v / 64 == hi && v % 64 == lo;
  }

  lemma {:induction false} QuantumF()
    ensures Sextets(1632, 2) == "Zg"
  {
    AppendSextet(0, 25, 25, 0, "");
    AppendSextet(25, 32, 1632, 1, "Z");
  }

  lemma {:induction false} QuantumB()
    ensures Sextets(1568, 2) == "Yg"
  {
    AppendSextet(0, 24, 24, 0, "");
    AppendSextet(24, 32, 1568, 1, "Y");
  }

  lemma {:induction false} QuantumFo()
    ensures Sextets(104892, 3) == "Zm8"
  {
    AppendSextet(0, 25, 25, 0, "");
    AppendSextet(25, 38, 1638, 1, "Z");
    AppendSextet(1638, 60, 104892, 2, "Zm");
  }

  lemma {:induction false} QuantumFoo()
    ensures Sextets(6713199, 4) == "Zm9v"
  {
    AppendSextet(0, 25, 25, 0, "");
    AppendSextet(25, 38, 1638, 1, "Z");
    AppendSextet(1638, 61, 104893, 2, "Zm");
    AppendSextet(104893, 47, 6713199, 3, "Zm9");
  }

  lemma {:induction false} QuantumBar()
    ensures Sextets(6447474, 4) == "YmFy"
  {
    AppendSextet(0, 24, 24, 0, "");
    AppendSextet(24, 38, 1574, 1, "Y");
    AppendSextet(1574, 5, 100741, 2, "Ym");
    AppendSextet(100741, 50, 6447474, 3, "YmF");
  }

  lemma {:induction false} QuantumHigh()
    ensures Sextets(258044, 3) == "-_8"
  {
    AppendSextet(0, 62, 62, 0, "");
    AppendSextet(62, 63, 4031, 1, "-");
    AppendSextet(4031, 60, 258044, 2, "-_");
  }

  /** The test vectors of section 10, and one for the two letters that section 5 changes. */
  lemma {:induction false} KnownVectors()
    ensures Encode("f") == "Zg" && Encode("fo") == "Zm8" && Encode("foo") == "Zm9v"
    ensures Encode("foob") == "Zm9vYg" && Encode("foobar") == "Zm9vYmFy"
    ensures Encode([251 as char, 255 as char]) == "-_8"
  {
    QuantumF();
    QuantumB();
    QuantumFo();
    QuantumFoo();
    QuantumBar();
    QuantumHigh();
    assert "foo"[3..] == "" && "foob"[3..] == "b" && "foobar"[3..] == "bar" && "bar"[3..] == "";
  }

  /** What decodes is of the alphabet, and the text it came from holds line breaks besides and nothing else. */
  lemma {:induction false} DecodedIsAlphabet(s: string)
    requires DecodeQuanta(s).Some?
    ensures InAlphabet(s)
  {
    if s != "" {
      var first := if |s| < 4 then s else s[..4];
      SextetsAreAlphabet(first);
      if |s| >= 4 {
        DecodedIsAlphabet(s[4..]);
        assert s == s[..4] + s[4..];
      }
    }
  }

  lemma {:induction false} SextetsAreAlphabet(s: string)
    requires SextetsValue(s).Some?
    ensures InAlphabet(s)
  {
    if s != "" {
      SextetsAreAlphabet(s[..|s| - 1]);
      assert s == s[..|s| - 1] + [s[|s| - 1]];
    }
  }

  lemma {:induction false} OnlyNewlinesDropped(s: string, c: char)
    requires c in s && c != '\n' && c != '\r'
    ensures c in DropNewlines(s)
  {
    if s[0] != c { OnlyNewlinesDropped(s[1..], c); }
  }

  lemma {:induction false} DecodableHoldsNoColon(s: string)
    requires Decode(s).Some?
    ensures ':' !in s
  {
    DecodedIsAlphabet(DropNewlines(s));
    if ':' in s { OnlyNewlinesDropped(s, ':'); }
  }
}
