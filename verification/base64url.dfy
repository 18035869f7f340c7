/**
 * The encoding step of `generateRandomString`: `btoa` (standard base64 with
 * '=' padding, section 4 of RFC 4648) followed by three textual replacements
 * that turn it into base64url without padding (section 5 of RFC 4648).
 */
module Base64Url {
  import opened Wrappers

  type byte = x: int | 0 <= x < 256
  type sextet = x: int | 0 <= x < 64

  /** The standard alphabet: A-Z, a-z, 0-9, '+', '/'. */
  function StdChar(v: sextet): char {
    if v < 26 then ('A' as int + v) as char
    else if v < 52 then ('a' as int + v - 26) as char
    else if v < 62 then ('0' as int + v - 52) as char
    else if v == 62 then '+'
    else '/'
  }

  /** The URL- and filename-safe alphabet: as the standard one with '-' and '_'. */
  function UrlChar(v: sextet): char {
    if v < 62 then StdChar(v) else if v == 62 then '-' else '_'
  }

  function UrlValue(c: char): (r: Option<sextet>)
    ensures r.Some? ==> UrlChar(r.value) == c
  {
    if 'A' <= c <= 'Z' then Some(c as int - 'A' as int)
    else if 'a' <= c <= 'z' then Some(c as int - 'a' as int + 26)
    else if '0' <= c <= '9' then Some(c as int - '0' as int + 52)
    else if c == '-' then Some(62)
    else if c == '_' then Some(63)
    else None
  }

  predicate IsUrlSafeChar(c: char) {
    UrlValue(c).Some?
  }

  // The four sextets of a three-byte group, and the bytes they carry back.
  function S0(b0: byte): sextet { b0 / 4 }
  function S1(b0: byte, b1: byte): sextet { (b0 % 4) * 16 + b1 / 16 }
  function S2(b1: byte, b2: byte): sextet { (b1 % 16) * 4 + b2 / 64 }
  function S3(b2: byte): sextet { b2 % 64 }

  function B0(s0: sextet, s1: sextet): byte { s0 * 4 + s1 / 16 }
  function B1(s1: sextet, s2: sextet): byte { (s1 % 16) * 16 + s2 / 4 }
  function B2(s2: sextet, s3: sextet): byte { (s2 % 4) * 64 + s3 }

  /** `btoa` on a byte string: groups of three bytes to four characters, '=' padding. */
  function Btoa(b: seq<byte>): (r: string)
    ensures |r| == 4 * ((|b| + 2) / 3)
    decreases |b|
  {
    if |b| == 0 then ""
    else if |b| == 1 then [StdChar(S0(b[0])), StdChar(S1(b[0], 0)), '=', '=']
    else if |b| == 2 then [StdChar(S0(b[0])), StdChar(S1(b[0], b[1])), StdChar(S2(b[1], 0)), '=']
    else [StdChar(S0(b[0])), StdChar(S1(b[0], b[1])), StdChar(S2(b[1], b[2])), StdChar(S3(b[2]))] + Btoa(b[3..])
  }

  /** `s.replace(/x/g, y)` for single characters. */
  function ReplaceAll(s: string, x: char, y: char): (r: string)
    ensures |r| == |s|
    ensures forall i :: 0 <= i < |s| && s[i] != x ==> r[i] == s[i]
    ensures forall i :: 0 <= i < |s| && s[i] == x ==> r[i] == y
    ensures x != y ==> x !in r
    ensures forall c :: c != y ==> (c in r <==> c in s && c != x)
  {
    seq(|s|, i requires 0 <= i < |s| => if s[i] == x then y else s[i])
  }

  /** `s.replace(/x/g, "")` for a single character. */
  function RemoveAll(s: string, x: char): string {
    if |s| == 0 then ""
    else if s[0] == x then RemoveAll(s[1..], x)
    else [s[0]] + RemoveAll(s[1..], x)
  }

  /** The text transformation `generateRandomString` applies to the output of `btoa`. */
  function ToUrlSafe(s: string): (r: string)
    ensures '+' !in r && '/' !in r && '=' !in r
    ensures forall c :: c in r ==> c in s || c == '-' || c == '_'
  {
    var t := ReplaceAll(ReplaceAll(s, '+', '-'), '/', '_');
    RemoveAllRemoves(t, '=');
    RemoveAll(t, '=')
  }

  /** `generateRandomString` with the random bytes given as input. */
  function GenerateRandomString(bytes: seq<byte>): (r: string)
    ensures '+' !in r && '/' !in r && '=' !in r
  {
    ToUrlSafe(Btoa(bytes))
  }

  /** Reference definition: base64url over the URL-safe alphabet, with no padding emitted. */
  function Encode(b: seq<byte>): (r: string)
    ensures forall c :: c in r ==> IsUrlSafeChar(c)
    decreases |b|
  {
    if |b| == 0 then ""
    else if |b| == 1 then [UrlChar(S0(b[0])), UrlChar(S1(b[0], 0))]
    else if |b| == 2 then [UrlChar(S0(b[0])), UrlChar(S1(b[0], b[1])), UrlChar(S2(b[1], 0))]
    else [UrlChar(S0(b[0])), UrlChar(S1(b[0], b[1])), UrlChar(S2(b[1], b[2])), UrlChar(S3(b[2]))] + Encode(b[3..])
  }

  /** Inverse of `Encode`; fails on a character outside the alphabet or a dangling single character. */
  function Decode(s: string): (r: Option<seq<byte>>)
    ensures |s| % 4 == 1 ==> r.None?
    ensures r.Some? ==> |r.value| == 3 * |s| / 4
    decreases |s|
  {
    if |s| == 0 then Some([])
    else if |s| == 1 then None
    else
      var v0 := UrlValue(s[0]);
      var v1 := UrlValue(s[1]);
      if v0.None? || v1.None? then None
      else if |s| == 2 then Some([B0(v0.value, v1.value)])
      else
        var v2 := UrlValue(s[2]);
        if v2.None? then None
        else if |s| == 3 then Some([B0(v0.value, v1.value), B1(v1.value, v2.value)])
        else
          var v3 := UrlValue(s[3]);
          if v3.None? then None
          else match Decode(s[4..])
            case None => None
            case Some(rest) => Some([B0(v0.value, v1.value), B1(v1.value, v2.value), B2(v2.value, v3.value)] + rest)
  }

  // ---- Properties ----

  lemma UrlValueOfUrlChar(v: sextet)
    ensures UrlValue(UrlChar(v)) == Some(v)
  {
  }

  lemma FirstByteRoundTrip(b0: byte, b1: byte)
    ensures B0(S0(b0), S1(b0, b1)) == b0
  {
  }

  lemma GroupRoundTrip(b0: byte, b1: byte, b2: byte)
    ensures B0(S0(b0), S1(b0, b1)) == b0
    ensures B1(S1(b0, b1), S2(b1, b2)) == b1
    ensures B2(S2(b1, b2), S3(b2)) == b2
  {
    FirstByteRoundTrip(b0, b1);
  }

  /** Decoding four alphabet characters followed by more text. */
  lemma DecodeGroup(c0: char, c1: char, c2: char, c3: char, rest: string)
    requires UrlValue(c0).Some? && UrlValue(c1).Some? && UrlValue(c2).Some? && UrlValue(c3).Some?
    ensures Decode([c0, c1, c2, c3] + rest) ==
      match Decode(rest)
      case None => None
      case Some(tail) =>
        Some([B0(UrlValue(c0).value, UrlValue(c1).value),
              B1(UrlValue(c1).value, UrlValue(c2).value),
              B2(UrlValue(c2).value, UrlValue(c3).value)] + tail)
  {
    var s := [c0, c1, c2, c3] + rest;
    assert s[0] == c0 && s[1] == c1 && s[2] == c2 && s[3] == c3;
    assert s[4..] == rest;
  }

  lemma DecodePair(c0: char, c1: char)
    requires UrlValue(c0).Some? && UrlValue(c1).Some?
    ensures Decode([c0, c1]) == Some([B0(UrlValue(c0).value, UrlValue(c1).value)])
  {
    var s := [c0, c1];
    assert |s| == 2 && s[0] == c0 && s[1] == c1;
  }

  lemma DecodeEncodeOne(b0: byte)
    ensures Decode(Encode([b0])) == Some([b0])
  {
    var v0, v1 := S0(b0), S1(b0, 0);
    UrlValueOfUrlChar(v0);
    UrlValueOfUrlChar(v1);
    FirstByteRoundTrip(b0, 0);
    var s := Encode([b0]);
    assert s == [UrlChar(v0), UrlChar(v1)];
    DecodePair(UrlChar(v0), UrlChar(v1));
  }

  lemma DecodeEncodeTwo(b0: byte, b1: byte)
    ensures Decode(Encode([b0, b1])) == Some([b0, b1])
  {
    var v0, v1, v2 := S0(b0), S1(b0, b1), S2(b1, 0);
    UrlValueOfUrlChar(v0);
    UrlValueOfUrlChar(v1);
    UrlValueOfUrlChar(v2);
    GroupRoundTrip(b0, b1, 0);
    var s := Encode([b0, b1]);
    assert s == [UrlChar(v0), UrlChar(v1), UrlChar(v2)];
    assert Decode(s) == Some([B0(v0, v1), B1(v1, v2)]);
  }

  /** Decoding an encoding gives the original bytes back. */
  lemma {:induction false} DecodeEncode(b: seq<byte>)
    ensures Decode(Encode(b)) == Some(b)
    decreases |b|
  {
    if |b| == 1 {
      DecodeEncodeOne(b[0]);
      assert [b[0]] == b;
    } else if |b| == 2 {
      DecodeEncodeTwo(b[0], b[1]);
      assert [b[0], b[1]] == b;
    } else if |b| >= 3 {
      DecodeEncode(b[3..]);
      DecodeEncodeGroup(b);
    }
  }

  /** A full group decodes back to its three bytes, given that the rest does. */
  lemma DecodeEncodeGroup(b: seq<byte>)
    requires |b| >= 3
    requires Decode(Encode(b[3..])) == Some(b[3..])
    ensures Decode(Encode(b)) == Some(b)
  {
    var v0, v1, v2, v3 := S0(b[0]), S1(b[0], b[1]), S2(b[1], b[2]), S3(b[2]);
    UrlValueOfUrlChar(v0);
    UrlValueOfUrlChar(v1);
    UrlValueOfUrlChar(v2);
    UrlValueOfUrlChar(v3);
    GroupRoundTrip(b[0], b[1], b[2]);
    assert Encode(b) == [UrlChar(v0), UrlChar(v1), UrlChar(v2), UrlChar(v3)] + Encode(b[3..]);
    DecodeGroup(UrlChar(v0), UrlChar(v1), UrlChar(v2), UrlChar(v3), Encode(b[3..]));
    assert [b[0], b[1], b[2]] + b[3..] == b;
  }

  /** Unpadded base64url of n bytes has ceil(4n/3) characters. */
  lemma {:induction false} EncodeLength(b: seq<byte>)
    ensures |Encode(b)| == (4 * |b| + 2) / 3
    decreases |b|
  {
    if |b| >= 3 {
      EncodeLength(b[3..]);
    }
  }

  /** A global removal leaves no occurrence and introduces no character. */
  lemma {:induction false} RemoveAllRemoves(s: string, x: char)
    ensures x !in RemoveAll(s, x)
    ensures forall c :: c in RemoveAll(s, x) ==> c in s
    decreases |s|
  {
    if |s| > 0 {
      RemoveAllRemoves(s[1..], x);
      assert forall c :: c in s[1..] ==> c in s;
    }
  }

  lemma {:induction false} RemoveAllAppend(a: string, b: string, x: char)
    ensures RemoveAll(a + b, x) == RemoveAll(a, x) + RemoveAll(b, x)
    decreases |a|
  {
    if |a| > 0 {
      assert (a + b)[1..] == a[1..] + b;
      RemoveAllAppend(a[1..], b, x);
    } else {
      assert a + b == b;
    }
  }

  lemma ToUrlSafeAppend(a: string, b: string)
    ensures ToUrlSafe(a + b) == ToUrlSafe(a) + ToUrlSafe(b)
  {
    var p := ReplaceAll(ReplaceAll(a, '+', '-'), '/', '_');
    var q := ReplaceAll(ReplaceAll(b, '+', '-'), '/', '_');
    assert ReplaceAll(ReplaceAll(a + b, '+', '-'), '/', '_') == p + q;
    RemoveAllAppend(p, q, '=');
  }

  lemma RemoveAllSingle(c: char, x: char)
    ensures RemoveAll([c], x) == if c == x then "" else [c]
  {
    assert [c][1..] == "";
  }

  lemma ToUrlSafeChar(v: sextet)
    ensures ToUrlSafe([StdChar(v)]) == [UrlChar(v)]
  {
    var c := StdChar(v);
    var t := ReplaceAll(ReplaceAll([c], '+', '-'), '/', '_');
    assert t == [UrlChar(v)];
    RemoveAllSingle(UrlChar(v), '=');
  }

  lemma ToUrlSafePadding(pads: string)
    requires pads == "" || pads == "=" || pads == "=="
    ensures ToUrlSafe(pads) == ""
  {
    assert ReplaceAll(ReplaceAll(pads, '+', '-'), '/', '_') == pads;
    RemoveAllSingle('=', '=');
    if pads == "==" {
      RemoveAllAppend("=", "=", '=');
      assert pads == "=" + "=";
    }
  }

  /** One standard character ahead of any tail is translated on its own. */
  lemma ToUrlSafeCons(v: sextet, tail: string)
    ensures ToUrlSafe([StdChar(v)] + tail) == [UrlChar(v)] + ToUrlSafe(tail)
  {
    ToUrlSafeAppend([StdChar(v)], tail);
    ToUrlSafeChar(v);
  }

  /** Two standard characters and two pads become the two URL-safe characters. */
  lemma ToUrlSafePair(v0: sextet, v1: sextet)
    ensures ToUrlSafe([StdChar(v0), StdChar(v1), '=', '=']) == [UrlChar(v0), UrlChar(v1)]
  {
    assert [StdChar(v0), StdChar(v1), '=', '='] == [StdChar(v0)] + ([StdChar(v1)] + "==");
    ToUrlSafeCons(v0, [StdChar(v1)] + "==");
    ToUrlSafeCons(v1, "==");
    ToUrlSafePadding("==");
    assert [UrlChar(v0)] + ([UrlChar(v1)] + "") == [UrlChar(v0), UrlChar(v1)];
  }

  /** Three standard characters and one pad become the three URL-safe characters. */
  lemma ToUrlSafeTriple(v0: sextet, v1: sextet, v2: sextet)
    ensures ToUrlSafe([StdChar(v0), StdChar(v1), StdChar(v2), '=']) == [UrlChar(v0), UrlChar(v1), UrlChar(v2)]
  {
    assert [StdChar(v0), StdChar(v1), StdChar(v2), '='] == [StdChar(v0)] + ([StdChar(v1)] + ([StdChar(v2)] + "="));
    ToUrlSafeCons(v0, [StdChar(v1)] + ([StdChar(v2)] + "="));
    ToUrlSafeCons(v1, [StdChar(v2)] + "=");
    ToUrlSafeCons(v2, "=");
    ToUrlSafePadding("=");
    assert [UrlChar(v0)] + ([UrlChar(v1)] + ([UrlChar(v2)] + "")) == [UrlChar(v0), UrlChar(v1), UrlChar(v2)];
  }

  /** The final group of one or two bytes (or none): its padding disappears. */
  lemma ShortGroupIsEncode(b: seq<byte>)
    requires |b| < 3
    ensures ToUrlSafe(Btoa(b)) == Encode(b)
  {
    if |b| == 0 {
      ToUrlSafePadding("");
    } else if |b| == 1 {
      ToUrlSafePair(S0(b[0]), S1(b[0], 0));
    } else {
      ToUrlSafeTriple(S0(b[0]), S1(b[0], b[1]), S2(b[1], 0));
    }
  }

  /** Four standard characters ahead of any tail are translated one by one. */
  lemma ToUrlSafeQuad(v0: sextet, v1: sextet, v2: sextet, v3: sextet, tail: string)
    ensures ToUrlSafe([StdChar(v0), StdChar(v1), StdChar(v2), StdChar(v3)] + tail)
         == [UrlChar(v0), UrlChar(v1), UrlChar(v2), UrlChar(v3)] + ToUrlSafe(tail)
  {
    assert [StdChar(v0), StdChar(v1), StdChar(v2), StdChar(v3)] + tail
        == [StdChar(v0)] + ([StdChar(v1)] + ([StdChar(v2)] + ([StdChar(v3)] + tail)));
    ToUrlSafeCons(v0, [StdChar(v1)] + ([StdChar(v2)] + ([StdChar(v3)] + tail)));
    ToUrlSafeCons(v1, [StdChar(v2)] + ([StdChar(v3)] + tail));
    ToUrlSafeCons(v2, [StdChar(v3)] + tail);
    ToUrlSafeCons(v3, tail);
    var u := ToUrlSafe(tail);
    assert [UrlChar(v0)] + ([UrlChar(v1)] + ([UrlChar(v2)] + ([UrlChar(v3)] + u)))
        == [UrlChar(v0), UrlChar(v1), UrlChar(v2), UrlChar(v3)] + u;
  }

  /** A full group of three bytes is translated character by character. */
  lemma FullGroupIsEncode(b: seq<byte>)
    requires |b| >= 3
    requires ToUrlSafe(Btoa(b[3..])) == Encode(b[3..])
    ensures ToUrlSafe(Btoa(b)) == Encode(b)
  {
    var v0, v1, v2, v3 := S0(b[0]), S1(b[0], b[1]), S2(b[1], b[2]), S3(b[2]);
    assert Btoa(b) == [StdChar(v0), StdChar(v1), StdChar(v2), StdChar(v3)] + Btoa(b[3..]);
    ToUrlSafeQuad(v0, v1, v2, v3, Btoa(b[3..]));
  }

  /** The source's btoa-then-replace pipeline computes exactly unpadded base64url. */
  lemma {:induction false} GenerateIsEncode(b: seq<byte>)
    ensures GenerateRandomString(b) == Encode(b)
    decreases |b|
  {
    assert GenerateRandomString(b) == ToUrlSafe(Btoa(b));
    if |b| < 3 {
      ShortGroupIsEncode(b);
    } else {
      GenerateIsEncode(b[3..]);
      assert GenerateRandomString(b[3..]) == ToUrlSafe(Btoa(b[3..]));
      FullGroupIsEncode(b);
    }
  }

  /** The state token: 32 random bytes give a 43-character URL-safe string. */
  lemma StateTokenShape(b: seq<byte>)
    requires |b| == 32
    ensures |GenerateRandomString(b)| == 43
    ensures forall c :: c in GenerateRandomString(b) ==> IsUrlSafeChar(c)
    ensures Decode(GenerateRandomString(b)) == Some(b)
  {
    GenerateIsEncode(b);
    EncodeLength(b);
    DecodeEncode(b);
  }
}
