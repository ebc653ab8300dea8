/** The UTF-8 acceptor: exactly the concatenations of encoded Unicode scalar values (RFC 3629, sections 3 and 4). */
module Utf8 {

  type Byte = b: nat | b < 256

  predicate Scalar(c: nat) { c <= 0x10_FFFF && !(0xD800 <= c <= 0xDFFF) }

  predicate AllScalars(cs: seq<nat>) { forall k :: 0 <= k < |cs| ==> Scalar(cs[k]) }

  /** The shortest form of one scalar value, by section 3. */
  function Encode(c: nat): (bytes: seq<Byte>)
    requires Scalar(c)
    ensures 1 <= |bytes| <= 4
  {
    if c <= 0x7F then [c]
    else if c <= 0x7FF then [0xC0 + c / 64, 0x80 + c % 64]
    else if c <= 0xFFFF then [0xE0 + c / 4096, 0x80 + c / 64 % 64, 0x80 + c % 64]
    else [0xF0 + c / 262144, 0x80 + c / 4096 % 64, 0x80 + c / 64 % 64, 0x80 + c % 64]
  }

  function Encodings(cs: seq<nat>): seq<Byte>
    requires AllScalars(cs)
  {
    if cs == [] then [] else Encode(cs[0]) + Encodings(cs[1..])
  }

  /** Some scalar sequence encodes to these bytes. */
  ghost predicate Decodable(s: seq<Byte>) {
    exists cs :: AllScalars(cs) && Encodings(cs) == s
  }

  // ----- one scalar at the front -----

  predicate Continues(b: Byte) { 0x80 <= b <= 0xBF }

  /** The length the lead byte announces. */
  function LeadLength(b: Byte): nat {
    if b <= 0x7F then 1 else if b <= 0xDF then 2 else if b <= 0xEF then 3 else 4
  }

  lemma EncodedShape(c: nat)
    requires Scalar(c)
    ensures var e := Encode(c);
      && |e| == LeadLength(e[0]) && (|e| > 1 ==> 0xC2 <= e[0] <= 0xF4) && (forall k :: 1 <= k < |e| ==> Continues(e[k]))
      && (|e| == 3 && e[0] == 0xE0 ==> e[1] >= 0xA0) && (|e| == 3 && e[0] == 0xED ==> e[1] <= 0x9F)
      && (|e| == 4 && e[0] == 0xF0 ==> e[1] >= 0x90) && (|e| == 4 && e[0] == 0xF4 ==> e[1] <= 0x8F)
  {
  }

  function Offset(b: Byte, base: int): int { b as int - base }

  function Value(e: seq<Byte>): int {
    if |e| == 1 then e[0] as int
    else if |e| == 2 then Offset(e[0], 0xC0) * 64 + Offset(e[1], 0x80)
    else if |e| == 3 then Offset(e[0], 0xE0) * 4096 + Offset(e[1], 0x80) * 64 + Offset(e[2], 0x80)
    else if |e| == 4 then Offset(e[0], 0xF0) * 262144 + Offset(e[1], 0x80) * 4096 + Offset(e[2], 0x80) * 64 + Offset(e[3], 0x80)
    else 0
  }

  lemma Digits(c: nat)
    ensures c == c / 64 * 64 + c % 64 && c / 64 == c / 4096 * 64 + c / 64 % 64 && c / 4096 == c / 262144 * 64 + c / 4096 % 64
  {
  }

  lemma ValueOfEncoded(c: nat)
    requires Scalar(c)
    ensures Value(Encode(c)) == c
  {
    Digits(c);
    if 0x7FF < c <= 0xFFFF {
      assert Value(Encode(c)) == c / 4096 * 4096 + c / 64 % 64 * 64 + c % 64;
    } else if c > 0xFFFF {
      assert Value(Encode(c)) == c / 262144 * 262144 + c / 4096 % 64 * 4096 + c / 64 % 64 * 64 + c % 64;
    }
  }

  /** Two scalars whose encodings start the same bytes are the same. */
  lemma PrefixFree(c: nat, d: nat, s: seq<Byte>)
    requires Scalar(c) && Scalar(d) && Encode(c) <= s && Encode(d) <= s
    ensures c == d
  {
    EncodedShape(c);
    EncodedShape(d);
    ValueOfEncoded(c);
    ValueOfEncoded(d);
    assert Encode(c)[0] == s[0] == Encode(d)[0];
    assert Encode(c) == s[..|Encode(c)|] == Encode(d);
  }

  lemma DecodeTwo(a: Byte, b: Byte)
    requires 0xC2 <= a <= 0xDF && Continues(b)
    ensures var c := Value([a, b]); 0x80 <= c && Scalar(c) && Encode(c) == [a, b]
  {
    var c := Value([a, b]);
    assert c / 64 == a - 0xC0 && c % 64 == b - 0x80;
  }

  lemma DecodeThree(a: Byte, b: Byte, d: Byte)
    requires 0xE0 <= a <= 0xEF && Continues(b) && Continues(d) && (a == 0xE0 ==> b >= 0xA0) && (a == 0xED ==> b <= 0x9F)
    ensures var c := Value([a, b, d]); 0x800 <= c && Scalar(c) && Encode(c) == [a, b, d]
  {
    var c := Value([a, b, d]);
    assert c / 64 == (a - 0xE0) * 64 + (b - 0x80) && c % 64 == d - 0x80;
    assert c / 4096 == a - 0xE0;
  }

  lemma DecodeFour(a: Byte, b: Byte, d: Byte, f: Byte)
    requires 0xF0 <= a <= 0xF4 && Continues(b) && Continues(d) && Continues(f)
    requires (a == 0xF0 ==> b >= 0x90) && (a == 0xF4 ==> b <= 0x8F)
    ensures var c := Value([a, b, d, f]); 0x1_0000 <= c && Scalar(c) && Encode(c) == [a, b, d, f]
  {
    var c := Value([a, b, d, f]);
    assert c / 64 == (a - 0xF0) * 4096 + (b - 0x80) * 64 + (d - 0x80) && c % 64 == f - 0x80;
    assert c / 4096 == (a - 0xF0) * 64 + (b - 0x80);
    assert c / 262144 == a - 0xF0;
  }

  // ----- sequences -----

  /** Taking one encoded scalar off the front changes nothing about decodability. */
  lemma StripScalar(c: nat, s: seq<Byte>)
    requires Scalar(c) && Encode(c) <= s
    ensures Decodable(s) <==> Decodable(s[|Encode(c)|..])
  {
    var rest := s[|Encode(c)|..];
    assert s == Encode(c) + rest;
    if Decodable(s) {
      var cs :| AllScalars(cs) && Encodings(cs) == s;
      assert cs != [];
      PrefixFree(cs[0], c, s);
      assert AllScalars(cs[1..]) && Encodings(cs[1..]) == rest;
    }
    if Decodable(rest) {
      var cs :| AllScalars(cs) && Encodings(cs) == rest;
      assert ([c] + cs)[1..] == cs;
      assert AllScalars([c] + cs) && Encodings([c] + cs) == s;
    }
  }

  /** The scalar sequence behind accepted bytes is unique. */
  lemma {:induction false} DecodingIsUnique(a: seq<nat>, b: seq<nat>)
    requires AllScalars(a) && AllScalars(b) && Encodings(a) == Encodings(b)
    ensures a == b
  {
    if a != [] && b != [] {
      PrefixFree(a[0], b[0], Encodings(a));
      assert Encodings(a[1..]) == Encodings(a)[|Encode(a[0])|..] == Encodings(b[1..]);
      DecodingIsUnique(a[1..], b[1..]);
      assert a == [a[0]] + a[1..] && b == [b[0]] + b[1..];
    }
  }

  /** What a byte string must look like for a scalar to start it. */
  ghost predicate Front(s: seq<Byte>) {
    exists c :: Scalar(c) && Encode(c) <= s
  }

  lemma FrontShape(s: seq<Byte>)
    requires s != [] && Front(s)
    ensures LeadLength(s[0]) <= |s| && (s[0] > 0x7F ==> 0xC2 <= s[0] <= 0xF4)
    ensures forall k :: 1 <= k < LeadLength(s[0]) ==> Continues(s[k])
    ensures (s[0] == 0xE0 ==> s[1] >= 0xA0) && (s[0] == 0xED ==> s[1] <= 0x9F)
    ensures (s[0] == 0xF0 ==> s[1] >= 0x90) && (s[0] == 0xF4 ==> s[1] <= 0x8F)
  {
    var c :| Scalar(c) && Encode(c) <= s;
    EncodedShape(c);
    assert forall k :: 0 <= k < |Encode(c)| ==> s[k] == Encode(c)[k];
  }

  /** Whatever decodes starts with an encoded scalar. */
  lemma DecodableHasFront(s: seq<Byte>)
    requires s != [] && Decodable(s)
    ensures Front(s)
  {
    var cs :| AllScalars(cs) && Encodings(cs) == s;
    assert Encode(cs[0]) <= s;
  }

  method ValidUtf8(data: seq<Byte>) returns (ok: bool)
    ensures ok <==> Decodable(data)
  {
    var index := 0;
    while index < |data|
      invariant index <= |data| && (Decodable(data[index..]) <==> Decodable(data))
    {
      ghost var rest := data[index..];
      if Decodable(rest) { DecodableHasFront(rest); }
      if Front(rest) { FrontShape(rest); }
      var first := data[index];
      index := index + 1;
      if first <= 0x7F {
        assert Encode(first) <= rest;
        StripScalar(first, rest);
        continue;
      }
      if 0xC2 <= first <= 0xDF {
        if index >= |data| || data[index] < 0x80 || data[index] > 0xBF { return false; }
        DecodeTwo(first, data[index]);
        StripScalar(Value([first, data[index]]), rest);
        index := index + 1;
        continue;
      }
      if 0xE0 <= first <= 0xEF {
        if index + 1 >= |data| { return false; }
        var second := data[index];
        if second < 0x80 || second > 0xBF || data[index + 1] < 0x80 || data[index + 1] > 0xBF
           || (first == 0xE0 && second < 0xA0) || (first == 0xED && second > 0x9F) { return false; }
        DecodeThree(first, second, data[index + 1]);
        StripScalar(Value([first, second, data[index + 1]]), rest);
        index := index + 2;
        continue;
      }
      if 0xF0 <= first <= 0xF4 {
        if index + 2 >= |data| { return false; }
        var second := data[index];
        if second < 0x80 || second > 0xBF || data[index + 1] < 0x80 || data[index + 1] > 0xBF
           || data[index + 2] < 0x80 || data[index + 2] > 0xBF
           || (first == 0xF0 && second < 0x90) || (first == 0xF4 && second > 0x8F) { return false; }
        DecodeFour(first, second, data[index + 1], data[index + 2]);
        StripScalar(Value([first, second, data[index + 1], data[index + 2]]), rest);
        index := index + 3;
        continue;
      }
      return false;
    }
    ok := true;
    assert AllScalars([]) && Encodings([]) == data[index..];
  }
}
