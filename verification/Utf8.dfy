/** UTF-8 (sections 3 and 4 of RFC 3629): encoding strings of Unicode scalar values, and strict decoding. */
module Utf8 {
  import opened Wrappers
  import opened Hex

  predicate IsScalar(n: int) {
    0 <= n < 0xD800 || 0xE000 <= n < 0x11_0000
  }

  /** A continuation byte carrying the six bits `n`. */
  function Tail(n: int): byte
    requires 0 <= n < 64
  {
    0x80 + n
  }

  predicate IsTail(b: byte) {
    0x80 <= b < 0xC0
  }

  function EncodeScalar(n: int): (r: seq<byte>)
    requires IsScalar(n)
    ensures 1 <= |r| <= 4
  {
    if n < 0x80 then [n]
    else if n < 0x800 then [0xC0 + n / 64, Tail(n % 64)]
    else if n < 0x1_0000 then [0xE0 + n / 4096, Tail(n / 64 % 64), Tail(n % 64)]
    else [0xF0 + n / 262144, Tail(n / 4096 % 64), Tail(n / 64 % 64), Tail(n % 64)]
  }

  function Encode(s: string): seq<byte> {
    if s == "" then [] else EncodeScalar(s[0] as int) + Encode(s[1..])
  }

  /**
   The scalar value that the bytes begin with and how many bytes it takes; None for stray or missing
   continuation bytes, overlong forms, surrogates and values past 10FFFF.
   */
  function DecodeFirst(b: seq<byte>): (r: Option<(int, nat)>)
    requires b != []
    ensures r.Some? ==> IsScalar(r.value.0) && 1 <= r.value.1 <= |b|
  {
    if b[0] < 0x80 then Some((b[0], 1))
    else if b[0] < 0xC2 then None
    else if b[0] < 0xE0 then
      if |b| >= 2 && IsTail(b[1]) then Some((Join2(b[0] - 0xC0, Bits(b[1])), 2)) else None
    else if b[0] < 0xF0 then
      if |b| >= 3 && IsTail(b[1]) && IsTail(b[2]) then
        var n := Join3(b[0] - 0xE0, Bits(b[1]), Bits(b[2]));
        if n >= 0x800 && IsScalar(n) then Some((n, 3)) else None
      else None
    else if b[0] < 0xF5 && |b| >= 4 && IsTail(b[1]) && IsTail(b[2]) && IsTail(b[3]) then
      var n := Join4(b[0] - 0xF0, Bits(b[1]), Bits(b[2]), Bits(b[3]));
      if n >= 0x1_0000 && IsScalar(n) then Some((n, 4)) else None
    else None
  }

  function Bits(b: byte): (n: int)
    requires IsTail(b)
    ensures 0 <= n < 64
  {
    b as int - 0x80
  }

  function Join2(h: int, i: int): int {
    h * 64 + i
  }

  function Join3(h: int, i: int, j: int): int {
    h * 4096 + i * 64 + j
  }

  function Join4(h: int, i: int, j: int, k: int): int {
    h * 262144 + i * 4096 + j * 64 + k
  }

  lemma Split2(n: int)
    ensures n == Join2(n / 64, n % 64)
  {
  }

  lemma Split3(n: int)
    ensures n == Join3(n / 4096, n / 64 % 64, n % 64)
  {
    assert n / 64 / 64 == n / 4096;
    Split2(n / 64);
  }

  lemma Split4(n: int)
    ensures n == Join4(n / 262144, n / 4096 % 64, n / 64 % 64, n % 64)
  {
    assert n / 64 / 4096 == n / 262144 && n / 64 / 64 == n / 4096;
    Split3(n / 64);
  }

  lemma Unjoin2(h: int, i: int)
    requires 0 <= i < 64
    ensures Join2(h, i) / 64 == h && Join2(h, i) % 64 == i
  {
  }

  lemma Unjoin3(h: int, i: int, j: int)
    requires 0 <= i < 64 && 0 <= j < 64
    ensures var n := Join3(h, i, j); n / 4096 == h && n / 64 % 64 == i && n % 64 == j
  {
    var n := Join3(h, i, j);
    Unjoin2(Join2(h, i), j);
    Unjoin2(h, i);
    assert n / 64 / 64 == n / 4096;
  }

  lemma Unjoin4(h: int, i: int, j: int, k: int)
    requires 0 <= i < 64 && 0 <= j < 64 && 0 <= k < 64
    ensures var n := Join4(h, i, j, k); n / 262144 == h && n / 4096 % 64 == i && n / 64 % 64 == j && n % 64 == k
  {
    var n := Join4(h, i, j, k);
    Unjoin2(Join3(h, i, j), k);
    Unjoin3(h, i, j);
    assert n / 64 / 4096 == n / 262144 && n / 64 / 64 == n / 4096;
  }

  /** Strict decoding; None where `bytes.decode("utf-8")` raises. */
  function Decode(b: seq<byte>): Option<string> {
    if b == [] then Some("")
    else
      var first := DecodeFirst(b);
      if first.None? then None
      else
        var rest := Decode(b[first.value.1..]);
        if rest.None? then None else Some([first.value.0 as char] + rest.value)
  }

  lemma DecodeFirstOfEncoded(n: int, rest: seq<byte>)
    requires IsScalar(n)
    ensures DecodeFirst(EncodeScalar(n) + rest) == Some((n, |EncodeScalar(n)|))
  {
    if 0x80 <= n < 0x800 {
      Split2(n);
    } else if 0x800 <= n < 0x1_0000 {
      Split3(n);
    } else if n >= 0x1_0000 {
      Split4(n);
    }
  }

  lemma EncodeOfDecodedFirst(b: seq<byte>)
    requires b != [] && DecodeFirst(b).Some?
    ensures EncodeScalar(DecodeFirst(b).value.0) == b[..DecodeFirst(b).value.1]
  {
    if 0xC2 <= b[0] < 0xE0 {
      Unjoin2(b[0] - 0xC0, Bits(b[1]));
    } else if 0xE0 <= b[0] < 0xF0 {
      Unjoin3(b[0] - 0xE0, Bits(b[1]), Bits(b[2]));
    } else if 0xF0 <= b[0] {
      Unjoin4(b[0] - 0xF0, Bits(b[1]), Bits(b[2]), Bits(b[3]));
    }
  }

  /** Decoding an encoded string gives it back. */
  lemma {:induction false} DecodeEncode(s: string)
    ensures Decode(Encode(s)) == Some(s)
  {
    if s != "" {
      var n := s[0] as int;
      DecodeEncode(s[1..]);
      DecodeFirstOfEncoded(n, Encode(s[1..]));
      assert Encode(s)[|EncodeScalar(n)|..] == Encode(s[1..]);
      assert [n as char] + s[1..] == s;
    }
  }

  /** Encoding what was decoded gives the bytes back: no other bytes decode to the same string. */
  lemma {:induction false} EncodeDecode(b: seq<byte>)
    requires Decode(b).Some?
    ensures Encode(Decode(b).value) == b
  {
    if b != [] {
      var first := DecodeFirst(b).value;
      EncodeDecode(b[first.1..]);
      EncodeOfDecodedFirst(b);
      var s := Decode(b).value;
      assert s[1..] == Decode(b[first.1..]).value;
      assert b[..first.1] + b[first.1..] == b;
    }
  }

  /**
   The bytes are those of the table in section 3 of RFC 3629: how many a value takes, what the first begins
   with, and six bits in each that follows.
   */
  lemma EncodedForm(n: int)
    requires IsScalar(n)
    ensures var b := EncodeScalar(n);
            if n <= 0x7F then b == [n]
            else if n <= 0x7FF then
              |b| == 2 && 0xC0 <= b[0] < 0xE0 && Follows(b[1])
              && n == (b[0] as int - 0xC0) * 64 + (b[1] as int - 0x80)
            else if n <= 0xFFFF then
              |b| == 3 && 0xE0 <= b[0] < 0xF0 && Follows(b[1]) && Follows(b[2])
              && n == (b[0] as int - 0xE0) * 4096 + (b[1] as int - 0x80) * 64 + (b[2] as int - 0x80)
            else
              |b| == 4 && 0xF0 <= b[0] < 0xF8 && Follows(b[1]) && Follows(b[2]) && Follows(b[3])
              && n == (b[0] as int - 0xF0) * 262144 + (b[1] as int - 0x80) * 4096 + (b[2] as int - 0x80) * 64
                      + (b[3] as int - 0x80)
  {
    if 0x80 <= n < 0x800 {
      Split2(n);
    } else if 0x800 <= n < 0x1_0000 {
      Split3(n);
    } else if n >= 0x1_0000 {
      Split4(n);
    }
  }

  predicate Follows(b: byte) {
    0x80 <= b <= 0xBF
  }

  /** A string is encoded value by value, in order. */
  lemma {:induction false} EncodeConcat(s: string, t: string)
    ensures Encode(s + t) == Encode(s) + Encode(t)
  {
    if s == "" {
      assert s + t == t;
    } else {
      EncodeConcat(s[1..], t);
      assert (s + t)[1..] == s[1..] + t && (s + t)[0] == s[0];
      var first := EncodeScalar(s[0] as int);
      assert first + (Encode(s[1..]) + Encode(t)) == first + Encode(s[1..]) + Encode(t);
    }
  }

  /** One character more adds its own bytes, at the end. */
  lemma EncodeAppend(s: string, c: char)
    ensures Encode(s + [c]) == Encode(s) + EncodeScalar(c as int)
  {
    EncodeConcat(s, [c]);
    assert [c][1..] == "";
    assert Encode([c]) == EncodeScalar(c as int) + [];
  }

  lemma EncodeInjective(s: string, t: string)
    requires Encode(s) == Encode(t)
    ensures s == t
  {
    DecodeEncode(s);
    DecodeEncode(t);
  }

  lemma {:induction false} EncodeLength(s: string)
    ensures |Encode(s)| >= |s|
  {
    if s != "" {
      EncodeLength(s[1..]);
    }
  }
}
