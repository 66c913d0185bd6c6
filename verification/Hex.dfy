/** Bytes and base16 (section 8 of RFC 4648), as Python's `bytes.hex().upper()` and `bytes.fromhex` treat them. */
module Hex {
  import opened Wrappers

  type byte = b: int | 0 <= b < 256

  function Digit(n: int): char
    requires 0 <= n < 16
  {
    if n < 10 then ('0' as int + n) as char else ('A' as int + n - 10) as char
  }

  /** The value of a hexadecimal digit of either case. */
  function DigitValue(c: char): (r: Option<int>)
    ensures r.Some? ==> 0 <= r.value < 16
  {
    if '0' <= c <= '9' then Some(c as int - '0' as int)
    else if 'A' <= c <= 'F' then Some(c as int - 'A' as int + 10)
    else if 'a' <= c <= 'f' then Some(c as int - 'a' as int + 10)
    else None
  }

  function Pair(b: byte): (r: string)
    ensures |r| == 2
  {
    [Digit(b / 16), Digit(b % 16)]
  }

  function Upper(bytes: seq<byte>): (r: string)
    ensures |r| == 2 * |bytes|
  {
    if bytes == [] then "" else Pair(bytes[0]) + Upper(bytes[1..])
  }

  /** ASCII white space, skipped between pairs of digits. */
  predicate IsSpace(c: char) {
    c == ' ' || '\t' <= c <= '\r'
  }

  /** `bytes.fromhex`; None where it raises. */
  function FromHex(s: string): Option<seq<byte>> {
    if s == "" then Some([])
    else if IsSpace(s[0]) then FromHex(s[1..])
    else if |s| == 1 || DigitValue(s[0]).None? || DigitValue(s[1]).None? then None
    else
      var b := 16 * DigitValue(s[0]).value + DigitValue(s[1]).value;
      var rest := FromHex(s[2..]);
      if rest.None? then None else Some([b] + rest.value)
  }

  /** White space before a pair of digits is skipped; any other character where a digit should be is an error. */
  lemma SkippedIff(c: char, s: string)
    ensures c in {' ', '\t', '\n', '\U{000B}', '\U{000C}', '\r'} ==> FromHex([c] + s) == FromHex(s)
    ensures c !in {' ', '\t', '\n', '\U{000B}', '\U{000C}', '\r'}
            && !('0' <= c <= '9' || 'A' <= c <= 'F' || 'a' <= c <= 'f') ==>
              FromHex([c] + s) == None && (s != "" && FromHex(s[1..]).Some? ==> FromHex(['0', c] + s) == None)
  {
    assert ([c] + s)[1..] == s;
    assert (['0', c] + s)[1..] == [c] + s;
  }

  predicate NoSpace(s: string) {
    forall i :: 0 <= i < |s| ==> !IsSpace(s[i])
  }

  function UpperChar(c: char): char {
    if 'a' <= c <= 'z' then (c as int - 32) as char else c
  }

  /** The upper case of an ASCII string. */
  function UpperCase(s: string): (r: string)
    ensures |r| == |s|
  {
    seq(|s|, i requires 0 <= i < |s| => UpperChar(s[i]))
  }

  lemma {:induction false} FromUpper(bytes: seq<byte>)
    ensures FromHex(Upper(bytes)) == Some(bytes)
  {
    if bytes != [] {
      FromUpper(bytes[1..]);
      DigitBack(bytes[0] / 16);
      DigitBack(bytes[0] % 16);
      var s := Upper(bytes);
      assert s[0] == Digit(bytes[0] / 16) && s[1] == Digit(bytes[0] % 16) && s[2..] == Upper(bytes[1..]);
      ReadPair(s);
      assert bytes == [16 * (bytes[0] / 16) + bytes[0] % 16] + bytes[1..];
    }
  }

  lemma DigitBack(n: int)
    requires 0 <= n < 16
    ensures DigitValue(Digit(n)) == Some(n)
  {
  }

  /** Reading one pair of digits, then the rest. */
  lemma ReadPair(s: string)
    requires |s| >= 2 && DigitValue(s[0]).Some? && DigitValue(s[1]).Some?
    ensures var b: byte := 16 * DigitValue(s[0]).value + DigitValue(s[1]).value;
            FromHex(s) == if FromHex(s[2..]).None? then None else Some([b] + FromHex(s[2..]).value)
  {
    NotSpace(s[0]);
  }

  lemma UpperInjective(a: seq<byte>, b: seq<byte>)
    requires Upper(a) == Upper(b)
    ensures a == b
  {
    FromUpper(a);
    FromUpper(b);
  }

  /** Reading hexadecimal and writing it again gives the upper case of what was read, if no white space was skipped. */
  lemma {:induction false} UpperFrom(s: string)
    requires FromHex(s).Some?
    ensures NoSpace(s) ==> Upper(FromHex(s).value) == UpperCase(s)
    ensures |Upper(FromHex(s).value)| <= |s|
    ensures !NoSpace(s) ==> |Upper(FromHex(s).value)| < |s|
  {
    if s == "" {
    } else if IsSpace(s[0]) {
      UpperFrom(s[1..]);
    } else {
      UpperFrom(s[2..]);
      NotSpace(s[0]);
      NotSpace(s[1]);
      PairUpper(s[0], s[1]);
      assert FromHex(s).value[1..] == FromHex(s[2..]).value;
      assert UpperCase(s) == [UpperChar(s[0]), UpperChar(s[1])] + UpperCase(s[2..]);
      NoSpaceAfter(s);
    }
  }

  lemma NoSpaceAfter(s: string)
    requires |s| >= 2 && !IsSpace(s[0]) && !IsSpace(s[1])
    ensures NoSpace(s) <==> NoSpace(s[2..])
  {
    assert forall i :: 2 <= i < |s| ==> s[i] == s[2..][i - 2];
  }

  lemma NotSpace(c: char)
    requires DigitValue(c).Some?
    ensures !IsSpace(c)
  {
  }

  lemma PairUpper(c: char, d: char)
    requires DigitValue(c).Some? && DigitValue(d).Some?
    ensures Pair(16 * DigitValue(c).value + DigitValue(d).value) == [UpperChar(c), UpperChar(d)]
  {
    DigitUpper(c);
    DigitUpper(d);
  }

  lemma DigitUpper(c: char)
    requires DigitValue(c).Some?
    ensures Digit(DigitValue(c).value) == UpperChar(c)
  {
  }

  /** Upper case does not change what is read, nor (below) where the white space is. */
  lemma {:induction false} UpperCaseReadsSame(s: string)
    ensures FromHex(UpperCase(s)) == FromHex(s)
    decreases |s|
  {
    var u := UpperCase(s);
    if s == "" {
    } else if IsSpace(s[0]) {
      UpperCharReadsSame(s[0]);
      assert u[1..] == UpperCase(s[1..]);
      UpperCaseReadsSame(s[1..]);
    } else {
      UpperCharReadsSame(s[0]);
      if |s| >= 2 && DigitValue(s[0]).Some? && DigitValue(s[1]).Some? {
        UpperCharReadsSame(s[1]);
        assert u[2..] == UpperCase(s[2..]);
        UpperCaseReadsSame(s[2..]);
        ReadPair(s);
        ReadPair(u);
      } else {
        if |s| >= 2 {
          UpperCharReadsSame(s[1]);
        }
        assert FromHex(s) == None && FromHex(u) == None;
      }
    }
  }

  lemma UpperCaseSpacesSame(s: string)
    ensures NoSpace(UpperCase(s)) <==> NoSpace(s)
  {
    forall i | 0 <= i < |s| ensures IsSpace(UpperCase(s)[i]) <==> IsSpace(s[i]) {
      UpperCharReadsSame(s[i]);
    }
  }

  lemma UpperCharReadsSame(c: char)
    ensures DigitValue(UpperChar(c)) == DigitValue(c) && (IsSpace(UpperChar(c)) <==> IsSpace(c))
  {
  }

  lemma {:induction false} UpperHasNoSpace(bytes: seq<byte>)
    ensures NoSpace(Upper(bytes))
  {
    if bytes != [] {
      UpperHasNoSpace(bytes[1..]);
      DigitBack(bytes[0] / 16);
      DigitBack(bytes[0] % 16);
      NotSpace(Digit(bytes[0] / 16));
      NotSpace(Digit(bytes[0] % 16));
    }
  }
}
