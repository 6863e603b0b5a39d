/** Base64, Base64Url and hex between bytes and text. Masks and shifts of bytes are written as remainders and
    quotients. Characters outside the seven-bit range count as invalid. */
module Encode {
  type Byte = b: int | 0 <= b < 256

  const NUL: char := '\0'
  const PAD: char := '='

  datatype Result = Ok(bytes: seq<Byte>) | FormatError

  // ---------------------------------------------------------------------------------------------
  // Alphabets, sections 4, 5 and 8 of RFC 4648

  function Base64Char(n: int): char
    requires 0 <= n < 64
  {
    if n < 26 then 'A' + n as char
    else if n < 52 then 'a' + (n - 26) as char
    else if n < 62 then '0' + (n - 52) as char
    else if n == 62 then '+'
    else '/'
  }

  function UrlChar(n: int): char
    requires 0 <= n < 64
  {
    if n == 62 then '-' else if n == 63 then '_' else Base64Char(n)
  }

  /** The value of a character, or -1. */
  function Base64Value(c: char): (n: int)
    ensures -1 <= n < 64
    ensures n != -1 ==> Base64Char(n) == c && c != PAD
  {
    if 'A' <= c <= 'Z' then (c - 'A') as int
    else if 'a' <= c <= 'z' then (c - 'a') as int + 26
    else if '0' <= c <= '9' then (c - '0') as int + 52
    else if c == '+' then 62
    else if c == '/' then 63
    else -1
  }

  lemma Base64CharValue(n: int)
    requires 0 <= n < 64
    ensures Base64Value(Base64Char(n)) == n && Base64Char(n) != PAD
  {
  }

  function HexChar(n: int): char
    requires 0 <= n < 16
  {
    if n < 10 then '0' + n as char else 'a' + (n - 10) as char
  }

  function HexValue(c: char): (n: int)
    ensures -1 <= n < 16
  {
    if '0' <= c <= '9' then (c - '0') as int
    else if 'A' <= c <= 'F' then (c - 'A') as int + 10
    else if 'a' <= c <= 'f' then (c - 'a') as int + 10
    else -1
  }

  /** The alphabets of sections 4 and 5 of RFC 4648. */
  lemma Alphabets(n: int)
    requires 0 <= n < 64
    ensures n < 26 ==> Base64Char(n) == UrlChar(n) == "ABCDEFGHIJKLMNOPQRSTUVWXYZ"[n]
    ensures 26 <= n < 52 ==> Base64Char(n) == UrlChar(n) == "abcdefghijklmnopqrstuvwxyz"[n - 26]
    ensures 52 <= n < 62 ==> Base64Char(n) == UrlChar(n) == "0123456789"[n - 52]
    ensures n >= 62 ==> Base64Char(n) == "+/"[n - 62] && UrlChar(n) == "-_"[n - 62]
  {
  }

  /** A character has the value whose character it is. */
  lemma ValueOfChar(n: int, c: char)
    requires 0 <= n < 64
    ensures Base64Value(c) == n <==> c == Base64Char(n)
  {
    Base64CharValue(n);
    hide Base64Char;
  }

  /** The digits of section 8 of RFC 4648, written in lower case and read in either. */
  lemma HexDigits(n: int, c: char)
    requires 0 <= n < 16
    ensures HexChar(n) == "0123456789abcdef"[n]
    ensures HexValue(c) == n <==> c == "0123456789abcdef"[n] || c == "0123456789ABCDEF"[n]
  {
  }

  // ---------------------------------------------------------------------------------------------
  // Base64: groups of three bytes and four characters

  function Quad(a: Byte, b: Byte, c: Byte): string {
    [Base64Char(a / 4), Base64Char(a % 4 * 16 + b / 16), Base64Char(b % 16 * 4 + c / 64), Base64Char(c % 64)]
  }

  function Quad2(a: Byte, b: Byte): string {
    [Base64Char(a / 4), Base64Char(a % 4 * 16 + b / 16), Base64Char(b % 16 * 4), PAD]
  }

  function Quad1(a: Byte): string {
    [Base64Char(a / 4), Base64Char(a % 4 * 16), PAD, PAD]
  }

  /** The text of some bytes. */
  function Base64(s: seq<Byte>): string {
    if |s| == 0 then ""
    else if |s| == 1 then Quad1(s[0])
    else if |s| == 2 then Quad2(s[0], s[1])
    else Quad(s[0], s[1], s[2]) + Base64(s[3..])
  }

  /** Three bytes and their four characters are the same 24-bit number. */
  lemma QuadIsNumber(a: Byte, b: Byte, c: Byte)
    ensures var q := Quad(a, b, c);
            Base64Value(q[0]) * 0x40000 + Base64Value(q[1]) * 0x1000 + Base64Value(q[2]) * 0x40 + Base64Value(q[3])
            == a * 0x10000 + b * 0x100 + c
  {
    Base64CharValue(a / 4);
    Base64CharValue(a % 4 * 16 + b / 16);
    Base64CharValue(b % 16 * 4 + c / 64);
    Base64CharValue(c % 64);
  }

  function Base64Size(n: nat): nat {
    (n + 2) / 3 * 4
  }

  lemma {:induction false} Base64SizeExact(s: seq<Byte>)
    ensures |Base64(s)| == Base64Size(|s|)
  {
    if |s| >= 3 {
      Base64SizeExact(s[3..]);
    }
  }

  /** What is left of the source at an index that may have run past its end. */
  function From<T>(s: seq<T>, i: nat): seq<T> {
    if i <= |s| then s[i..] else []
  }

  /** The characters of the first group. */
  function FirstQuad(s: seq<Byte>): (q: string)
    requires s != []
    ensures |q| == 4
  {
    if |s| == 1 then Quad1(s[0]) else if |s| == 2 then Quad2(s[0], s[1]) else Quad(s[0], s[1], s[2])
  }

  lemma Base64Step(s: seq<Byte>, done: string)
    requires s != []
    ensures done + Base64(s) == done + FirstQuad(s) + Base64(From(s, 3))
  {
    assert Base64(s) == FirstQuad(s) + Base64(From(s, 3));
  }

  /** Writes one group. */
  method PutQuad(source: seq<Byte>, i: nat, destination: array<char>, d: nat)
    requires i < |source| && d + 4 <= destination.Length
    modifies destination
    ensures destination[d..d + 4] == FirstQuad(source[i..])
    ensures forall k :: 0 <= k < destination.Length && !(d <= k < d + 4) ==> destination[k] == old(destination[k])
  {
    destination[d] := Base64Char(source[i] / 4);
    if |source| - i == 1 {
      destination[d + 1] := Base64Char(source[i] % 4 * 16);
      destination[d + 2] := PAD;
      destination[d + 3] := PAD;
    } else {
      destination[d + 1] := Base64Char(source[i] % 4 * 16 + source[i + 1] / 16);
      if |source| - i == 2 {
        destination[d + 2] := Base64Char(source[i + 1] % 16 * 4);
        destination[d + 3] := PAD;
      } else {
        destination[d + 2] := Base64Char(source[i + 1] % 16 * 4 + source[i + 2] / 64);
        destination[d + 3] := Base64Char(source[i + 2] % 64);
      }
    }
    assert destination[d..d + 4] == [destination[d], destination[d + 1], destination[d + 2], destination[d + 3]];
  }

  /** Writes the text of some bytes and a terminator into a buffer. */
  method EncodeBase64(source: seq<Byte>, destination: array<char>)
    requires Base64Size(|source|) < destination.Length
    modifies destination
    ensures destination[..Base64Size(|source|)] == Base64(source) && destination[Base64Size(|source|)] == NUL
    ensures forall k :: Base64Size(|source|) < k < destination.Length ==> destination[k] == old(destination[k])
  {
    hide Base64, FirstQuad;
    var d, i := 0, 0;
    Base64SizeExact(source);
    ghost var done: string := "";
    assert done + Base64(source) == Base64(source);
    while i < |source|
      invariant d == |done| <= Base64Size(|source|) && i <= |source| + 2
      invariant destination[..d] == done && done + Base64(From(source, i)) == Base64(source)
      invariant forall k :: Base64Size(|source|) < k < destination.Length ==> destination[k] == old(destination[k])
    {
      ghost var rest := source[i..];
      Base64Step(rest, done);
      assert From(rest, 3) == From(source, i + 3);
      assert |done + FirstQuad(rest)| <= |Base64(source)|;
      PutQuad(source, i, destination, d);
      assert destination[..d + 4] == done + FirstQuad(rest) by {
        assert destination[..d + 4] == destination[..d] + destination[d..d + 4];
      }
      done := done + FirstQuad(rest);
      d := d + 4;
      i := i + 3;
    }
    assert From(source, i) == [];
    NoBytes();
    assert done + "" == done;
    destination[d] := NUL;
  }

  lemma NoBytes()
    ensures Base64([]) == ""
  {
  }

  // ---------------------------------------------------------------------------------------------
  // Base64: what may be decoded

  predicate Digit(c: char) {
    Base64Value(c) != -1
  }

  /** The padded strings of section 4: full groups of four digits, the last of which may have one or two pads. */
  predicate Padded(s: string) {
    if s == "" then true
    else if |s| < 4 then false
    else if |s| == 4 then
      Digit(s[0]) && Digit(s[1]) && (if s[2] == PAD then s[3] == PAD else Digit(s[2]) && (s[3] == PAD || Digit(s[3])))
    else Digit(s[0]) && Digit(s[1]) && Digit(s[2]) && Digit(s[3]) && Padded(s[4..])
  }

  /** The same, position by position. */
  predicate CharOk(s: string, i: nat)
    requires i < |s|
  {
    if s[i] == PAD then i + 2 >= |s| && (i + 2 == |s| ==> s[|s| - 1] == PAD) else Digit(s[i])
  }

  lemma {:induction false} PaddedByPosition(s: string)
    ensures Padded(s) <==> |s| % 4 == 0 && forall i: nat {:trigger CharOk(s, i)} :: i < |s| ==> CharOk(s, i)
  {
    hide Base64Value;
    if |s| >= 4 {
      assert CharOk(s, 0) == Digit(s[0]) || |s| < 4;
      if |s| > 4 {
        var t := s[4..];
        PaddedByPosition(t);
        if |s| % 4 == 0 {
          forall i: nat | 4 <= i < |s| ensures CharOk(s, i) == CharOk(t, i - 4) {
          }
          if forall i: nat {:trigger CharOk(s, i)} :: i < |s| ==> CharOk(s, i) {
            assert CharOk(s, 0) && CharOk(s, 1) && CharOk(s, 2) && CharOk(s, 3);
            forall i: nat | i < |t| ensures CharOk(t, i) { assert CharOk(s, i + 4); }
          }
          if Padded(s) {
            forall i: nat | i < |s| ensures CharOk(s, i) {
              if i >= 4 { assert CharOk(t, i - 4); }
            }
          }
        }
      } else {
        PaddedFour(s);
      }
    }
  }

  lemma PaddedFour(s: string)
    requires |s| == 4
    ensures Padded(s) <==> CharOk(s, 0) && CharOk(s, 1) && CharOk(s, 2) && CharOk(s, 3)
    ensures (CharOk(s, 0) && CharOk(s, 1) && CharOk(s, 2) && CharOk(s, 3))
       <==> forall i: nat {:trigger CharOk(s, i)} :: i < |s| ==> CharOk(s, i)
  {
  }

  /** The validator accepts exactly the padded strings. */
  method ValidateBase64(source: string) returns (ok: bool)
    ensures ok <==> Padded(source)
  {
    PaddedByPosition(source);
    if |source| % 4 != 0 {
      return false;
    }
    var i := 0;
    while i < |source|
      invariant i <= |source| && forall j: nat {:trigger CharOk(source, j)} :: j < i ==> CharOk(source, j)
    {
      assert CharOk(source, i) || !Padded(source);
      if source[i] == PAD {
        if i < |source| - 2 {
          return false;
        }
        if i == |source| - 2 && source[|source| - 1] != PAD {
          return false;
        }
      } else if Base64Value(source[i]) == -1 {
        return false;
      }
      i := i + 1;
    }
    ok := true;
  }

  // ---------------------------------------------------------------------------------------------
  // Base64: decoding

  function First(s: string): Byte
    requires |s| >= 2 && Digit(s[0]) && Digit(s[1])
  {
    Base64Value(s[0]) * 4 + Base64Value(s[1]) / 16
  }

  function Second(s: string): Byte
    requires |s| >= 3 && Digit(s[1]) && Digit(s[2])
  {
    Base64Value(s[1]) % 16 * 16 + Base64Value(s[2]) / 4
  }

  function Third(s: string): Byte
    requires |s| >= 4 && Digit(s[2]) && Digit(s[3])
  {
    Base64Value(s[2]) % 4 * 64 + Base64Value(s[3])
  }

  predicate GroupOk(s: string) {
    |s| >= 4 && Digit(s[0]) && Digit(s[1]) && (s[2] == PAD || Digit(s[2]))
      && (s[3] == PAD || (Digit(s[2]) && Digit(s[3])))
  }

  /** The bytes of a group of four characters. */
  function Group(s: string): seq<Byte>
    requires GroupOk(s)
  {
    [First(s)] + (if s[2] == PAD then [] else [Second(s)]) + (if s[3] == PAD then [] else [Third(s)])
  }

  /** The bytes of a padded string. */
  function UnBase64(s: string): seq<Byte>
    requires Padded(s)
  {
    if s == "" then [] else if |s| == 4 then Group(s) else Group(s) + UnBase64(s[4..])
  }

  function UnBase64Size(s: string): int
    requires s != ""
  {
    |s| / 4 * 3 - (if s[|s| - 1] == PAD then (if |s| > 1 && s[|s| - 2] == PAD then 2 else 1) else 0)
  }

  lemma {:induction false} UnBase64SizeExact(s: string)
    requires Padded(s)
    ensures |s| % 4 == 0 && |UnBase64(s)| <= |s| / 4 * 3
    ensures s != "" ==> |UnBase64(s)| == UnBase64Size(s)
  {
    hide First, Second, Third, Base64Value;
    if |s| > 4 {
      UnBase64SizeExact(s[4..]);
    }
  }

  /** The size of what a string decodes to; nothing for a string that is refused. Not meant for empty text. */
  method DecodeSizeBase64(source: string) returns (size: int)
    requires source != ""
    ensures if Padded(source) then size == |UnBase64(source)| else size == -1
  {
    var ok := ValidateBase64(source);
    if !ok {
      return -1;
    }
    UnBase64SizeExact(source);
    size := |source| / 4 * 3;
    if source[|source| - 1] == PAD {
      size := size - 1;
      if source[|source| - 2] == PAD {
        size := size - 1;
      }
    }
  }

  /** Writes the bytes of one group and returns how far it got. */
  method PutGroup(source: string, i: nat, destination: array<Byte>, d: nat) returns (to: nat)
    requires i + 4 <= |source| && GroupOk(source[i..]) && d + |Group(source[i..])| <= destination.Length
    modifies destination
    ensures to == d + |Group(source[i..])| && destination[d..to] == Group(source[i..])
    ensures forall k :: 0 <= k < destination.Length && !(d <= k < to) ==> destination[k] == old(destination[k])
  {
    ghost var s := source[i..];
    assert s[0] == source[i] && s[1] == source[i + 1] && s[2] == source[i + 2] && s[3] == source[i + 3];
    to := d;
    destination[to] := Base64Value(source[i]) * 4 + Base64Value(source[i + 1]) / 16;
    to := to + 1;
    assert destination[d..to] == [First(s)];
    if source[i + 2] != PAD {
      destination[to] := Base64Value(source[i + 1]) % 16 * 16 + Base64Value(source[i + 2]) / 4;
      to := to + 1;
      assert destination[d..to] == [First(s), Second(s)];
    }
    if source[i + 3] != PAD {
      destination[to] := Base64Value(source[i + 2]) % 4 * 64 + Base64Value(source[i + 3]);
      to := to + 1;
      assert destination[d..to] == [First(s), Second(s), Third(s)];
    }
  }

  lemma UnBase64Step(s: string, i: nat, done: seq<Byte>)
    requires i < |s| && Padded(s[i..])
    ensures i + 4 <= |s| && GroupOk(s[i..]) && Padded(s[i + 4..])
    ensures done + UnBase64(s[i..]) == done + Group(s[i..]) + UnBase64(s[i + 4..])
  {
    assert s[i..][4..] == s[i + 4..];
    assert UnBase64(s[i..]) == Group(s[i..]) + UnBase64(s[i + 4..]);
  }

  /** The loop over the groups of a padded string. */
  method DecodeGroups(source: string, destination: array<Byte>)
    requires Padded(source) && |UnBase64(source)| <= destination.Length
    modifies destination
    ensures destination[..|UnBase64(source)|] == UnBase64(source)
    ensures forall k :: |UnBase64(source)| <= k < destination.Length ==> destination[k] == old(destination[k])
  {
    hide UnBase64, Group, Padded, GroupOk, Base64Value, Digit;
    var d, i := 0, 0;
    ghost var all := UnBase64(source);
    ghost var done: seq<Byte> := [];
    assert source[0..] == source && done + all == all;
    while i < |source|
      invariant i <= |source| && d == |done| <= |all|
      invariant Padded(source[i..]) && done + UnBase64(source[i..]) == all
      invariant destination[..d] == done
      invariant forall k :: d <= k < destination.Length ==> destination[k] == old(destination[k])
    {
      UnBase64Step(source, i, done);
      ghost var next := done + Group(source[i..]);
      assert |next| <= |all|;
      ghost var before := d;
      d := PutGroup(source, i, destination, d);
      assert destination[..d] == next by {
        assert destination[..d] == destination[..before] + destination[before..d];
      }
      done := next;
      i := i + 4;
    }
    NoChars(source[i..]);
    assert done + [] == done;
  }

  /** Decodes into a buffer with room for the result, and changes nothing for a string that is refused. */
  method DecodeBase64(source: string, destination: array<Byte>) returns (ok: bool)
    requires Padded(source) ==> |UnBase64(source)| <= destination.Length
    modifies destination
    ensures ok <==> Padded(source)
    ensures ok ==> destination[..|UnBase64(source)|] == UnBase64(source)
    ensures forall k :: (if ok then |UnBase64(source)| else 0) <= k < destination.Length ==>
      destination[k] == old(destination[k])
  {
    ok := ValidateBase64(source);
    if ok {
      DecodeGroups(source, destination);
    }
  }

  lemma NoChars(s: string)
    requires s == "" && Padded(s)
    ensures UnBase64(s) == []
  {
  }

  // ---------------------------------------------------------------------------------------------
  // Base64: round trips

  lemma Regroup(a: Byte, b: Byte, c: Byte)
    ensures a / 4 * 4 + (a % 4 * 16 + b / 16) / 16 == a
    ensures (a % 4 * 16 + b / 16) % 16 * 16 + (b % 16 * 4 + c / 64) / 4 == b
    ensures (b % 16 * 4 + c / 64) % 4 * 64 + c % 64 == c
  {
  }

  lemma QuadDecodes(a: Byte, b: Byte, c: Byte)
    ensures var q := Quad(a, b, c); Digit(q[0]) && Digit(q[1]) && Digit(q[2]) && Digit(q[3]) && Group(q) == [a, b, c]
  {
    hide Base64Char, Base64Value;
    Base64CharValue(a / 4);
    Base64CharValue(a % 4 * 16 + b / 16);
    Base64CharValue(b % 16 * 4 + c / 64);
    Base64CharValue(c % 64);
    Regroup(a, b, c);
  }

  lemma ShortDecodes(a: Byte, b: Byte)
    ensures Padded(Quad2(a, b)) && Group(Quad2(a, b)) == [a, b]
    ensures Padded(Quad1(a)) && Group(Quad1(a)) == [a]
  {
    Base64CharValue(a / 4);
    Base64CharValue(a % 4 * 16);
    Base64CharValue(a % 4 * 16 + b / 16);
    Base64CharValue(b % 16 * 4);
  }

  /** Every encoding is a padded string and decodes to the bytes it was made from. */
  lemma {:induction false} EncodeDecode(s: seq<Byte>)
    ensures Padded(Base64(s)) && UnBase64(Base64(s)) == s
  {
    hide Group, Base64Char, Base64Value;
    if |s| == 1 {
      ShortDecodes(s[0], 0);
    } else if |s| == 2 {
      ShortDecodes(s[0], s[1]);
    } else if |s| >= 3 {
      EncodeDecode(s[3..]);
      QuadDecodes(s[0], s[1], s[2]);
      var q, t := Quad(s[0], s[1], s[2]), Base64(s[3..]);
      GroupFront(q, t);
      assert s == [s[0], s[1], s[2]] + s[3..];
    }
  }

  /** A group of three bytes in front of a padded string. */
  lemma GroupFront(q: string, t: string)
    requires |q| == 4 && Digit(q[0]) && Digit(q[1]) && Digit(q[2]) && Digit(q[3]) && Padded(t)
    ensures Padded(q + t) && UnBase64(q + t) == Group(q) + UnBase64(t)
  {
    assert (q + t)[4..] == t;
    if t == "" {
      assert q + t == q && Group(q) + [] == Group(q);
    }
  }

  /** The bits of the last digit that no byte uses are zero. */
  predicate TailZero(s: string)
  {
    && (|s| >= 4 || s == "")
    && (s != "" && s[|s| - 2] == PAD ==> Base64Value(s[|s| - 3]) % 16 == 0)
    && (s != "" && s[|s| - 2] != PAD && s[|s| - 1] == PAD ==> Base64Value(s[|s| - 2]) % 4 == 0)
  }

  lemma GroupEncodes(s: string)
    requires |s| == 4 && Padded(s)
    ensures Base64(Group(s)) == s <==> TailZero(s)
  {
    hide Base64Char, Base64Value;
    if s[2] == PAD {
      OneByteEncodes(s);
    } else if s[3] == PAD {
      TwoBytesEncode(s);
    } else {
      FullGroupEncodes(s);
      assert Group(s)[3..] == [];
    }
  }

  lemma OneByteEncodes(s: string)
    requires |s| == 4 && Padded(s) && s[2] == PAD
    ensures Base64(Group(s)) == s <==> TailZero(s)
  {
    hide Base64Char, Base64Value;
    var a, b := Base64Value(s[0]), Base64Value(s[1]);
    assert Base64(Group(s)) == Quad1(First(s));
    assert First(s) / 4 == a && First(s) % 4 * 16 == b / 16 * 16;
    if b % 16 != 0 { Base64CharValue(b / 16 * 16); }
  }

  lemma TwoBytesEncode(s: string)
    requires |s| == 4 && Padded(s) && s[2] != PAD && s[3] == PAD
    ensures Base64(Group(s)) == s <==> TailZero(s)
  {
    hide Base64Char, Base64Value;
    var a, b, c := Base64Value(s[0]), Base64Value(s[1]), Base64Value(s[2]);
    assert Base64(Group(s)) == Quad2(First(s), Second(s));
    assert First(s) / 4 == a && First(s) % 4 * 16 + Second(s) / 16 == b && Second(s) % 16 * 4 == c / 4 * 4;
    if c % 4 != 0 { Base64CharValue(c / 4 * 4); }
  }

  lemma FullGroupEncodes(s: string)
    requires |s| >= 4 && Digit(s[0]) && Digit(s[1]) && Digit(s[2]) && Digit(s[3])
    ensures Group(s) == [First(s), Second(s), Third(s)] && Quad(First(s), Second(s), Third(s)) == s[..4]
  {
    var a, b, c, d := Base64Value(s[0]), Base64Value(s[1]), Base64Value(s[2]), Base64Value(s[3]);
    assert First(s) / 4 == a;
    assert First(s) % 4 * 16 + Second(s) / 16 == b;
    assert Second(s) % 16 * 4 + Third(s) / 64 == c;
    assert Third(s) % 64 == d;
  }

  /** A padded string comes back from decoding and encoding if and only if its unused bits are zero. */
  lemma {:induction false} DecodeEncodeIff(s: string)
    requires Padded(s)
    ensures Base64(UnBase64(s)) == s <==> TailZero(s)
  {
    hide Quad, Base64Char, Base64Value, TailZero, Base64;
    if s == "" {
      NoBytes();
      NoTail();
    } else if |s| == 4 {
      GroupEncodes(s);
    } else {
      var t := s[4..];
      DecodeEncodeIff(t);
      FullGroupEncodes(s);
      UnBase64SizeExact(t);
      GroupInFront([First(s), Second(s), Third(s)], UnBase64(t));
      assert UnBase64(s) == [First(s), Second(s), Third(s)] + UnBase64(t);
      SameTail(s[..4], Base64(UnBase64(t)), t);
      assert s == s[..4] + t && |t| >= 4;
      TailOfRest(s);
    }
  }

  lemma NoTail()
    ensures TailZero("")
  {
  }

  lemma GroupInFront(g: seq<Byte>, rest: seq<Byte>)
    requires |g| == 3
    ensures Base64(g + rest) == Quad(g[0], g[1], g[2]) + Base64(rest)
  {
    assert (g + rest)[3..] == rest;
  }

  lemma SameTail(q: string, a: string, b: string)
    ensures q + a == q + b <==> a == b
  {
    assert (q + a)[|q|..] == a && (q + b)[|q|..] == b;
  }

  lemma TailOfRest(s: string)
    requires Padded(s) && |s| >= 8
    ensures Padded(s[4..]) && (TailZero(s) <==> TailZero(s[4..]))
  {
  }

  // ---------------------------------------------------------------------------------------------
  // Base64Url

  /** The text of some bytes in the URL alphabet, without padding. */
  function Url(s: seq<Byte>): string
    decreases |s|
  {
    if |s| == 0 then ""
    else FirstUrl(s) + Url(From(s, 3))
  }

  function FirstUrl(s: seq<Byte>): (q: string)
    requires s != []
  {
    if |s| == 1 then [UrlChar(s[0] / 4), UrlChar(s[0] % 4 * 16)]
    else if |s| == 2 then [UrlChar(s[0] / 4), UrlChar(s[0] % 4 * 16 + s[1] / 16), UrlChar(s[1] % 16 * 4)]
    else [UrlChar(s[0] / 4), UrlChar(s[0] % 4 * 16 + s[1] / 16), UrlChar(s[1] % 16 * 4 + s[2] / 64), UrlChar(s[2] % 64)]
  }

  function UrlSize(n: nat): nat {
    n / 3 * 4 + (if n % 3 == 0 then 0 else n % 3 + 1)
  }

  lemma {:induction false} UrlSizeExact(s: seq<Byte>)
    ensures |Url(s)| == UrlSize(|s|)
  {
    if |s| >= 3 {
      UrlSizeExact(s[3..]);
    }
  }

  /** Standard characters to their URL counterparts; a pad has none. */
  function ToUrl(c: char): string {
    if c == PAD then "" else if c == '+' then "-" else if c == '/' then "_" else [c]
  }

  function AllToUrl(s: string): string {
    if s == "" then "" else ToUrl(s[0]) + AllToUrl(s[1..])
  }

  lemma ToUrlChar(n: int)
    requires 0 <= n < 64
    ensures ToUrl(Base64Char(n)) == [UrlChar(n)]
  {
  }

  lemma {:induction false} AllToUrlFour(a: char, b: char, c: char, d: char, t: string)
    ensures AllToUrl([a, b, c, d] + t) == ToUrl(a) + ToUrl(b) + ToUrl(c) + ToUrl(d) + AllToUrl(t)
  {
    hide ToUrl;
    AllToUrlOne(a, [b, c, d] + t);
    AllToUrlOne(b, [c, d] + t);
    AllToUrlOne(c, [d] + t);
    AllToUrlOne(d, t);
    assert [a] + ([b, c, d] + t) == [a, b, c, d] + t;
    assert [b] + ([c, d] + t) == [b, c, d] + t;
    assert [c] + ([d] + t) == [c, d] + t;
  }

  lemma AllToUrlOne(c: char, t: string)
    ensures AllToUrl([c] + t) == ToUrl(c) + AllToUrl(t)
  {
    assert ([c] + t)[1..] == t;
  }

  /** The URL form is the standard form with two characters exchanged and the padding dropped. */
  lemma {:induction false} UrlIsTranslated(s: seq<Byte>)
    ensures Url(s) == AllToUrl(Base64(s))
    decreases |s|
  {
    if s != [] {
      var rest := From(s, 3);
      UrlIsTranslated(rest);
      var q := FirstQuad(s);
      Base64Step(s, "");
      assert "" + Base64(s) == Base64(s) && "" + q + Base64(rest) == q + Base64(rest);
      assert q == [q[0], q[1], q[2], q[3]];
      AllToUrlFour(q[0], q[1], q[2], q[3], Base64(rest));
      FirstTranslated(s);
    }
  }

  lemma FirstTranslated(s: seq<Byte>)
    requires s != []
    ensures var q := FirstQuad(s); FirstUrl(s) == ToUrl(q[0]) + ToUrl(q[1]) + ToUrl(q[2]) + ToUrl(q[3])
  {
    hide Base64Char, UrlChar;
    ToUrlChar(s[0] / 4);
    if |s| == 1 {
      ToUrlChar(s[0] % 4 * 16);
    } else {
      ToUrlChar(s[0] % 4 * 16 + s[1] / 16);
      if |s| == 2 {
        ToUrlChar(s[1] % 16 * 4);
      } else {
        ToUrlChar(s[1] % 16 * 4 + s[2] / 64);
        ToUrlChar(s[2] % 64);
      }
    }
  }

  /** Writes one group of the URL form. */
  method PutUrl(source: seq<Byte>, i: nat, destination: array<char>, d: nat) returns (to: nat)
    requires i < |source| && d + |FirstUrl(source[i..])| <= destination.Length
    modifies destination
    ensures to == d + |FirstUrl(source[i..])| && destination[d..to] == FirstUrl(source[i..])
    ensures forall k :: 0 <= k < destination.Length && !(d <= k < to) ==> destination[k] == old(destination[k])
  {
    hide UrlChar;
    to := d;
    destination[to] := UrlChar(source[i] / 4);
    if |source| - i == 1 {
      destination[to + 1] := UrlChar(source[i] % 4 * 16);
      to := to + 2;
      assert destination[d..to] == [destination[d], destination[d + 1]];
    } else {
      destination[to + 1] := UrlChar(source[i] % 4 * 16 + source[i + 1] / 16);
      if |source| - i == 2 {
        destination[to + 2] := UrlChar(source[i + 1] % 16 * 4);
        to := to + 3;
        assert destination[d..to] == [destination[d], destination[d + 1], destination[d + 2]];
      } else {
        destination[to + 2] := UrlChar(source[i + 1] % 16 * 4 + source[i + 2] / 64);
        destination[to + 3] := UrlChar(source[i + 2] % 64);
        to := to + 4;
        assert destination[d..to] == [destination[d], destination[d + 1], destination[d + 2], destination[d + 3]];
      }
    }
  }

  lemma UrlStep(s: seq<Byte>, i: nat, done: string)
    requires i < |s|
    ensures done + Url(From(s, i)) == done + FirstUrl(s[i..]) + Url(From(s, i + 3))
  {
    assert From(s[i..], 3) == From(s, i + 3);
    assert Url(s[i..]) == FirstUrl(s[i..]) + Url(From(s, i + 3));
  }

  method EncodeUrl(source: seq<Byte>, destination: array<char>)
    requires UrlSize(|source|) < destination.Length
    modifies destination
    ensures destination[..UrlSize(|source|)] == Url(source) && destination[UrlSize(|source|)] == NUL
    ensures forall k :: UrlSize(|source|) < k < destination.Length ==> destination[k] == old(destination[k])
  {
    var d, i := 0, 0;
    UrlSizeExact(source);
    hide Url, FirstUrl;
    ghost var all := Url(source);
    ghost var done: string := "";
    assert done + all == all;
    while i < |source|
      invariant d == |done| <= |all| && i <= |source| + 2
      invariant destination[..d] == done && done + Url(From(source, i)) == all
      invariant forall k :: d <= k < destination.Length ==> destination[k] == old(destination[k])
    {
      UrlStep(source, i, done);
      ghost var next := done + FirstUrl(source[i..]);
      assert |next| <= |all|;
      ghost var before := d;
      d := PutUrl(source, i, destination, d);
      assert destination[..d] == next by {
        assert destination[..d] == destination[..before] + destination[before..d];
      }
      done := next;
      i := i + 3;
    }
    assert From(source, i) == [];
    NoUrl();
    assert done + "" == done;
    destination[d] := NUL;
  }

  lemma NoUrl()
    ensures Url([]) == ""
  {
  }

  // ---------------------------------------------------------------------------------------------
  // Hex

  function Hex(s: seq<Byte>): (t: string)
    ensures |t| == |s| * 2
  {
    if s == [] then "" else [HexChar(s[0] / 16), HexChar(s[0] % 16)] + Hex(s[1..])
  }

  /** The two digits of each byte are its value in base sixteen, the higher one first. */
  lemma {:induction false} HexIsNumber(s: seq<Byte>, i: nat)
    requires i < |s|
    ensures HexValue(Hex(s)[2 * i]) * 16 + HexValue(Hex(s)[2 * i + 1]) == s[i]
  {
    if i > 0 {
      HexIsNumber(s[1..], i - 1);
      assert Hex(s)[2..] == Hex(s[1..]);
    }
  }

  /** Pairs of hex digits, in either case. */
  predicate HexOk(s: string) {
    |s| % 2 == 0 && forall i :: 0 <= i < |s| ==> HexValue(s[i]) != -1
  }

  function UnHex(s: string): (r: seq<Byte>)
    requires HexOk(s)
    ensures |r| == |s| / 2
  {
    if s == "" then [] else [HexValue(s[0]) * 16 + HexValue(s[1])] + UnHex(s[2..])
  }

  method EncodeHex(source: seq<Byte>, destination: array<char>)
    requires |source| * 2 < destination.Length
    modifies destination
    ensures destination[..|source| * 2] == Hex(source) && destination[|source| * 2] == NUL
    ensures forall k :: |source| * 2 < k < destination.Length ==> destination[k] == old(destination[k])
  {
    hide Hex;
    var i := 0;
    ghost var all := Hex(source);
    ghost var done: string := "";
    assert source[0..] == source && done + all == all;
    while i < |source|
      invariant i <= |source| && |done| == i * 2
      invariant destination[..i * 2] == done && done + Hex(source[i..]) == all
      invariant forall k :: i * 2 <= k < destination.Length ==> destination[k] == old(destination[k])
    {
      HexStep(source, i, done);
      destination[i * 2] := HexChar(source[i] / 16);
      destination[i * 2 + 1] := HexChar(source[i] % 16);
      done := done + [HexChar(source[i] / 16), HexChar(source[i] % 16)];
      i := i + 1;
    }
    destination[i * 2] := NUL;
    assert done + Hex(source[i..]) == done;
  }

  lemma HexStep(s: seq<Byte>, i: nat, done: string)
    requires i < |s|
    ensures done + Hex(s[i..]) == done + [HexChar(s[i] / 16), HexChar(s[i] % 16)] + Hex(s[i + 1..])
  {
    assert s[i..][1..] == s[i + 1..];
    assert Hex(s[i..]) == [HexChar(s[i] / 16), HexChar(s[i] % 16)] + Hex(s[i + 1..]);
  }

  method ValidateHex(source: string) returns (ok: bool)
    ensures ok <==> HexOk(source)
  {
    if |source| % 2 != 0 {
      return false;
    }
    var i := 0;
    while i < |source|
      invariant i <= |source| && forall j :: 0 <= j < i ==> HexValue(source[j]) != -1
    {
      if HexValue(source[i]) == -1 {
        return false;
      }
      i := i + 1;
    }
    ok := true;
  }

  method DecodeHex(source: string, destination: array<Byte>) returns (ok: bool)
    requires |source| / 2 <= destination.Length
    modifies destination
    ensures ok <==> HexOk(source)
    ensures ok ==> destination[..|source| / 2] == UnHex(source)
    ensures forall k :: (if ok then |source| / 2 else 0) <= k < destination.Length ==>
      destination[k] == old(destination[k])
  {
    ok := ValidateHex(source);
    if !ok {
      return;
    }
    hide UnHex;
    var d, i := 0, 0;
    ghost var all := UnHex(source);
    ghost var done: seq<Byte> := [];
    assert source[0..] == source && done + all == all;
    while i < |source|
      invariant i == d * 2 <= |source| && |done| == d && HexOk(source[i..])
      invariant destination[..d] == done && done + UnHex(source[i..]) == all
      invariant forall k :: d <= k < destination.Length ==> destination[k] == old(destination[k])
    {
      UnHexStep(source, i, done);
      destination[d] := HexValue(source[i]) * 16 + HexValue(source[i + 1]);
      done := done + [destination[d]];
      d := d + 1;
      i := i + 2;
    }
    assert done + UnHex(source[i..]) == done;
  }

  lemma UnHexStep(s: string, i: nat, done: seq<Byte>)
    requires i < |s| && HexOk(s[i..])
    ensures i + 2 <= |s| && HexValue(s[i]) != -1 && HexValue(s[i + 1]) != -1 && HexOk(s[i + 2..])
    ensures done + UnHex(s[i..]) == done + [HexValue(s[i]) * 16 + HexValue(s[i + 1])] + UnHex(s[i + 2..])
  {
    var t := s[i..];
    assert t[0] == s[i] && t[1] == s[i + 1] && t[2..] == s[i + 2..];
    var u := s[i + 2..];
    forall j | 0 <= j < |u| ensures HexValue(u[j]) != -1 {
      assert u[j] == t[j + 2];
    }
    assert UnHex(t) == [HexValue(s[i]) * 16 + HexValue(s[i + 1])] + UnHex(s[i + 2..]);
  }

  /** Hex decoding undoes encoding. */
  lemma {:induction false} HexRoundTrip(s: seq<Byte>)
    ensures HexOk(Hex(s)) && UnHex(Hex(s)) == s
  {
    if s != [] {
      HexRoundTrip(s[1..]);
      var t, u := Hex(s), Hex(s[1..]);
      assert t[2..] == u;
      forall i | 0 <= i < |t| ensures HexValue(t[i]) != -1 {
        assert i >= 2 ==> t[i] == u[i - 2];
      }
    }
  }

  predicate UpperHex(c: char) {
    'A' <= c <= 'F'
  }

  /** Encoding undoes decoding if and only if the text has no upper-case digit. */
  lemma {:induction false} HexBackIff(s: string)
    requires HexOk(s)
    ensures Hex(UnHex(s)) == s <==> forall i :: 0 <= i < |s| ==> !UpperHex(s[i])
  {
    if s != "" {
      var t := s[2..];
      assert HexOk(t);
      HexBackIff(t);
      var h, l := HexValue(s[0]), HexValue(s[1]);
      var r := UnHex(s);
      assert r[0] / 16 == h && r[0] % 16 == l && r[1..] == UnHex(t);
      var back := [HexChar(h), HexChar(l)] + Hex(UnHex(t));
      assert Hex(r) == back;
      assert s == [s[0], s[1]] + t;
      HexDigitBack(s[0]);
      HexDigitBack(s[1]);
      assert back == s <==> HexChar(h) == s[0] && HexChar(l) == s[1] && Hex(UnHex(t)) == t by {
        assert back[2..] == Hex(UnHex(t)) && back[0] == HexChar(h) && back[1] == HexChar(l);
      }
      assert forall i :: 0 <= i < |t| ==> t[i] == s[i + 2];
      assert forall i :: 2 <= i < |s| ==> s[i] == t[i - 2];
    }
  }

  lemma HexDigitBack(c: char)
    requires HexValue(c) != -1
    ensures HexChar(HexValue(c)) == c <==> !UpperHex(c)
  {
  }
}
