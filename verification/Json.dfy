/** The JSON validator that decides where a key ends and a value begins (jsonValidate in src/common/type/json.c),
    as a function of the position it has reached, and the lexical fact about it that the INI reader relies on. */
module Json {
  import opened Wrappers

  /** Outcome of reading: the position after what was read, a format error that the INI reader may recover from
      by retrying, or any other error, which it does not catch. */
  datatype Scan = At(pos: nat) | FormatError | OtherError

  datatype Kind = Str | Number | Bool | Null | ArrayBegin | ArrayEnd | ObjectBegin | ObjectEnd

  const NUL := '\0'
  const NUMBER_MAX: nat := 64
  const UINT64: nat := 0x1_0000_0000_0000_0000
  const INT64: nat := 0x8000_0000_0000_0000

  /** Strings end in a terminator that belongs to none of their characters. */
  function CharAt(s: string, i: nat): char {
    if i < |s| then s[i] else NUL
  }

  predicate IsSpace(c: char) {
    c == ' ' || c == '\t' || c == '\n' || c == '\r'
  }

  predicate IsDigit(c: char) {
    '0' <= c <= '9'
  }

  // ---------------------------------------------------------------------------------------------
  // The validator

  function SkipSpace(s: string, i: nat): (j: nat)
    requires i <= |s|
    ensures i <= j <= |s|
    ensures forall k :: i <= k < j ==> IsSpace(s[k])
    ensures !IsSpace(CharAt(s, j))
    decreases |s| - i
  {
    if IsSpace(CharAt(s, i)) then SkipSpace(s, i + 1) else i
  }

  /** The type of the next value, judged by its first character. */
  function KindAt(s: string, i: nat): Option<Kind>
    requires i <= |s|
  {
    var c := CharAt(s, SkipSpace(s, i));
    if c == '"' then Some(Str)
    else if c == '-' || IsDigit(c) then Some(Number)
    else if c == 't' || c == 'f' then Some(Bool)
    else if c == 'n' then Some(Null)
    else if c == '[' then Some(ArrayBegin)
    else if c == ']' then Some(ArrayEnd)
    else if c == '{' then Some(ObjectBegin)
    else if c == '}' then Some(ObjectEnd)
    else None
  }

  /** The same, looking past one comma. */
  function KindAfterComma(s: string, i: nat): Option<Kind>
    requires i <= |s|
  {
    var p := SkipSpace(s, i);
    if CharAt(s, p) == ',' then KindAt(s, p + 1) else KindAt(s, p)
  }

  /** The rest of a string, up to and including the closing quote. A unicode escape must have four digits; the
      character after them is skipped without being looked at. An escape at the very end takes the C code past the
      terminator of the text, where what it does is not defined; this is counted as an error that is no format
      error. */
  function StrBody(s: string, i: nat): (r: Scan)
    ensures r.At? ==> i < r.pos <= |s|
    decreases if i <= |s| then |s| - i else 0
  {
    if i > |s| then OtherError
    else if i == |s| then FormatError
    else if s[i] == '"' then At(i + 1)
    else if s[i] != '\\' then StrBody(s, i + 1)
    else if CharAt(s, i + 1) != 'u' then StrBody(s, i + 2)
    else if FourDigits(s, i + 2) then StrBody(s, i + 7)
    else FormatError
  }

  predicate FourDigits(s: string, i: nat) {
    IsDigit(CharAt(s, i)) && IsDigit(CharAt(s, i + 1)) && IsDigit(CharAt(s, i + 2)) && IsDigit(CharAt(s, i + 3))
  }

  /** A string. Its first character is skipped; builds with assertions check that it is a quote. */
  function SkipStr(s: string, i: nat, checked: bool): (r: Scan)
    ensures r.At? ==> i < r.pos <= |s|
  {
    if checked && CharAt(s, i) != '"' then OtherError else StrBody(s, i + 1)
  }

  function Digits(s: string, i: nat): (n: nat)
    requires i <= |s|
    ensures i + n <= |s|
    ensures forall k :: i <= k < i + n ==> IsDigit(s[k])
    decreases |s| - i
  {
    if IsDigit(CharAt(s, i)) then 1 + Digits(s, i + 1) else 0
  }

  function Decimal(s: string): (n: nat)
    requires forall k :: 0 <= k < |s| ==> IsDigit(s[k])
  {
    if s == [] then 0
    else
      assert IsDigit(s[|s| - 1]);
      10 * Decimal(s[..|s| - 1]) + (s[|s| - 1] as int - '0' as int)
  }

  /** A number: digits with an optional sign, no fraction and no exponent. Numbers that do not fit in 64 bits
      raise an error that is not a JSON format error. */
  function SkipNumber(s: string, i: nat): (r: Scan)
    requires i <= |s|
    ensures r.At? ==> i < r.pos <= |s|
    ensures r.At? ==> forall k :: i <= k < r.pos ==> s[k] == '-' || IsDigit(s[k])
  {
    var sign := if CharAt(s, i) == '-' then 1 else 0;
    var n := Digits(s, i + sign);
    if n == 0 || n >= NUMBER_MAX then FormatError
    else
      var value := Decimal(s[i + sign..i + sign + n]);
      if (sign == 0 && value >= UINT64) || (sign == 1 && value > INT64) then OtherError
      else At(i + sign + n)
  }

  predicate Matches(s: string, i: nat, word: string) {
    i + |word| <= |s| && s[i..i + |word|] == word
  }

  function SkipWord(s: string, i: nat, words: seq<string>): (r: Scan)
    requires forall w :: w in words ==> |w| > 0
    ensures r.At? ==> i < r.pos <= |s| && s[i..r.pos] in words
  {
    if words == [] then FormatError
    else if Matches(s, i, words[0]) then At(i + |words[0]|)
    else SkipWord(s, i, words[1..])
  }

  /** Where an element starts. A comma is consumed only after the first element of a container. */
  function Element(s: string, i: nat, comma: bool): (q: Option<nat>)
    requires i <= |s|
    ensures q.Some? ==> i <= q.value <= |s|
  {
    var p := SkipSpace(s, i);
    if !comma then Some(p)
    else if CharAt(s, p) == ',' then Some(SkipSpace(s, p + 1))
    else None
  }

  /** jsonReadSkipRecurse. */
  function Value(s: string, i: nat, comma: bool, checked: bool): (r: Scan)
    requires i <= |s|
    ensures r.At? ==> i < r.pos <= |s|
    decreases |s| - i, 0
  {
    var kind, q := KindAfterComma(s, i), Element(s, i, comma);
    if kind.None? || kind.value in {ArrayEnd, ObjectEnd} || q.None? then FormatError
    else
      if kind.value.Bool? then SkipWord(s, q.value, ["true", "false"])
      else if kind.value.Null? then SkipWord(s, q.value, ["null"])
      else if kind.value.Number? then SkipNumber(s, q.value)
      else if kind.value.Str? then SkipStr(s, q.value, checked)
      else
        KindConsumes(s, i, comma);
        if kind.value.ArrayBegin? then Elements(s, q.value + 1, false, checked)
        else Members(s, q.value + 1, false, checked)
  }

  /** The elements of an array up to and including the closing bracket. */
  function Elements(s: string, i: nat, comma: bool, checked: bool): (r: Scan)
    requires i <= |s|
    ensures r.At? ==> i < r.pos <= |s|
    decreases |s| - i, 1
  {
    var kind := KindAfterComma(s, i);
    if kind.None? then FormatError
    else if kind.value.ArrayEnd? then CloseWith(s, i, ']')
    else
      var v := Value(s, i, comma, checked);
      if v.At? then Elements(s, v.pos, true, checked) else v
  }

  /** The members of an object up to and including the closing brace. */
  function Members(s: string, i: nat, comma: bool, checked: bool): (r: Scan)
    requires i <= |s|
    ensures r.At? ==> i < r.pos <= |s|
    decreases |s| - i, 1
  {
    var kind := KindAfterComma(s, i);
    if kind.None? then FormatError
    else if kind.value.ObjectEnd? then CloseWith(s, i, '}')
    else
      var m := Member(s, i, comma, checked);
      if m.At? then Members(s, m.pos, true, checked) else m
  }

  /** A key, a colon and a value. */
  function Member(s: string, i: nat, comma: bool, checked: bool): (r: Scan)
    requires i <= |s|
    ensures r.At? ==> i < r.pos <= |s|
    decreases |s| - i, 0
  {
    var q := Element(s, i, comma);
    if KindAfterComma(s, i) != Some(Str) || q.None? then FormatError
    else
      var key := SkipStr(s, q.value, checked);
      if !key.At? then key
      else
        var p := SkipSpace(s, key.pos);
        if CharAt(s, p) != ':' then FormatError else Value(s, p + 1, false, checked)
  }

  function CloseWith(s: string, i: nat, c: char): (r: Scan)
    requires i <= |s| && c != NUL
    ensures r.At? ==> i < r.pos <= |s|
  {
    var p := SkipSpace(s, i);
    if CharAt(s, p) == c then At(p + 1) else FormatError
  }

  /** Something was found at the position where the element starts. */
  lemma KindConsumes(s: string, i: nat, comma: bool)
    requires i <= |s| && KindAfterComma(s, i).Some? && Element(s, i, comma).Some?
    ensures Element(s, i, comma).value < |s|
  {
  }

  /** jsonValidate: one value and nothing after it but white space. */
  function Validate(s: string, checked: bool): Scan {
    var v := Value(s, 0, false, checked);
    if v.At? && SkipSpace(s, v.pos) != |s| then FormatError else v
  }

  /** The text is accepted by the validator. */
  predicate Valid(s: string, checked: bool) {
    Validate(s, checked).At?
  }

  // ---------------------------------------------------------------------------------------------
  // Lexical states

  /** Where the validator is with respect to strings. `Escape(n)` has `n` more characters of an escape to skip. */
  datatype Lex = Outside | Inside | Backslash | Escape(n: nat) | Bad

  function Next(st: Lex, c: char): Lex {
    match st
    case Outside => if c == '"' then Inside else if c == '=' || c == '\\' then Bad else Outside
    case Inside => if c == '"' then Outside else if c == '\\' then Backslash else Inside
    case Backslash => if c == 'u' then Escape(5) else Inside
    case Escape(n) => if n == 0 then Bad else if n == 1 then Inside else if IsDigit(c) then Escape(n - 1) else Bad
    case Bad => Bad
  }

  function Scanned(st: Lex, s: string, i: nat, j: nat): Lex
    requires i <= j <= |s|
    decreases j - i
  {
    if i == j then st else Scanned(Next(st, s[i]), s, i + 1, j)
  }

  lemma {:induction false} ScannedSplit(st: Lex, s: string, i: nat, j: nat, k: nat)
    requires i <= j <= k <= |s|
    ensures Scanned(st, s, i, k) == Scanned(Scanned(st, s, i, j), s, j, k)
    decreases j - i
  {
    if i < j {
      ScannedSplit(Next(st, s[i]), s, i + 1, j, k);
    }
  }

  lemma {:induction false} ScannedBad(s: string, i: nat, j: nat)
    requires i <= j <= |s|
    ensures Scanned(Bad, s, i, j) == Bad
    decreases j - i
  {
    if i < j {
      ScannedBad(s, i + 1, j);
    }
  }

  /** Characters that are neither quotes, backslashes nor `=` do not leave the outside. */
  lemma {:induction false} ScannedPlain(s: string, i: nat, j: nat)
    requires i <= j <= |s|
    requires forall k :: i <= k < j ==> s[k] !in {'"', '\\', '='}
    ensures Scanned(Outside, s, i, j) == Outside
    decreases j - i
  {
    if i < j {
      ScannedPlain(s, i + 1, j);
    }
  }

  lemma {:induction false} ScannedShift(st: Lex, a: string, b: string, i: nat)
    requires i <= |b|
    ensures Scanned(st, a + b, |a| + i, |a + b|) == Scanned(st, b, i, |b|)
    decreases |b| - i
  {
    if i < |b| {
      ScannedShift(Next(st, b[i]), a, b, i + 1);
    }
  }

  lemma {:induction false} StrBodyScanned(s: string, i: nat)
    requires i <= |s| && StrBody(s, i).At?
    ensures Scanned(Inside, s, i, StrBody(s, i).pos) == Outside
    decreases |s| - i
  {
    var r := StrBody(s, i).pos;
    if s[i] == '"' {
    } else if s[i] != '\\' {
      StrBodyScanned(s, i + 1);
    } else if CharAt(s, i + 1) != 'u' {
      assert i + 2 <= |s|;
      StrBodyScanned(s, i + 2);
      assert Next(Next(Inside, s[i]), s[i + 1]) == Inside;
      assert Scanned(Inside, s, i, r) == Scanned(Backslash, s, i + 1, r);
    } else {
      assert i + 7 <= |s|;
      StrBodyScanned(s, i + 7);
      assert Scanned(Inside, s, i, r) == Scanned(Backslash, s, i + 1, r);
      assert Scanned(Backslash, s, i + 1, r) == Scanned(Escape(5), s, i + 2, r);
      assert Scanned(Escape(5), s, i + 2, r) == Scanned(Escape(4), s, i + 3, r);
      assert Scanned(Escape(4), s, i + 3, r) == Scanned(Escape(3), s, i + 4, r);
      assert Scanned(Escape(3), s, i + 4, r) == Scanned(Escape(2), s, i + 5, r);
      assert Scanned(Escape(2), s, i + 5, r) == Scanned(Escape(1), s, i + 6, r);
    }
  }

  lemma SkipStrScanned(s: string, i: nat)
    requires i < |s| && SkipStr(s, i, true).At?
    ensures Scanned(Outside, s, i, SkipStr(s, i, true).pos) == Outside
  {
    StrBodyScanned(s, i + 1);
  }

  lemma SpaceScanned(s: string, i: nat)
    requires i <= |s|
    ensures Scanned(Outside, s, i, SkipSpace(s, i)) == Outside
  {
    ScannedPlain(s, i, SkipSpace(s, i));
  }

  lemma ElementScanned(s: string, i: nat, comma: bool)
    requires i <= |s| && Element(s, i, comma).Some?
    ensures Scanned(Outside, s, i, Element(s, i, comma).value) == Outside
  {
    var p := SkipSpace(s, i);
    SpaceScanned(s, i);
    if comma {
      var q := SkipSpace(s, p + 1);
      SpaceScanned(s, p + 1);
      ScannedSplit(Outside, s, i, p, q);
    }
  }

  lemma CloseScanned(s: string, i: nat, c: char)
    requires i <= |s| && c in {']', '}'} && CloseWith(s, i, c).At?
    ensures Scanned(Outside, s, i, CloseWith(s, i, c).pos) == Outside
  {
    SpaceScanned(s, i);
    ScannedSplit(Outside, s, i, SkipSpace(s, i), SkipSpace(s, i) + 1);
  }

  /** A value that a build with assertions accepts begins and ends outside strings, and outside its strings
      there is neither `=` nor a backslash. */
  lemma {:induction false} ValueScanned(s: string, i: nat, comma: bool)
    requires i <= |s| && Value(s, i, comma, true).At?
    ensures Scanned(Outside, s, i, Value(s, i, comma, true).pos) == Outside
    decreases |s| - i, 0
  {
    hide Scanned, StrBody, SkipStr, SkipNumber, SkipWord, Elements, Members, SkipSpace, KindAt;
    var kind, q, r := KindAfterComma(s, i).value, Element(s, i, comma).value, Value(s, i, comma, true).pos;
    ElementScanned(s, i, comma);
    ScannedSplit(Outside, s, i, q, r);
    if kind.Bool? {
      WordScanned(s, q, ["true", "false"]);
    } else if kind.Null? {
      WordScanned(s, q, ["null"]);
    } else if kind.Number? {
      ScannedPlain(s, q, r);
    } else if kind.Str? {
      StrStarts(s, i, comma);
      SkipStrScanned(s, q);
    } else {
      OpenScanned(s, i, comma, r);
      if kind.ArrayBegin? { ElementsScanned(s, q + 1, false); } else { MembersScanned(s, q + 1, false); }
    }
  }

  lemma StrStarts(s: string, i: nat, comma: bool)
    requires i <= |s| && Element(s, i, comma).Some? && KindAfterComma(s, i) == Some(Str)
    ensures Element(s, i, comma).value < |s|
  {
  }

  lemma OpenScanned(s: string, i: nat, comma: bool, r: nat)
    requires i <= |s| && Element(s, i, comma).Some?
    requires KindAfterComma(s, i).Some? && KindAfterComma(s, i).value in {ArrayBegin, ObjectBegin}
    ensures var q := Element(s, i, comma).value;
      q < |s| && (q < r <= |s| ==> Scanned(Outside, s, q, r) == Scanned(Outside, s, q + 1, r))
  {
  }

  lemma WordScanned(s: string, i: nat, words: seq<string>)
    requires i <= |s| && words in [["true", "false"], ["null"]] && SkipWord(s, i, words).At?
    ensures Scanned(Outside, s, i, SkipWord(s, i, words).pos) == Outside
  {
    var r := SkipWord(s, i, words).pos;
    var w := s[i..r];
    assert forall k :: i <= k < r ==> s[k] == w[k - i];
    ScannedPlain(s, i, r);
  }

  lemma {:induction false} ElementsScanned(s: string, i: nat, comma: bool)
    requires i <= |s| && Elements(s, i, comma, true).At?
    ensures Scanned(Outside, s, i, Elements(s, i, comma, true).pos) == Outside
    decreases |s| - i, 1
  {
    hide Scanned, Value, SkipSpace, KindAt;
    if KindAfterComma(s, i).value.ArrayEnd? {
      CloseScanned(s, i, ']');
    } else {
      var v := Value(s, i, comma, true).pos;
      ValueScanned(s, i, comma);
      ElementsScanned(s, v, true);
      ScannedSplit(Outside, s, i, v, Elements(s, v, true, true).pos);
    }
  }

  lemma {:induction false} MembersScanned(s: string, i: nat, comma: bool)
    requires i <= |s| && Members(s, i, comma, true).At?
    ensures Scanned(Outside, s, i, Members(s, i, comma, true).pos) == Outside
    decreases |s| - i, 1
  {
    hide Scanned, Member, SkipSpace, KindAt;
    if KindAfterComma(s, i).value.ObjectEnd? {
      CloseScanned(s, i, '}');
    } else {
      var m := Member(s, i, comma, true).pos;
      MemberScanned(s, i, comma);
      MembersScanned(s, m, true);
      ScannedSplit(Outside, s, i, m, Members(s, m, true, true).pos);
    }
  }

  lemma {:induction false} MemberScanned(s: string, i: nat, comma: bool)
    requires i <= |s| && Member(s, i, comma, true).At?
    ensures Scanned(Outside, s, i, Member(s, i, comma, true).pos) == Outside
    decreases |s| - i, 0
  {
    hide Scanned, StrBody, SkipSpace, KindAt, Value;
    var q := Element(s, i, comma).value;
    var k := SkipStr(s, q, true).pos;
    var p := SkipSpace(s, k);
    var v := Value(s, p + 1, false, true).pos;
    ElementScanned(s, i, comma);
    StrStarts(s, i, comma);
    SkipStrScanned(s, q);
    SpaceScanned(s, k);
    ValueScanned(s, p + 1, false);
    ScannedSplit(Outside, s, i, q, k);
    ScannedSplit(Outside, s, i, k, p);
    ScannedPlain(s, p, p + 1);
    ScannedSplit(Outside, s, i, p, p + 1);
    ScannedSplit(Outside, s, i, p + 1, v);
  }

  /** An accepted text ends outside every string and has no `=` and no backslash outside its strings. */
  lemma ValidScanned(s: string)
    requires Valid(s, true)
    ensures Scanned(Outside, s, 0, |s|) == Outside
  {
    var v := Value(s, 0, false, true).pos;
    ValueScanned(s, 0, false);
    SpaceScanned(s, v);
    ScannedSplit(Outside, s, 0, v, |s|);
  }

  /** Reading a text from inside a string flips every quote: two readers, one outside and one inside, cannot
      both end outside. */
  lemma {:induction false} ParityFlips(s: string, i: nat, a: Lex, b: Lex)
    requires i <= |s| && ((a == Outside && b == Inside) || (a == Inside && b == Outside))
    requires Scanned(a, s, i, |s|) == Outside
    ensures Scanned(b, s, i, |s|) != Outside
    decreases |s| - i
  {
    if i < |s| {
      var a', b' := Next(a, s[i]), Next(b, s[i]);
      ScannedBad(s, i + 1, |s|);
      if a' != Bad && b' != Bad {
        ParityFlips(s, i + 1, a', b');
      }
    }
  }

  /** The text after an `=` inside an accepted text is not itself accepted: no accepted text is the tail, after
      an `=`, of another accepted text. */
  lemma ValidAfterEqual(a: string, v: string)
    requires Valid(v, true)
    ensures !Valid(a + "=" + v, true)
  {
    var s := a + "=" + v;
    if Valid(s, true) {
      ValidScanned(v);
      ValidScanned(s);
      var st := Scanned(Outside, s, 0, |a|);
      ScannedSplit(Outside, s, 0, |a|, |s|);
      assert s[|a|] == '=';
      assert Scanned(st, s, |a|, |s|) == Scanned(Next(st, '='), s, |a| + 1, |s|);
      ScannedBad(s, |a| + 1, |s|);
      assert Next(st, '=') == Inside;
      assert s == (a + "=") + v;
      ScannedShift(Inside, a + "=", v, 0);
      ParityFlips(v, 0, Outside, Inside);
    }
  }

  // ---------------------------------------------------------------------------------------------
  // Builds without assertions

  /** Assertions only turn outcomes into errors: where a build with assertions gets by without an uncaught
      error, a build without them does the same. */
  lemma {:induction false} CheckedAgrees(s: string, i: nat, comma: bool)
    requires i <= |s|
    ensures Value(s, i, comma, true) != OtherError ==> Value(s, i, comma, false) == Value(s, i, comma, true)
    decreases |s| - i, 0
  {
    hide StrBody, SkipNumber, SkipWord, Elements, Members, SkipSpace, KindAt;
    var kind, q := KindAfterComma(s, i), Element(s, i, comma);
    if kind.Some? && kind.value in {ArrayBegin, ObjectBegin} && q.Some? {
      KindConsumes(s, i, comma);
      ElementsAgree(s, q.value + 1, false);
      MembersAgree(s, q.value + 1, false);
    }
  }

  lemma {:induction false} ElementsAgree(s: string, i: nat, comma: bool)
    requires i <= |s|
    ensures Elements(s, i, comma, true) != OtherError ==> Elements(s, i, comma, false) == Elements(s, i, comma, true)
    decreases |s| - i, 1
  {
    hide Value, SkipSpace, KindAt;
    CheckedAgrees(s, i, comma);
    if Value(s, i, comma, true).At? {
      ElementsAgree(s, Value(s, i, comma, true).pos, true);
    }
  }

  lemma {:induction false} MembersAgree(s: string, i: nat, comma: bool)
    requires i <= |s|
    ensures Members(s, i, comma, true) != OtherError ==> Members(s, i, comma, false) == Members(s, i, comma, true)
    decreases |s| - i, 1
  {
    hide Member, SkipSpace, KindAt;
    MemberAgrees(s, i, comma);
    if Member(s, i, comma, true).At? {
      MembersAgree(s, Member(s, i, comma, true).pos, true);
    }
  }

  lemma {:induction false} MemberAgrees(s: string, i: nat, comma: bool)
    requires i <= |s|
    ensures Member(s, i, comma, true) != OtherError ==> Member(s, i, comma, false) == Member(s, i, comma, true)
    decreases |s| - i, 0
  {
    hide Value, StrBody, SkipSpace, KindAt;
    var q := Element(s, i, comma);
    if q.Some? && SkipStr(s, q.value, true).At? {
      var p := SkipSpace(s, SkipStr(s, q.value, true).pos);
      if p < |s| {
        CheckedAgrees(s, p + 1, false);
      }
    }
  }

  lemma ValidateAgrees(s: string)
    requires Validate(s, true) != OtherError
    ensures Validate(s, false) == Validate(s, true)
  {
    CheckedAgrees(s, 0, false);
  }

  /** The last character before a position that is not white space. */
  function Before(s: string, p: nat): (c: Option<char>)
    requires p <= |s|
  {
    if p == 0 then None else if IsSpace(s[p - 1]) then Before(s, p - 1) else Some(s[p - 1])
  }

  /** Where a value starts: at the beginning, after an opening bracket or after a colon. */
  predicate Starts(c: Option<char>) {
    c.None? || c.value in {'[', '{', ':'}
  }

  /** A comma where a value should start, in front of a string. */
  predicate StrayComma(s: string, p: nat) {
    p < |s| && s[p] == ',' && Starts(Before(s, p)) && CharAt(s, SkipSpace(s, p + 1)) == '"'
  }

  ghost predicate NoStrayComma(s: string) {
    forall p :: !StrayComma(s, p)
  }

  lemma {:induction false} BeforeSpace(s: string, i: nat, p: nat)
    requires i <= p <= |s| && forall k :: i <= k < p ==> IsSpace(s[k])
    ensures Before(s, p) == Before(s, i)
  {
    if i < p {
      BeforeSpace(s, i, p - 1);
    }
  }

  /** Whatever is read first from `i` on, if it is a comma then it stands where a value starts. */
  ghost predicate AtStart(s: string, i: nat) {
    i <= |s| && (CharAt(s, SkipSpace(s, i)) == ',' ==> Starts(Before(s, i)))
  }

  lemma StringHasQuote(s: string, i: nat, comma: bool)
    requires i <= |s| && NoStrayComma(s) && (comma || AtStart(s, i))
    requires Element(s, i, comma).Some? && KindAfterComma(s, i) == Some(Str)
    ensures CharAt(s, Element(s, i, comma).value) == '"'
  {
    var p := SkipSpace(s, i);
    BeforeSpace(s, i, p);
    assert !StrayComma(s, p);
  }

  lemma BracketStarts(s: string, i: nat, comma: bool)
    requires i <= |s| && Element(s, i, comma).Some?
    requires KindAfterComma(s, i).Some? && KindAfterComma(s, i).value in {ArrayBegin, ObjectBegin}
    ensures Element(s, i, comma).value < |s| && AtStart(s, Element(s, i, comma).value + 1)
  {
    KindConsumes(s, i, comma);
    var q := Element(s, i, comma).value;
    assert s[q] in {'[', '{', ','};
  }

  /** Without stray commas the assertions never fail: both builds read the same. */
  lemma {:induction false} BuildsAgree(s: string, i: nat, comma: bool)
    requires i <= |s| && NoStrayComma(s) && (comma || AtStart(s, i))
    ensures Value(s, i, comma, false) == Value(s, i, comma, true)
    decreases |s| - i, 0
  {
    hide StrBody, SkipNumber, SkipWord, Elements, Members, SkipSpace, KindAt, KindAfterComma, Element, AtStart;
    var kind, q := KindAfterComma(s, i), Element(s, i, comma);
    if kind.Some? && q.Some? {
      if kind.value.Str? {
        StringHasQuote(s, i, comma);
      } else if kind.value in {ArrayBegin, ObjectBegin} {
        BracketStarts(s, i, comma);
        ElementsSame(s, q.value + 1, false);
        MembersSame(s, q.value + 1, false);
      }
    }
  }

  lemma {:induction false} ElementsSame(s: string, i: nat, comma: bool)
    requires i <= |s| && NoStrayComma(s) && (comma || AtStart(s, i))
    ensures Elements(s, i, comma, false) == Elements(s, i, comma, true)
    decreases |s| - i, 1
  {
    hide Value, SkipSpace, KindAt, AtStart;
    BuildsAgree(s, i, comma);
    if Value(s, i, comma, true).At? {
      ElementsSame(s, Value(s, i, comma, true).pos, true);
    }
  }

  lemma {:induction false} MembersSame(s: string, i: nat, comma: bool)
    requires i <= |s| && NoStrayComma(s) && (comma || AtStart(s, i))
    ensures Members(s, i, comma, false) == Members(s, i, comma, true)
    decreases |s| - i, 1
  {
    hide Member, SkipSpace, KindAt, AtStart;
    MemberSame(s, i, comma);
    if Member(s, i, comma, true).At? {
      MembersSame(s, Member(s, i, comma, true).pos, true);
    }
  }

  lemma {:induction false} MemberSame(s: string, i: nat, comma: bool)
    requires i <= |s| && NoStrayComma(s) && (comma || AtStart(s, i))
    ensures Member(s, i, comma, false) == Member(s, i, comma, true)
    decreases |s| - i, 0
  {
    hide Value, StrBody, SkipSpace, KindAfterComma, Element, AtStart;
    var q := Element(s, i, comma);
    if KindAfterComma(s, i) == Some(Str) && q.Some? {
      StringHasQuote(s, i, comma);
      if SkipStr(s, q.value, true).At? {
        var p := SkipSpace(s, SkipStr(s, q.value, true).pos);
        if p < |s| && s[p] == ':' {
          AfterColon(s, p);
          BuildsAgree(s, p + 1, false);
        }
      }
    }
  }

  lemma AfterColon(s: string, p: nat)
    requires p < |s| && s[p] == ':'
    ensures AtStart(s, p + 1)
  {
  }

  /** The lexical reason why builds can differ: a text on which they do has a comma where a value should start,
      in front of a string. */
  lemma NoStrayCommaAgrees(s: string)
    requires NoStrayComma(s)
    ensures Validate(s, false) == Validate(s, true)
  {
    BuildsAgree(s, 0, false);
  }

  /** Without assertions the validator accepts a string that starts at a comma. */
  lemma CommaStartsString()
    ensures Validate(",\"", false) == At(2) && Validate(",\"", true) == OtherError
  {
    var s := ",\"";
    assert KindAfterComma(s, 0) == Some(Str);
    assert StrBody(s, 1) == At(2);
  }

  // ---------------------------------------------------------------------------------------------
  // Strings as the writer writes them and the reader reads them

  /** The escape that the writer uses for a character, if it uses one. */
  function EscapeOf(c: char): (e: Option<char>)
    ensures e.Some? ==> e.value != 'u'
  {
    if c == '"' then Some('"') else if c == '\\' then Some('\\')
    else if c == '\n' then Some('n') else if c == '\r' then Some('r') else if c == '\t' then Some('t')
    else if c == '\U{0008}' then Some('b') else if c == '\U{000c}' then Some('f')
    else None
  }

  function WriteChar(c: char): string {
    if EscapeOf(c).Some? then ['\\', EscapeOf(c).value] else [c]
  }

  function WriteBody(t: string): string {
    if t == [] then "\"" else WriteChar(t[0]) + WriteBody(t[1..])
  }

  /** jsonWriteStr. */
  function Quote(t: string): string {
    "\"" + WriteBody(t)
  }

  function Unescape(c: char): Option<char> {
    if c == '"' then Some('"') else if c == '\\' then Some('\\') else if c == '/' then Some('/')
    else if c == 'n' then Some('\n') else if c == 'r' then Some('\r') else if c == 't' then Some('\t')
    else if c == 'b' then Some('\U{0008}') else if c == 'f' then Some('\U{000c}')
    else None
  }

  function HexValue(c: char): (h: Option<nat>)
    ensures h.Some? ==> h.value < 16
  {
    if '0' <= c <= '9' then Some(c as nat - '0' as nat)
    else if 'a' <= c <= 'f' then Some(c as nat - 'a' as nat + 10)
    else if 'A' <= c <= 'F' then Some(c as nat - 'A' as nat + 10)
    else None
  }

  /** jsonReadStr after the opening quote: the decoded text when the string is closed and well formed. Only the
      lowest 256 characters can be written with a unicode escape. */
  function ReadBody(s: string, i: nat): (r: Option<string>)
    decreases if i <= |s| then |s| - i else 0
  {
    if i >= |s| then None
    else if s[i] == '"' then Some("")
    else if s[i] != '\\' then Prepend(s[i], ReadBody(s, i + 1))
    else if i + 1 >= |s| then None
    else if s[i + 1] != 'u' then
      if Unescape(s[i + 1]).None? then None else Prepend(Unescape(s[i + 1]).value, ReadBody(s, i + 2))
    else if i + 5 < |s| && s[i + 2..i + 4] == "00" && HexValue(s[i + 4]).Some? && HexValue(s[i + 5]).Some? then
      Prepend((HexValue(s[i + 4]).value * 16 + HexValue(s[i + 5]).value) as char, ReadBody(s, i + 6))
    else None
  }

  function Prepend(c: char, r: Option<string>): Option<string> {
    if r.Some? then Some([c] + r.value) else None
  }

  /** jsonReadStr at the start of a text: white space is skipped, and so is the character that should be the
      opening quote. */
  function ReadStr(s: string): Option<string> {
    if KindAfterComma(s, 0) == Some(Str) then ReadBody(s, SkipSpace(s, 0) + 1) else None
  }

  /** jsonReadNumber at the start of a text, for a number without a sign. */
  function ReadNumber(s: string): Option<nat> {
    var q := SkipSpace(s, 0);
    if KindAfterComma(s, 0) == Some(Number) && CharAt(s, q) != '-' && SkipNumber(s, q).At?
    then Some(Decimal(s[q..q + Digits(s, q)]))
    else None
  }

  /** Reading back what was written gives the original text, on every text, also behind white space. */
  lemma ReadWrite(space: string, t: string)
    requires forall k :: 0 <= k < |space| ==> IsSpace(space[k])
    ensures ReadStr(space + Quote(t)) == Some(t)
  {
    var s := space + Quote(t);
    assert s == (space + "\"") + WriteBody(t) && s[|space|] == '"';
    ReadWriteBody(space + "\"", t);
    SpaceEnds(s, |space|, 0);
  }

  lemma {:induction false} SpaceEnds(s: string, n: nat, i: nat)
    requires i <= n < |s| && !IsSpace(s[n]) && forall k :: i <= k < n ==> IsSpace(s[k])
    ensures SkipSpace(s, i) == n
    decreases n - i
  {
    if i < n {
      SpaceEnds(s, n, i + 1);
    }
  }

  lemma {:induction false} ReadWriteBody(a: string, t: string)
    ensures ReadBody(a + WriteBody(t), |a|) == Some(t)
    decreases |t|
  {
    hide HexValue;
    var s := a + WriteBody(t);
    if t != [] {
      var w := WriteChar(t[0]);
      assert s == (a + w) + WriteBody(t[1..]);
      ReadWriteBody(a + w, t[1..]);
      assert s[|a|] == w[0] && (|w| == 2 ==> s[|a| + 1] == w[1]);
      assert t == [t[0]] + t[1..];
    }
  }

  /** What the writer writes is accepted by the validator, in every build, ends in a quote and holds no line
      feed. */
  lemma QuoteValid(t: string, checked: bool)
    ensures Valid(Quote(t), checked)
    ensures '\n' !in Quote(t) && Quote(t)[0] == '"' && Quote(t)[|Quote(t)| - 1] == '"'
  {
    var s := Quote(t);
    WriteBodyValid("\"", t);
    WriteBodyShape(t);
    assert s == "\"" + WriteBody(t);
    assert KindAfterComma(s, 0) == Some(Str);
    assert Value(s, 0, false, checked) == At(|s|);
  }

  lemma {:induction false} WriteBodyValid(a: string, t: string)
    ensures StrBody(a + WriteBody(t), |a|) == At(|a + WriteBody(t)|)
    decreases |t|
  {
    var s := a + WriteBody(t);
    if t != [] {
      var w := WriteChar(t[0]);
      assert s == (a + w) + WriteBody(t[1..]);
      WriteBodyValid(a + w, t[1..]);
      assert s[|a|] == w[0] && (|w| == 2 ==> s[|a| + 1] == w[1]);
    }
  }

  lemma {:induction false} WriteBodyShape(t: string)
    ensures '\n' !in WriteBody(t) && WriteBody(t) != [] && WriteBody(t)[|WriteBody(t)| - 1] == '"'
  {
    if t != [] {
      WriteBodyShape(t[1..]);
    }
  }
}
