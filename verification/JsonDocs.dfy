/** What the JSON validator accepts: every printed document, and every accepted text inside a larger one. */
module JsonDocs {
  import opened Wrappers
  import opened Json

  // ---------------------------------------------------------------------------------------------
  // Accepted text inside a larger text

  /** The text `v` stands in `s` from position `n` on, and no digit follows it. */
  ghost predicate In(s: string, n: nat, v: string) {
    && n + |v| <= |s| && (forall k :: 0 <= k < |v| ==> s[n + k] == v[k])
    && !IsDigit(CharAt(s, n + |v|))
  }

  lemma {:induction false} SpaceIn(s: string, n: nat, v: string, i: nat)
    requires In(s, n, v) && i <= |v| && SkipSpace(v, i) < |v|
    ensures SkipSpace(s, n + i) == n + SkipSpace(v, i)
    decreases |v| - i
  {
    assert s[n + i] == v[i];
    if IsSpace(v[i]) {
      SpaceIn(s, n, v, i + 1);
    }
  }

  lemma KindIn(s: string, n: nat, v: string, i: nat)
    requires In(s, n, v) && i <= |v| && KindAfterComma(v, i).Some?
    ensures KindAfterComma(s, n + i) == KindAfterComma(v, i)
  {
    var p := SkipSpace(v, i);
    SpaceIn(s, n, v, i);
    assert s[n + p] == v[p];
    if v[p] == ',' {
      SpaceIn(s, n, v, p + 1);
      assert s[n + SkipSpace(v, p + 1)] == v[SkipSpace(v, p + 1)];
    }
  }

  lemma ElementIn(s: string, n: nat, v: string, i: nat, comma: bool)
    requires In(s, n, v) && i <= |v| && KindAfterComma(v, i).Some? && Element(v, i, comma).Some?
    ensures Element(v, i, comma).value < |v|
    ensures Element(s, n + i, comma) == Some(n + Element(v, i, comma).value)
  {
    var p := SkipSpace(v, i);
    SpaceIn(s, n, v, i);
    assert s[n + p] == v[p];
    if comma {
      SpaceIn(s, n, v, p + 1);
    }
  }

  lemma {:induction false} StrBodyIn(s: string, n: nat, v: string, i: nat)
    requires In(s, n, v) && StrBody(v, i).At?
    ensures StrBody(s, n + i) == At(n + StrBody(v, i).pos)
    decreases |v| - i
  {
    assert s[n + i] == v[i];
    if v[i] != '"' {
      if v[i] != '\\' {
        StrBodyIn(s, n, v, i + 1);
      } else {
        assert s[n + i + 1] == v[i + 1];
        if v[i + 1] != 'u' {
          StrBodyIn(s, n, v, i + 2);
        } else {
          StrBodyIn(s, n, v, i + 7);
          assert s[n + i + 2] == v[i + 2] && s[n + i + 3] == v[i + 3] && s[n + i + 4] == v[i + 4]
            && s[n + i + 5] == v[i + 5];
        }
      }
    }
  }

  lemma {:induction false} DigitsIn(s: string, n: nat, v: string, i: nat)
    requires In(s, n, v) && i <= |v|
    ensures Digits(s, n + i) == Digits(v, i)
    decreases |v| - i
  {
    if i < |v| {
      assert s[n + i] == v[i];
      if IsDigit(v[i]) { DigitsIn(s, n, v, i + 1); }
    }
  }

  lemma SliceIn(s: string, n: nat, v: string, i: nat, j: nat)
    requires In(s, n, v) && i <= j <= |v|
    ensures s[n + i..n + j] == v[i..j]
  {
    forall k | 0 <= k < j - i ensures s[n + i..n + j][k] == v[i..j][k] { assert s[n + (i + k)] == v[i + k]; }
  }

  lemma NumberIn(s: string, n: nat, v: string, i: nat)
    requires In(s, n, v) && i <= |v| && SkipNumber(v, i).At?
    ensures SkipNumber(s, n + i) == At(n + SkipNumber(v, i).pos)
  {
    var sign := if CharAt(v, i) == '-' then 1 else 0;
    if i < |v| { assert s[n + i] == v[i]; }
    assert i < |v|;
    DigitsIn(s, n, v, i + sign);
    SliceIn(s, n, v, i + sign, i + sign + Digits(v, i + sign));
  }

  lemma WordIn(s: string, n: nat, v: string, i: nat, word: string)
    requires In(s, n, v) && i + |word| <= |v|
    ensures Matches(s, n + i, word) <==> Matches(v, i, word)
  {
    SliceIn(s, n, v, i, i + |word|);
  }

  lemma BoolIn(s: string, n: nat, v: string, i: nat)
    requires In(s, n, v) && SkipWord(v, i, ["true", "false"]).At?
    ensures SkipWord(s, n + i, ["true", "false"]) == At(n + SkipWord(v, i, ["true", "false"]).pos)
  {
    BoolIs(v, i);
    BoolIs(s, n + i);
    WordIn(s, n, v, i, "true");
    if !Matches(v, i, "true") {
      WordIn(s, n, v, i, "false");
    }
  }

  lemma BoolIs(s: string, i: nat)
    ensures SkipWord(s, i, ["true", "false"])
         == if Matches(s, i, "true") then At(i + 4) else if Matches(s, i, "false") then At(i + 5) else FormatError
  {
    assert ["true", "false"][1..] == ["false"] && ["false"][1..] == [];
    assert SkipWord(s, i, ["false"]) == if Matches(s, i, "false") then At(i + 5) else FormatError;
  }

  lemma NullIs(s: string, i: nat)
    ensures SkipWord(s, i, ["null"]) == if Matches(s, i, "null") then At(i + 4) else FormatError
  {
    assert ["null"][1..] == [];
  }

  lemma NullIn(s: string, n: nat, v: string, i: nat)
    requires In(s, n, v) && SkipWord(v, i, ["null"]).At?
    ensures SkipWord(s, n + i, ["null"]) == At(n + SkipWord(v, i, ["null"]).pos)
  {
    NullIs(v, i);
    NullIs(s, n + i);
    WordIn(s, n, v, i, "null");
  }

  /** A value that the validator skips in a text, it skips wherever that text stands. */
  lemma {:induction false} ValueIn(s: string, n: nat, v: string, i: nat, comma: bool, checked: bool)
    requires In(s, n, v) && i <= |v| && Value(v, i, comma, checked).At?
    ensures Value(s, n + i, comma, checked) == At(n + Value(v, i, comma, checked).pos)
    decreases |v| - i, 0
  {
    hide StrBody, SkipNumber, SkipWord, Element, KindAfterComma, Elements, Members;
    KindIn(s, n, v, i);
    ElementIn(s, n, v, i, comma);
    var kind, q := KindAfterComma(v, i).value, Element(v, i, comma).value;
    assert s[n + q] == v[q];
    KindConsumes(s, n + i, comma);
    match kind
    case Bool => BoolIn(s, n, v, q);
    case Null => NullIn(s, n, v, q);
    case Number => NumberIn(s, n, v, q);
    case Str => StrBodyIn(s, n, v, q + 1);
    case ArrayBegin => ElementsIn(s, n, v, q + 1, false, checked);
    case ObjectBegin => MembersIn(s, n, v, q + 1, false, checked);
  }

  lemma {:induction false} ElementsIn(s: string, n: nat, v: string, i: nat, comma: bool, checked: bool)
    requires In(s, n, v) && i <= |v| && Elements(v, i, comma, checked).At?
    ensures Elements(s, n + i, comma, checked) == At(n + Elements(v, i, comma, checked).pos)
    decreases |v| - i, 1
  {
    hide Value, KindAfterComma;
    KindIn(s, n, v, i);
    if KindAfterComma(v, i) == Some(ArrayEnd) {
      CloseIn(s, n, v, i, ']');
    } else {
      ValueIn(s, n, v, i, comma, checked);
      ElementsIn(s, n, v, Value(v, i, comma, checked).pos, true, checked);
    }
  }

  lemma CloseIn(s: string, n: nat, v: string, i: nat, c: char)
    requires In(s, n, v) && i <= |v| && c != NUL && CloseWith(v, i, c).At?
    ensures CloseWith(s, n + i, c) == At(n + CloseWith(v, i, c).pos)
  {
    SpaceIn(s, n, v, i);
    assert s[n + SkipSpace(v, i)] == v[SkipSpace(v, i)];
  }

  lemma {:induction false} MembersIn(s: string, n: nat, v: string, i: nat, comma: bool, checked: bool)
    requires In(s, n, v) && i <= |v| && Members(v, i, comma, checked).At?
    ensures Members(s, n + i, comma, checked) == At(n + Members(v, i, comma, checked).pos)
    decreases |v| - i, 1
  {
    hide Member, KindAfterComma;
    KindIn(s, n, v, i);
    if KindAfterComma(v, i) == Some(ObjectEnd) {
      CloseIn(s, n, v, i, '}');
    } else {
      MemberIn(s, n, v, i, comma, checked);
      MembersIn(s, n, v, Member(v, i, comma, checked).pos, true, checked);
    }
  }

  lemma {:induction false} MemberIn(s: string, n: nat, v: string, i: nat, comma: bool, checked: bool)
    requires In(s, n, v) && i <= |v| && Member(v, i, comma, checked).At?
    ensures Member(s, n + i, comma, checked) == At(n + Member(v, i, comma, checked).pos)
    decreases |v| - i, 0
  {
    hide StrBody, Element, KindAfterComma, Value;
    KindIn(s, n, v, i);
    ElementIn(s, n, v, i, comma);
    var q := Element(v, i, comma).value;
    assert s[n + q] == v[q];
    StrBodyIn(s, n, v, q + 1);
    var key := SkipStr(v, q, checked).pos;
    SpaceIn(s, n, v, key);
    var p := SkipSpace(v, key);
    assert s[n + p] == v[p];
    ValueIn(s, n, v, p + 1, false, checked);
  }

  // ---------------------------------------------------------------------------------------------
  // Documents

  /** A JSON document; a number is an integer, and an object keeps the order of its members. */
  datatype Doc =
    | NullDoc
    | BoolDoc(b: bool)
    | NumberDoc(n: int)
    | TextDoc(t: string)
    | ArrayDoc(elements: seq<Doc>)
    | ObjectDoc(members: seq<(string, Doc)>)

  /** Every number of the document fits 64 bits. */
  predicate Fits(d: Doc) {
    match d
    case NumberDoc(n) => 0 - INT64 <= n < UINT64
    case ArrayDoc(es) => forall e :: e in es ==> Fits(e)
    case ObjectDoc(ms) => forall m :: m in ms ==> Fits(m.1)
    case _ => true
  }

  function Numeral(n: nat): string {
    (if n < 10 then "" else Numeral(n / 10)) + ["0123456789"[n % 10]]
  }

  function Signed(n: int): string {
    if n < 0 then "-" + Numeral(-n) else Numeral(n)
  }

  predicate Blank(space: string) {
    forall k :: 0 <= k < |space| ==> space[k] in {' ', '\t', '\n', '\r'}
  }

  /** The text of a document, with the given white space in front of every part of it. */
  function Print(d: Doc, space: string): string {
    space +
    match d
    case NullDoc => "null"
    case BoolDoc(b) => if b then "true" else "false"
    case NumberDoc(n) => Signed(n)
    case TextDoc(t) => Quote(t)
    case ArrayDoc(es) => "[" + PrintElements(es, true, space)
    case ObjectDoc(ms) => "{" + PrintMembers(ms, true, space)
  }

  function PrintElements(es: seq<Doc>, first: bool, space: string): string {
    if es == [] then space + "]"
    else (if first then "" else space + ",") + Print(es[0], space) + PrintElements(es[1..], false, space)
  }

  function PrintMembers(ms: seq<(string, Doc)>, first: bool, space: string): string {
    if ms == [] then space + "}"
    else (if first then "" else space + ",") + PrintMember(ms[0], space) + PrintMembers(ms[1..], false, space)
  }

  function PrintMember(m: (string, Doc), space: string): string {
    space + Quote(m.0) + space + ":" + Print(m.1, space)
  }

  // ---------------------------------------------------------------------------------------------
  // Every document is accepted

  lemma InConcat(a: string, v: string, r: string)
    requires r == "" || !IsDigit(r[0])
    ensures In(a + v + r, |a|, v)
  {
    var s := a + v + r;
    forall k | 0 <= k < |v| ensures s[|a| + k] == v[k] {}
    if r != "" { assert s[|a| + |v|] == r[0]; }
  }

  lemma InFront(v: string, r: string)
    requires r == "" || !IsDigit(r[0])
    ensures In(v + r, 0, v)
  {
    var s := v + r;
    forall k | 0 <= k < |v| ensures s[0 + k] == v[k] {}
    if r != "" { assert s[|v|] == r[0]; }
  }

  lemma InBack(a: string, v: string)
    ensures In(a + v, |a|, v)
  {
    var s := a + v;
    forall k | 0 <= k < |v| ensures s[|a| + k] == v[k] {}
  }

  /** White space in front of something is skipped. */
  lemma SpaceAt(a: string, space: string, r: string)
    requires Blank(space) && r != "" && !IsSpace(r[0])
    ensures SkipSpace(a + space + r, |a|) == |a + space| && (a + space + r)[|a + space|] == r[0]
  {
    var s := a + space + r;
    forall k | |a| <= k < |a + space| ensures IsSpace(s[k]) { assert s[k] == space[k - |a|]; }
    SpaceEnds(s, |a + space|, |a|);
  }

  /** Behind the comma an element is read as it would be without one. */
  lemma AfterComma(s: string, i: nat, p: nat, checked: bool)
    requires i <= p < |s| && SkipSpace(s, i) == p && s[p] == ',' && CharAt(s, SkipSpace(s, p + 1)) != ','
    ensures KindAfterComma(s, i) == KindAfterComma(s, p + 1)
    ensures Value(s, i, true, checked) == Value(s, p + 1, false, checked)
    ensures Member(s, i, true, checked) == Member(s, p + 1, false, checked)
  {
    ElementAfterComma(s, i, p);
    SameStart(s, i, p + 1, true, false, checked);
  }

  /** What is read depends only on where it starts. */
  lemma SameStart(s: string, i: nat, j: nat, comma: bool, comma': bool, checked: bool)
    requires i <= |s| && j <= |s| && KindAfterComma(s, i) == KindAfterComma(s, j)
    requires Element(s, i, comma) == Element(s, j, comma')
    ensures Value(s, i, comma, checked) == Value(s, j, comma', checked)
    ensures Member(s, i, comma, checked) == Member(s, j, comma', checked)
  {
    SameMember(s, i, j, comma, comma', checked);
    hide SkipSpace, KindAfterComma, Element, SkipNumber, SkipStr, SkipWord, Elements, Members, Member;
  }

  lemma SameMember(s: string, i: nat, j: nat, comma: bool, comma': bool, checked: bool)
    requires i <= |s| && j <= |s| && KindAfterComma(s, i) == KindAfterComma(s, j)
    requires Element(s, i, comma) == Element(s, j, comma')
    ensures Member(s, i, comma, checked) == Member(s, j, comma', checked)
  {
    hide SkipSpace, KindAfterComma, Element, SkipStr, Value;
  }

  lemma ElementAfterComma(s: string, i: nat, p: nat)
    requires i <= p < |s| && SkipSpace(s, i) == p && s[p] == ',' && CharAt(s, SkipSpace(s, p + 1)) != ','
    ensures KindAfterComma(s, i) == KindAfterComma(s, p + 1)
    ensures Element(s, i, true) == Element(s, p + 1, false)
  {
  }

  /** A text that begins with something behind white space. */
  lemma Begins(space: string, r: string)
    requires Blank(space) && r != "" && !IsSpace(r[0]) && r[0] != ','
    ensures Element(space + r, 0, false) == Some(|space|)
    ensures KindAfterComma(space + r, 0) == KindAt(r, 0)
  {
    SpaceAt("", space, r);
    assert "" + space + r == space + r;
  }

  lemma ElementsNext(s: string, i: nat, checked: bool, first: bool, v: nat)
    requires i <= |s| && KindAfterComma(s, i).Some? && !KindAfterComma(s, i).value.ArrayEnd?
    requires Value(s, i, !first, checked) == At(v)
    ensures v <= |s| && Elements(s, i, !first, checked) == Elements(s, v, true, checked)
  {
    hide Value, KindAfterComma;
  }

  lemma MembersNext(s: string, i: nat, checked: bool, first: bool, v: nat)
    requires i <= |s| && KindAfterComma(s, i).Some? && !KindAfterComma(s, i).value.ObjectEnd?
    requires Member(s, i, !first, checked) == At(v)
    ensures v <= |s| && Members(s, i, !first, checked) == Members(s, v, true, checked)
  {
    hide Member, KindAfterComma;
  }

  lemma ContainerEnds(a: string, space: string, comma: bool, checked: bool)
    requires Blank(space)
    ensures Elements(a + (space + "]"), |a|, comma, checked) == At(|a + (space + "]")|)
    ensures Members(a + (space + "}"), |a|, comma, checked) == At(|a + (space + "}")|)
  {
    hide Value, Member;
    SpaceAt(a, space, "]");
    assert a + space + "]" == a + (space + "]");
    SpaceAt(a, space, "}");
    assert a + space + "}" == a + (space + "}");
  }

  lemma {:induction false} NumeralRead(n: nat, k: nat)
    requires k > 0 && n < Power(k)
    ensures 0 < |Numeral(n)| <= k && (forall i :: 0 <= i < |Numeral(n)| ==> IsDigit(Numeral(n)[i]))
    ensures Decimal(Numeral(n)) == n
  {
    hide Power, Decimal;
    PowerIs(k);
    PowerIs(k - 1);
    if n >= 10 {
      NumeralRead(n / 10, k - 1);
      assert Numeral(n) == Numeral(n / 10) + ["0123456789"[n % 10]];
      assert IsDigit("0123456789"[n % 10]);
      forall i | 0 <= i < |Numeral(n)| ensures IsDigit(Numeral(n)[i]) {
        if i < |Numeral(n / 10)| { assert Numeral(n)[i] == Numeral(n / 10)[i]; }
      }
      DecimalNext(Numeral(n));
      assert Numeral(n)[..|Numeral(n)| - 1] == Numeral(n / 10);
    } else {
      assert Numeral(n) == ["0123456789"[n % 10]];
      DecimalNext(Numeral(n));
      DecimalEmpty();
      assert Numeral(n)[..0] == "";
    }
  }

  lemma DecimalNext(s: string)
    requires s != "" && forall k :: 0 <= k < |s| ==> IsDigit(s[k])
    ensures Decimal(s) == 10 * Decimal(s[..|s| - 1]) + (s[|s| - 1] as int - '0' as int)
  {
  }

  lemma DecimalEmpty()
    ensures Decimal("") == 0
  {
  }

  lemma PowerIs(k: nat)
    ensures Power(k) == if k == 0 then 1 else 10 * Power(k - 1)
  {
  }

  function Power(k: nat): nat {
    if k == 0 then 1 else 10 * Power(k - 1)
  }

  lemma SixtyFourBits()
    ensures UINT64 <= Power(20)
  {
    assert Power(5) == 100_000;
    assert Power(10) == 100_000 * Power(5);
    assert Power(15) == 100_000 * Power(10);
    assert Power(20) == 100_000 * Power(15);
  }

  lemma {:induction false} AllDigits(a: string, digits: string, i: nat)
    requires i <= |digits| && forall k :: 0 <= k < |digits| ==> IsDigit(digits[k])
    ensures Digits(a + digits, |a| + i) == |digits| - i
    decreases |digits| - i
  {
    if i < |digits| {
      assert (a + digits)[|a| + i] == digits[i];
      AllDigits(a, digits, i + 1);
    }
  }

  lemma NumberRead(space: string, n: int)
    requires 0 - INT64 <= n < UINT64
    ensures var t := Signed(n);
      && SkipNumber(space + t, |space|) == At(|space + t|)
      && t != "" && (t[0] == '-' || IsDigit(t[0]))
  {
    hide Numeral, Decimal, Power, Signed;
    SixtyFourBits();
    var digits := Numeral(if n < 0 then -n else n);
    NumeralRead(if n < 0 then -n else n, 20);
    var a := space + if n < 0 then "-" else "";
    AllDigits(a, digits, 0);
    SignFirst(space, n);
    var s := space + Signed(n);
    assert s[|a|..|a| + |digits|] == digits;
  }

  lemma SignFirst(space: string, n: int)
    requires n < 0 || (Numeral(n) != "" && Numeral(n)[0] != '-')
    ensures space + Signed(n) == space + (if n < 0 then "-" else "") + Numeral(if n < 0 then -n else n)
    ensures CharAt(space + Signed(n), |space|) == '-' <==> n < 0
  {
    assert space + ("-" + Numeral(if n < 0 then -n else n)) == space + "-" + Numeral(if n < 0 then -n else n);
    assert space + "" == space;
  }

  lemma {:induction false} QuoteRead(a: string, t: string)
    ensures StrBody(a + Quote(t), |a| + 1) == At(|a + Quote(t)|)
  {
    WriteBodyValid(a + "\"", t);
    assert a + Quote(t) == a + "\"" + WriteBody(t);
  }

  /** A number is read if and only if it fits 64 bits; otherwise the error is none of format. */
  lemma NumberRange(space: string, n: int)
    requires 0 - Power(63) < n < Power(63)
    ensures SkipNumber(space + Signed(n), |space|)
         == if 0 - INT64 <= n < UINT64 then At(|space + Signed(n)|) else OtherError
  {
    hide Numeral, Decimal;
    var digits := Numeral(if n < 0 then -n else n);
    NumeralRead(if n < 0 then -n else n, 63);
    var a := space + if n < 0 then "-" else "";
    AllDigits(a, digits, 0);
    SignFirst(space, n);
    var s := space + Signed(n);
    assert s[|a|..|a| + |digits|] == digits;
  }

  /** Reading back a number gives the number, also behind white space, and nothing for a negative one. */
  lemma NumberReadBack(space: string, n: int)
    requires Blank(space) && 0 - INT64 <= n < UINT64
    ensures ReadNumber(space + Signed(n)) == if n < 0 then None else Some(n)
  {
    hide Numeral, Decimal, SkipNumber, KindAfterComma, KindAt, SkipSpace, Power, Digits, Signed;
    NumberRead(space, n);
    var t := Signed(n);
    KindOfFirst(t);
    Begins(space, t);
    SpaceFirst(space, t);
    SignedFirst(n);
    if n >= 0 {
      SixtyFourBits();
      NumeralRead(n, 20);
      AllDigits(space, Numeral(n), 0);
      var s := space + Numeral(n);
      assert s[|space|..|space| + |Numeral(n)|] == Numeral(n);
    }
  }

  lemma SignedFirst(n: int)
    ensures Signed(n) != "" && (Signed(n)[0] == '-' <==> n < 0)
    ensures n >= 0 ==> Signed(n) == Numeral(n)
  {
    if n >= 0 {
      NumeralDigits(n);
    }
  }

  lemma {:induction false} NumeralDigits(n: nat)
    ensures Numeral(n) != "" && Numeral(n)[0] != '-'
  {
    if n >= 10 {
      NumeralDigits(n / 10);
      assert Numeral(n)[0] == Numeral(n / 10)[0];
    }
  }

  lemma SpaceFirst(space: string, r: string)
    requires Blank(space) && r != "" && !IsSpace(r[0])
    ensures SkipSpace(space + r, 0) == |space| && CharAt(space + r, |space|) == r[0]
  {
    SpaceAt("", space, r);
    assert "" + space + r == space + r;
  }

  /** The characters that are written as escapes, and the others, which are written as they are. */
  lemma EscapesAre(c: char)
    ensures WriteChar('"') == "\\\"" && WriteChar('\\') == "\\\\"
    ensures WriteChar('\n') == "\\n" && WriteChar('\r') == "\\r" && WriteChar('\t') == "\\t"
    ensures WriteChar('\U{0008}') == "\\b" && WriteChar('\U{000c}') == "\\f"
    ensures c !in {'"', '\\', '\n', '\r', '\t', '\U{0008}', '\U{000c}'} ==> WriteChar(c) == [c]
  {
  }

  /** Reading a string: a slash may be escaped, a unicode escape has to be one of the lowest 256 characters in exactly
      two zeros and two hex digits of either case, and any other letter behind a backslash is refused. */
  lemma EscapesRead(h: nat, l: nat, upper: bool, c: char, rest: string)
    requires h < 16 && l < 16
    ensures var digits := if upper then "0123456789ABCDEF" else "0123456789abcdef";
      ReadBody("\\u00" + [digits[h], digits[l]] + rest, 0) == Prepend((h * 16 + l) as char, ReadBody(rest, 0))
    ensures ReadBody("\\/" + rest, 0) == Prepend('/', ReadBody(rest, 0))
    ensures c !in {'"', '\\', '/', 'n', 'r', 't', 'b', 'f', 'u'} ==> ReadBody(['\\', c] + rest, 0) == None
    ensures c != '0' ==> ReadBody("\\u" + [c] + rest, 0) == None && ReadBody("\\u0" + [c] + rest, 0) == None
  {
    hide ReadBody;
    var digits := if upper then "0123456789ABCDEF" else "0123456789abcdef";
    var s := "\\u00" + [digits[h], digits[l]] + rest;
    HexDigitValue(h, upper);
    HexDigitValue(l, upper);
    assert s[2..4] == "00" && s == s[..6] + rest && s[4] == digits[h] && s[5] == digits[l];
    assert (['\\', c] + rest)[1] == c;
    ReadUnicode(s, h, l);
    ReadBehind(s[..6], rest);
    ReadSimple("\\/" + rest);
    ReadBehind("\\/", rest);
    if c != 'u' { ReadSimple(['\\', c] + rest); }
    if c != '0' {
      var t, u := "\\u" + [c] + rest, "\\u0" + [c] + rest;
      assert t[0] == '\\' && t[1] == 'u' && t[2] == c;
      ReadRefused(t);
      assert u[0] == '\\' && u[1] == 'u' && u[3] == c;
      ReadRefused(u);
    }
  }

  lemma HexDigitValue(h: nat, upper: bool)
    requires h < 16
    ensures HexValue((if upper then "0123456789ABCDEF" else "0123456789abcdef")[h]) == Some(h)
  {
  }

  lemma ReadUnicode(s: string, h: nat, l: nat)
    requires |s| >= 6 && s[0] == '\\' && s[1] == 'u' && s[2..4] == "00"
    requires HexValue(s[4]) == Some(h) && HexValue(s[5]) == Some(l)
    ensures ReadBody(s, 0) == Prepend((h * 16 + l) as char, ReadBody(s, 6))
  {
    hide HexValue;
  }

  lemma ReadSimple(s: string)
    requires |s| >= 2 && s[0] == '\\' && s[1] != 'u'
    ensures ReadBody(s, 0) == if Unescape(s[1]).None? then None else Prepend(Unescape(s[1]).value, ReadBody(s, 2))
  {
    hide HexValue, Unescape;
  }

  lemma ReadRefused(s: string)
    requires |s| >= 3 && s[0] == '\\' && s[1] == 'u' && (s[2] != '0' || (|s| >= 4 && s[3] != '0'))
    ensures ReadBody(s, 0) == None
  {
    hide HexValue, Unescape;
    if |s| > 5 {
      assert s[2..4][0] == s[2] && s[2..4][1] == s[3];
    }
  }

  lemma {:induction false} ReadFrom(a: string, t: string, i: nat)
    requires i <= |t|
    ensures ReadBody(a + t, |a| + i) == ReadBody(t, i)
    decreases |t| - i
  {
    hide HexValue, Unescape;
    var s := a + t;
    if i < |t| {
      assert s[|a| + i] == t[i];
      if t[i] != '"' && t[i] != '\\' {
        ReadFrom(a, t, i + 1);
      } else if t[i] == '\\' && i + 1 < |t| {
        assert s[|a| + i + 1] == t[i + 1];
        if t[i + 1] != 'u' {
          ReadFrom(a, t, i + 2);
        } else if i + 5 < |t| {
          assert s[|a| + i + 2..|a| + i + 4] == t[i + 2..i + 4];
          assert s[|a| + i + 4] == t[i + 4] && s[|a| + i + 5] == t[i + 5];
          ReadFrom(a, t, i + 6);
        }
      }
    }
  }

  lemma ReadBehind(a: string, rest: string)
    ensures ReadBody(a + rest, |a|) == ReadBody(rest, 0)
  {
    ReadFrom(a, rest, 0);
  }

  /** Between the elements of an array, and between the members of an object, there has to be a comma, and between a
      key and its value a colon. */
  lemma CommaAndColonRequired(s: string, i: nat, checked: bool)
    requires i <= |s|
    ensures CharAt(s, SkipSpace(s, i)) != ',' ==>
      Value(s, i, true, checked) == FormatError && Member(s, i, true, checked) == FormatError
    ensures Member(s, i, false, checked).At? ==>
      var key := StrBody(s, SkipSpace(s, i) + 1);
      key.At? && CharAt(s, SkipSpace(s, key.pos)) == ':'
  {
    hide StrBody, SkipNumber, SkipWord, Elements, Members;
  }

  /** What a document begins with. */
  function KindOf(d: Doc): Kind {
    match d
    case NullDoc => Null
    case BoolDoc(_) => Bool
    case NumberDoc(_) => Number
    case TextDoc(_) => Str
    case ArrayDoc(_) => ArrayBegin
    case ObjectDoc(_) => ObjectBegin
  }

  lemma KindOfFirst(r: string)
    requires r != "" && !IsSpace(r[0])
    ensures r[0] == 'n' ==> KindAt(r, 0) == Some(Null)
    ensures r[0] in {'t', 'f'} ==> KindAt(r, 0) == Some(Bool)
    ensures r[0] == '-' || IsDigit(r[0]) ==> KindAt(r, 0) == Some(Number)
    ensures r[0] == '"' ==> KindAt(r, 0) == Some(Str)
    ensures r[0] == '[' ==> KindAt(r, 0) == Some(ArrayBegin)
    ensures r[0] == '{' ==> KindAt(r, 0) == Some(ObjectBegin)
  {
  }

  /** What the validator does with a value behind white space, by its first character. */
  lemma ValueBehind(space: string, r: string, checked: bool)
    requires Blank(space) && r != "" && !IsSpace(r[0]) && r[0] != ',' && KindAt(r, 0).Some?
    ensures var s, q := space + r, |space|;
      && KindAfterComma(s, 0) == KindAt(r, 0)
      && match KindAt(r, 0).value
         case Null => Value(s, 0, false, checked) == SkipWord(s, q, ["null"])
         case Bool => Value(s, 0, false, checked) == SkipWord(s, q, ["true", "false"])
         case Number => Value(s, 0, false, checked) == SkipNumber(s, q)
         case Str => Value(s, 0, false, checked) == SkipStr(s, q, checked)
         case ArrayBegin => Value(s, 0, false, checked) == Elements(s, q + 1, false, checked)
         case ObjectBegin => Value(s, 0, false, checked) == Members(s, q + 1, false, checked)
         case _ => true
  {
    Begins(space, r);
    hide KindAt, SkipNumber, SkipStr, SkipWord, Elements, Members, Element, KindAfterComma;
  }

  lemma WordHere(space: string, word: string, other: string)
    requires word != "" && other != "" && (word == other || word[0] != other[0])
    ensures Matches(space + word, |space|, other) <==> word == other
  {
    var s := space + word;
    assert s[|space|] == word[0];
    if Matches(s, |space|, other) { assert s[|space|] == s[|space|..|space| + |other|][0]; }
    if word == other { assert s[|space|..|space| + |other|] == word; }
  }

  lemma ScalarRead(d: Doc, space: string, checked: bool)
    requires Fits(d) && Blank(space) && !d.ArrayDoc? && !d.ObjectDoc?
    ensures KindAfterComma(Print(d, space), 0) == Some(KindOf(d))
    ensures Value(Print(d, space), 0, false, checked) == At(|Print(d, space)|)
  {
    hide SkipNumber, StrBody, SkipWord, Value, KindAfterComma, KindAt, Signed, Quote;
    var s := Print(d, space);
    match d
    case NullDoc =>
      KindOfFirst("null");
      ValueBehind(space, "null", checked);
      NullIs(s, |space|);
    case BoolDoc(b) =>
      KindOfFirst(if b then "true" else "false");
      ValueBehind(space, if b then "true" else "false", checked);
      BoolIs(s, |space|);
      WordHere(space, if b then "true" else "false", "true");
      WordHere(space, if b then "true" else "false", "false");
    case NumberDoc(n) =>
      NumberRead(space, n);
      KindOfFirst(Signed(n));
      ValueBehind(space, Signed(n), checked);
    case TextDoc(t) =>
      QuoteStarts(t);
      KindOfFirst(Quote(t));
      ValueBehind(space, Quote(t), checked);
      QuoteRead(space, t);
      assert s[|space|] == Quote(t)[0];
  }

  lemma QuoteStarts(t: string)
    ensures Quote(t) != "" && Quote(t)[0] == '"'
  {
  }

  /** A printed document is read to its end, and by its first character for what it is. */
  lemma {:induction false} PrintRead(d: Doc, space: string, checked: bool)
    requires Fits(d) && Blank(space)
    ensures KindAfterComma(Print(d, space), 0) == Some(KindOf(d))
    ensures Value(Print(d, space), 0, false, checked) == At(|Print(d, space)|)
    decreases d, 0
  {
    hide Value, KindAfterComma, KindAt, Elements, Members, PrintElements, PrintMembers;
    if d.ArrayDoc? {
      var es := PrintElements(d.elements, true, space);
      ElementsRead(space + "[", d.elements, true, space, checked);
      assert space + ("[" + es) == (space + "[") + es;
      KindOfFirst("[" + es);
      ValueBehind(space, "[" + es, checked);
    } else if d.ObjectDoc? {
      var ms := PrintMembers(d.members, true, space);
      MembersRead(space + "{", d.members, true, space, checked);
      assert space + ("{" + ms) == (space + "{") + ms;
      KindOfFirst("{" + ms);
      ValueBehind(space, "{" + ms, checked);
    } else {
      ScalarRead(d, space, checked);
    }
  }

  lemma {:induction false} ElementsRead(a: string, es: seq<Doc>, first: bool, space: string, checked: bool)
    requires (forall e :: e in es ==> Fits(e)) && Blank(space)
    ensures var s := a + PrintElements(es, first, space); Elements(s, |a|, !first, checked) == At(|s|)
    decreases es, 1
  {
    hide Value, Fits, Elements, KindAfterComma, Print;
    if es == [] {
      ContainerEnds(a, space, !first, checked);
    } else {
      var v, rest := Print(es[0], space), PrintElements(es[1..], false, space);
      PrintRead(es[0], space, checked);
      PrintStarts(es[0], space);
      ElementsStart(es[1..], space);
      var b := a + Separator(first, space);
      ElementsStep(a, first, space, v, rest, checked);
      ElementsRead(b + v, es[1..], false, space, checked);
      assert a + PrintElements(es, first, space) == b + v + rest;
    }
  }

  function Separator(first: bool, space: string): string {
    if first then "" else space + ","
  }

  lemma SeparatorBehind(a: string, first: bool, space: string, v: string, rest: string, checked: bool)
    requires Blank(space) && Starts(v) && rest != "" && !IsDigit(rest[0])
    ensures var b := a + Separator(first, space);
      var s := b + v + rest;
      && |a| <= |b| <= |s|
      && KindAfterComma(s, |a|) == KindAfterComma(s, |b|)
      && Value(s, |a|, !first, checked) == Value(s, |b|, false, checked)
      && Member(s, |a|, !first, checked) == Member(s, |b|, false, checked)
  {
    hide Value, Member, KindAfterComma, Starts, Blank;
    if !first {
      CommaFirst(a, space, v, rest, checked);
    }
  }

  /** One element, with the comma in front of it unless it is the first. */
  lemma ElementsStep(a: string, first: bool, space: string, v: string, rest: string, checked: bool)
    requires Blank(space) && Starts(v) && Value(v, 0, false, checked) == At(|v|)
    requires KindAfterComma(v, 0).Some? && !KindAfterComma(v, 0).value.ArrayEnd?
    requires rest != "" && !IsDigit(rest[0])
    ensures var b := a + Separator(first, space);
      Elements(b + v + rest, |a|, !first, checked) == Elements(b + v + rest, |b + v|, true, checked)
  {
    hide Value, Elements, KindAfterComma, In, Starts, SkipSpace, IsSpace, Blank, Member, Separator;
    var b := a + Separator(first, space);
    InConcat(b, v, rest);
    SeparatorBehind(a, first, space, v, rest, checked);
    ElementAt(b + v + rest, |a|, |b|, v, first, checked);
  }

  lemma ElementAt(s: string, i: nat, n: nat, v: string, first: bool, checked: bool)
    requires i <= n && In(s, n, v) && Value(v, 0, false, checked) == At(|v|)
    requires KindAfterComma(v, 0).Some? && !KindAfterComma(v, 0).value.ArrayEnd?
    requires KindAfterComma(s, i) == KindAfterComma(s, n) && Value(s, i, !first, checked) == Value(s, n, false, checked)
    ensures Elements(s, i, !first, checked) == Elements(s, n + |v|, true, checked)
  {
    hide Value, Elements, KindAfterComma;
    KindIn(s, n, v, 0);
    ValueIn(s, n, v, 0, false, checked);
    ElementsNext(s, i, checked, first, n + |v|);
  }

  lemma MemberAt(s: string, i: nat, n: nat, v: string, first: bool, checked: bool)
    requires i <= n && In(s, n, v) && Member(v, 0, false, checked) == At(|v|)
    requires KindAfterComma(v, 0).Some? && !KindAfterComma(v, 0).value.ObjectEnd?
    requires KindAfterComma(s, i) == KindAfterComma(s, n)
      && Member(s, i, !first, checked) == Member(s, n, false, checked)
    ensures Members(s, i, !first, checked) == Members(s, n + |v|, true, checked)
  {
    hide Member, Members, KindAfterComma;
    KindIn(s, n, v, 0);
    MemberIn(s, n, v, 0, false, checked);
    MembersNext(s, i, checked, first, n + |v|);
  }

  lemma MembersStep(a: string, first: bool, space: string, v: string, rest: string, checked: bool)
    requires Blank(space) && Starts(v) && Member(v, 0, false, checked) == At(|v|)
    requires KindAfterComma(v, 0).Some? && !KindAfterComma(v, 0).value.ObjectEnd?
    requires rest != "" && !IsDigit(rest[0])
    ensures var b := a + Separator(first, space);
      Members(b + v + rest, |a|, !first, checked) == Members(b + v + rest, |b + v|, true, checked)
  {
    hide Member, Members, KindAfterComma, In, Starts, SkipSpace, IsSpace, Blank, Value, Separator;
    var b := a + Separator(first, space);
    InConcat(b, v, rest);
    SeparatorBehind(a, first, space, v, rest, checked);
    MemberAt(b + v + rest, |a|, |b|, v, first, checked);
  }

  /** The first character behind the white space is no comma. */
  ghost predicate Starts(v: string) {
    SkipSpace(v, 0) < |v| && v[SkipSpace(v, 0)] != ','
  }

  lemma PrintStarts(d: Doc, space: string)
    requires Blank(space) && Fits(d)
    ensures Starts(Print(d, space))
  {
    var s := Print(d, space);
    var r := s[|space|..];
    if d.NumberDoc? { NumberRead(space, d.n); }
    hide Signed, PrintElements, PrintMembers;
    assert s == "" + space + r;
    SpaceAt("", space, r);
  }

  lemma CommaFirst(a: string, space: string, v: string, rest: string, checked: bool)
    requires Blank(space) && Starts(v) && (rest == "" || !IsDigit(rest[0]))
    ensures var b := a + (space + ",");
      var s := b + v + rest;
      && KindAfterComma(s, |a|) == KindAfterComma(s, |b|)
      && Value(s, |a|, true, checked) == Value(s, |b|, false, checked)
      && Member(s, |a|, true, checked) == Member(s, |b|, false, checked)
  {
    hide Value, Member, KindAfterComma, In, Starts, SkipSpace;
    var b := a + (space + ",");
    CommaBehind(a, space, v, rest);
    InConcat(b, v, rest);
    CommaThen(b + v + rest, |a|, |a| + |space|, v, checked);
  }

  lemma CommaThen(s: string, i: nat, p: nat, v: string, checked: bool)
    requires i <= p < |s| && SkipSpace(s, i) == p && s[p] == ',' && In(s, p + 1, v) && Starts(v)
    ensures KindAfterComma(s, i) == KindAfterComma(s, p + 1)
    ensures Value(s, i, true, checked) == Value(s, p + 1, false, checked)
    ensures Member(s, i, true, checked) == Member(s, p + 1, false, checked)
  {
    hide Value, Member, KindAfterComma, SkipSpace;
    FirstIn(s, p + 1, v);
    AfterComma(s, i, p, checked);
  }

  lemma CommaBehind(a: string, space: string, v: string, rest: string)
    requires Blank(space)
    ensures var s := a + (space + ",") + v + rest;
      SkipSpace(s, |a|) == |a| + |space| && s[|a| + |space|] == ','
  {
    hide SkipSpace;
    CommaAt(a, space, v + rest);
    Regroup(a, space, v, rest);
  }

  lemma Regroup(a: string, space: string, v: string, rest: string)
    ensures a + (space + ",") + v + rest == a + space + ("," + (v + rest))
  {
  }

  lemma CommaAt(a: string, space: string, r: string)
    requires Blank(space)
    ensures var s := a + space + ("," + r); SkipSpace(s, |a|) == |a + space| && s[|a + space|] == ','
  {
    SpaceAt(a, space, "," + r);
  }

  lemma FirstIn(s: string, n: nat, v: string)
    requires In(s, n, v) && Starts(v)
    ensures CharAt(s, SkipSpace(s, n)) != ','
  {
    SpaceIn(s, n, v, 0);
    assert s[n + SkipSpace(v, 0)] == v[SkipSpace(v, 0)];
  }

  lemma ElementsStart(es: seq<Doc>, space: string)
    requires Blank(space)
    ensures var t := PrintElements(es, false, space); t != "" && !IsDigit(t[0])
  {
  }

  lemma MembersStart(ms: seq<(string, Doc)>, space: string)
    requires Blank(space)
    ensures var t := PrintMembers(ms, false, space); t != "" && !IsDigit(t[0])
  {
  }

  lemma {:induction false} MembersRead(a: string, ms: seq<(string, Doc)>, first: bool, space: string, checked: bool)
    requires (forall m :: m in ms ==> Fits(m.1)) && Blank(space)
    ensures var s := a + PrintMembers(ms, first, space); Members(s, |a|, !first, checked) == At(|s|)
    decreases ms, 2
  {
    hide Member, Fits, Members, KindAfterComma, PrintMember, Starts, Blank;
    if ms == [] {
      ContainerEnds(a, space, !first, checked);
    } else {
      var v, rest := PrintMember(ms[0], space), PrintMembers(ms[1..], false, space);
      MemberRead(ms[0], space, checked);
      MembersStart(ms[1..], space);
      var b := a + Separator(first, space);
      MembersStep(a, first, space, v, rest, checked);
      MembersRead(b + v, ms[1..], false, space, checked);
      assert a + PrintMembers(ms, first, space) == b + v + rest;
    }
  }

  lemma {:induction false} MemberRead(m: (string, Doc), space: string, checked: bool)
    requires Fits(m.1) && Blank(space)
    ensures KindAfterComma(PrintMember(m, space), 0) == Some(Str) && Starts(PrintMember(m, space))
    ensures Member(PrintMember(m, space), 0, false, checked) == At(|PrintMember(m, space)|)
    decreases m, 1
  {
    hide Fits;
    PrintRead(m.1, space, checked);
    MemberOf(m.0, Print(m.1, space), space, checked);
  }

  lemma MemberOf(key: string, value: string, space: string, checked: bool)
    requires Blank(space) && Value(value, 0, false, checked) == At(|value|)
    ensures var v := space + Quote(key) + space + ":" + value;
      && KindAfterComma(v, 0) == Some(Str) && Starts(v) && Member(v, 0, false, checked) == At(|v|)
  {
    hide Value, StrBody, Quote;
    QuoteRead("", key);
    QuoteStarts(key);
    assert "" + Quote(key) == Quote(key);
    MemberAtKey(Quote(key), value, space, checked);
  }

  /** A string as a key, a colon and a value. */
  lemma MemberAtKey(key: string, value: string, space: string, checked: bool)
    requires Blank(space) && key != "" && key[0] == '"' && StrBody(key, 1) == At(|key|)
    requires Value(value, 0, false, checked).At?
    ensures var v := space + key + space + ":" + value;
      && KindAfterComma(v, 0) == Some(Str) && Starts(v)
      && Member(v, 0, false, checked) == At(|v| - |value| + Value(value, 0, false, checked).pos)
  {
    hide Value, StrBody, Member, KindAfterComma, Element, SkipSpace, Starts;
    var k := space + key;
    var v := k + space + ":" + value;
    KeyBegins(space, key, space + ":" + value);
    assert v == k + (space + ":" + value);
    KeyEnds(space, key, space + ":" + value, checked);
    assert v == k + space + (":" + value);
    ColonBehind(k, space, value);
    InBack(k + space + ":", value);
    ValueIn(v, |k| + |space| + 1, value, 0, false, checked);
    MemberIs(v, |space|, |k|, |k| + |space|, checked);
  }

  lemma KeyBegins(space: string, key: string, r: string)
    requires Blank(space) && key != "" && key[0] == '"'
    ensures var s := space + key + r;
      && KindAfterComma(s, 0) == Some(Str) && Element(s, 0, false) == Some(|space|) && Starts(s)
  {
    var t := key + r;
    assert space + key + r == space + t && t[0] == '"';
    KindOfFirst(t);
    Begins(space, t);
    hide KindAfterComma, KindAt;
    BeginsStarts(space, t);
  }

  lemma BeginsStarts(space: string, t: string)
    requires Blank(space) && t != "" && !IsSpace(t[0]) && t[0] != ','
    ensures Starts(space + t)
  {
    SpaceAt("", space, t);
    assert "" + space + t == space + t;
  }

  lemma KeyEnds(space: string, key: string, r: string, checked: bool)
    requires key != "" && key[0] == '"' && StrBody(key, 1) == At(|key|) && r != "" && !IsDigit(r[0])
    ensures SkipStr(space + key + r, |space|, checked) == At(|space + key|)
  {
    hide StrBody;
    var k := space + key;
    InBack(space, key);
    StrBodyIn(k, |space|, key, 1);
    StrBodyBefore(k, r, |space| + 1);
    assert (k + r)[|space|] == key[0];
  }

  lemma ColonBehind(k: string, space: string, value: string)
    requires Blank(space)
    ensures var s := k + space + (":" + value);
      SkipSpace(s, |k|) == |k| + |space| && CharAt(s, |k| + |space|) == ':'
  {
    SpaceAt(k, space, ":" + value);
  }

  lemma MemberIs(s: string, q: nat, r: nat, p: nat, checked: bool)
    requires KindAfterComma(s, 0) == Some(Str) && Element(s, 0, false) == Some(q)
    requires SkipStr(s, q, checked) == At(r) && SkipSpace(s, r) == p && CharAt(s, p) == ':'
    ensures Member(s, 0, false, checked) == Value(s, p + 1, false, checked)
  {
    hide KindAfterComma, Element, SkipStr, SkipSpace, Value;
  }

  lemma StrBodyBefore(v: string, r: string, i: nat)
    requires r != "" && !IsDigit(r[0]) && StrBody(v, i).At?
    ensures StrBody(v + r, i) == StrBody(v, i)
  {
    hide StrBody;
    InFront(v, r);
    StrBodyIn(v + r, 0, v, i);
  }

  /** The validator accepts every document whose numbers fit 64 bits, in every build, with white space wherever JSON
      allows it. */
  lemma PrintValid(d: Doc, space: string, checked: bool)
    requires Fits(d) && Blank(space)
    ensures Valid(Print(d, space) + space, checked)
  {
    hide Value, Print, Fits;
    PrintRead(d, space, checked);
    ReadIsValid(Print(d, space), space, checked);
  }

  lemma ReadIsValid(v: string, space: string, checked: bool)
    requires Value(v, 0, false, checked) == At(|v|) && Blank(space)
    ensures Valid(v + space, checked)
  {
    hide Value, SkipSpace, In;
    InFront(v, space);
    ValueIn(v + space, 0, v, 0, false, checked);
    SpaceToEnd(v, space, 0);
  }

  lemma {:induction false} SpaceToEnd(a: string, space: string, i: nat)
    requires Blank(space) && i <= |space|
    ensures SkipSpace(a + space, |a| + i) == |a + space|
    decreases |space| - i
  {
    if i < |space| {
      assert (a + space)[|a| + i] == space[i];
      SpaceToEnd(a, space, i + 1);
    }
  }

  // ---------------------------------------------------------------------------------------------
  // Objects put together from members that are text

  function Commas(ms: seq<string>): string {
    if ms == [] then ""
    else (if |ms| == 1 then "" else Commas(ms[..|ms| - 1]) + ",") + ms[|ms| - 1]
  }

  function ObjectOf(ms: seq<string>): string {
    "{" + Commas(ms) + "}"
  }

  /** A key, a colon and a value, and perhaps white space. */
  ghost predicate IsMember(m: string, checked: bool) {
    && KindAfterComma(m, 0) == Some(Str) && Starts(m)
    && Member(m, 0, false, checked).At? && SkipSpace(m, Member(m, 0, false, checked).pos) == |m|
  }

  function Rest(ms: seq<string>, first: bool): string {
    if ms == [] then "}" else Separator(first, "") + ms[0] + Rest(ms[1..], false)
  }

  lemma {:induction false} RestIsCommas(ms: seq<string>, first: bool)
    ensures Rest(ms, first) == (if first || ms == [] then "" else ",") + Commas(ms) + "}"
  {
    if ms == [] {
      assert "" + Commas(ms) + "}" == "}";
    } else {
      RestIsCommas(ms[1..], false);
      CommasCons(ms);
      hide Commas;
      var t := Commas(ms[1..]);
      RestParts(Separator(first, ""), ms[0], if |ms| == 1 then "" else ",", t);
    }
  }

  lemma RestParts(a: string, b: string, c: string, d: string)
    ensures a + b + (c + d + "}") == a + (b + c + d) + "}" && "" + "," == ","
  {
  }

  lemma {:induction false} CommasCons(ms: seq<string>)
    requires ms != []
    ensures Commas(ms) == ms[0] + (if |ms| == 1 then "" else ",") + Commas(ms[1..])
  {
    if |ms| > 1 {
      var front := ms[..|ms| - 1];
      CommasCons(front);
      assert front[1..] == ms[1..][..|ms| - 2];
      if |ms| == 2 {
        assert Commas(front) == ms[0];
      }
    }
  }

  /** White space in front of the next member changes nothing. */
  lemma MembersBehindSpace(s: string, i: nat, j: nat, checked: bool)
    requires i <= j <= |s| && SkipSpace(s, i) == SkipSpace(s, j)
    ensures Members(s, i, true, checked) == Members(s, j, true, checked)
  {
    SameElement(s, i, j);
    SameMember(s, i, j, true, true, checked);
    hide Member, KindAfterComma, SkipSpace, Element;
  }

  lemma SameElement(s: string, i: nat, j: nat)
    requires i <= j <= |s| && SkipSpace(s, i) == SkipSpace(s, j)
    ensures KindAfterComma(s, i) == KindAfterComma(s, j) && Element(s, i, true) == Element(s, j, true)
  {
  }

  lemma {:induction false} RestRead(a: string, ms: seq<string>, first: bool, checked: bool)
    requires forall m :: m in ms ==> IsMember(m, checked)
    ensures var s := a + Rest(ms, first); Members(s, |a|, !first, checked) == At(|s|)
    decreases |ms|
  {
    hide Member, Members, KindAfterComma, Starts, SkipSpace;
    var s := a + Rest(ms, first);
    if ms == [] {
      ContainerEnds(a, "", !first, checked);
      assert "" + "}" == "}";
    } else {
      var b, v, rest := a + Separator(first, ""), ms[0], Rest(ms[1..], false);
      assert IsMember(v, checked);
      assert s == b + v + rest;
      MemberStep(a, first, v, rest, checked);
      RestRead(b + v, ms[1..], false, checked);
    }
  }

  lemma MemberStep(a: string, first: bool, v: string, rest: string, checked: bool)
    requires IsMember(v, checked) && rest != "" && !IsDigit(rest[0]) && !IsSpace(rest[0])
    ensures var b := a + Separator(first, "");
      Members(b + v + rest, |a|, !first, checked) == Members(b + v + rest, |b + v|, true, checked)
  {
    hide Member, Members, KindAfterComma, In, Starts, SkipSpace, IsMember;
    var b := a + Separator(first, "");
    InConcat(b, v, rest);
    if first {
      assert b == a;
    } else {
      assert IsMember(v, checked);
      MemberStarts(v, checked);
      CommaFirst(a, "", v, rest, checked);
    }
    assert (b + v + rest)[|b| + |v|] == rest[0];
    MemberAndSpace(b + v + rest, |a|, |b|, v, first, checked);
  }

  lemma MemberStarts(v: string, checked: bool)
    requires IsMember(v, checked)
    ensures Starts(v)
  {
    hide Member, Starts, KindAfterComma, SkipSpace;
  }

  lemma MemberAndSpace(s: string, i: nat, n: nat, v: string, first: bool, checked: bool)
    requires i <= n && In(s, n, v) && IsMember(v, checked) && n + |v| < |s| && !IsSpace(s[n + |v|])
    requires KindAfterComma(s, i) == KindAfterComma(s, n)
      && Member(s, i, !first, checked) == Member(s, n, false, checked)
    ensures Members(s, i, !first, checked) == Members(s, n + |v|, true, checked)
  {
    hide Member, Members, KindAfterComma, Starts, SkipSpace;
    var p := Member(v, 0, false, checked).pos;
    KindIn(s, n, v, 0);
    MemberIn(s, n, v, 0, false, checked);
    MembersNext(s, i, checked, first, n + p);
    SpaceToNext(s, n, v, p);
    MembersBehindSpace(s, n + p, n + |v|, checked);
  }

  lemma {:induction false} SpaceToNext(s: string, n: nat, v: string, i: nat)
    requires In(s, n, v) && i <= |v| && SkipSpace(v, i) == |v| && n + |v| < |s| && !IsSpace(s[n + |v|])
    ensures SkipSpace(s, n + i) == SkipSpace(s, n + |v|)
    decreases |v| - i
  {
    if i < |v| {
      assert s[n + i] == v[i];
      SpaceToNext(s, n, v, i + 1);
    }
  }

  /** An object of such members is read to its end. */
  lemma ObjectRead(ms: seq<string>, checked: bool)
    requires forall m :: m in ms ==> IsMember(m, checked)
    ensures Value(ObjectOf(ms), 0, false, checked) == At(|ObjectOf(ms)|)
  {
    hide Value, Members, KindAfterComma, KindAt, IsMember;
    var rest := Rest(ms, true);
    RestIsCommas(ms, true);
    assert "" + Commas(ms) + "}" == Commas(ms) + "}";
    assert ObjectOf(ms) == "{" + rest && "" + ("{" + rest) == "{" + rest;
    RestRead("{", ms, true, checked);
    KindOfFirst("{" + rest);
    ValueBehind("", "{" + rest, checked);
  }

  /** A string without quotes or backslashes, written between quotes, is a key, and any accepted text its value. */
  lemma PlainMember(section: string, value: string, checked: bool)
    requires '"' !in section && '\\' !in section && Valid(value, checked)
    ensures IsMember("\"" + section + "\":" + value, checked)
  {
    var key := "\"" + section + "\"";
    PlainBody(section, "\"", 0);
    assert "\"" + section + "\"" == key;
    ValueMember(key, value, checked);
    assert "\"" + section + "\":" + value == key + ":" + value;
  }

  lemma QuotedMember(key: string, value: string, checked: bool)
    requires Valid(value, checked)
    ensures IsMember(Quote(key) + ":" + value, checked)
  {
    QuoteRead("", key);
    QuoteStarts(key);
    assert "" + Quote(key) == Quote(key);
    ValueMember(Quote(key), value, checked);
  }

  lemma {:induction false} PlainBody(section: string, a: string, i: nat)
    requires '"' !in section && '\\' !in section && i <= |section|
    ensures StrBody(a + section + "\"", |a| + i) == At(|a| + |section| + 1)
    decreases |section| - i
  {
    var s := a + section + "\"";
    if i < |section| {
      assert s[|a| + i] == section[i] && section[i] in section;
      PlainBody(section, a, i + 1);
    } else {
      assert s[|a| + i] == '"';
    }
  }

  lemma ValueMember(key: string, value: string, checked: bool)
    requires key != "" && key[0] == '"' && StrBody(key, 1) == At(|key|) && Valid(value, checked)
    ensures IsMember(key + ":" + value, checked)
  {
    hide Value, StrBody, KindAfterComma, Member, Starts, SkipSpace;
    var m := key + ":" + value;
    MemberAtKey(key, value, "", checked);
    assert "" + key + "" + ":" + value == m;
    var p := Value(value, 0, false, checked).pos;
    assert m == (key + ":") + value;
    SpaceOfTail(key + ":", value, p);
  }

  lemma {:induction false} SpaceOfTail(a: string, v: string, i: nat)
    requires i <= |v| && SkipSpace(v, i) == |v|
    ensures SkipSpace(a + v, |a| + i) == |a + v|
    decreases |v| - i
  {
    if i < |v| {
      assert (a + v)[|a| + i] == v[i];
      SpaceOfTail(a, v, i + 1);
    }
  }

  // ---------------------------------------------------------------------------------------------
  // A document takes one line

  lemma {:induction false} PrintOneLine(d: Doc, space: string)
    requires '\n' !in space
    ensures '\n' !in Print(d, space)
    decreases d, 0
  {
    hide WriteBody, Numeral, PrintElements, PrintMembers;
    match d
    case NumberDoc(n) => NumeralOneLine(if n < 0 then -n else n);
    case TextDoc(t) => WriteBodyShape(t);
    case ArrayDoc(es) => ElementsOneLine(es, true, space);
    case ObjectDoc(ms) => MembersOneLine(ms, true, space);
    case _ =>
  }

  lemma {:induction false} NumeralOneLine(n: nat)
    ensures '\n' !in Numeral(n)
  {
    if n >= 10 { NumeralOneLine(n / 10); }
    assert forall c :: c in "0123456789" ==> c != '\n';
  }

  lemma {:induction false} ElementsOneLine(es: seq<Doc>, first: bool, space: string)
    requires '\n' !in space
    ensures '\n' !in PrintElements(es, first, space)
    decreases es, 1
  {
    hide Print;
    if es != [] {
      PrintOneLine(es[0], space);
      ElementsOneLine(es[1..], false, space);
    }
  }

  lemma {:induction false} MembersOneLine(ms: seq<(string, Doc)>, first: bool, space: string)
    requires '\n' !in space
    ensures '\n' !in PrintMembers(ms, first, space)
    decreases ms, 2
  {
    hide PrintMember;
    if ms != [] {
      MemberOneLine(ms[0], space);
      MembersOneLine(ms[1..], false, space);
    }
  }

  lemma {:induction false} MemberOneLine(m: (string, Doc), space: string)
    requires '\n' !in space
    ensures '\n' !in PrintMember(m, space)
    decreases m, 1
  {
    hide Print;
    WriteBodyShape(m.0);
    PrintOneLine(m.1, space);
  }
}
