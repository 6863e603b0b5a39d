/** The strict INI reader: one pass over the lines of a file, section headers, and `key=value` lines whose
    separator is found by retrying until what follows it is valid JSON (src/common/ini.c). */
module Ini {
  import opened Wrappers
  import Json
  import JsonDocs

  datatype Entry = Entry(section: string, key: string, value: string)

  const LF := '\n'

  // ---------------------------------------------------------------------------------------------
  // Finding the separator

  /** Position of the first `=` at or after `i`, or the length of the line. */
  function FindEqual(line: string, i: nat): (e: nat)
    requires i <= |line|
    ensures i <= e <= |line|
    ensures forall k :: i <= k < e ==> line[k] != '='
    ensures e < |line| ==> line[e] == '='
    decreases |line| - i
  {
    if i == |line| || line[i] == '=' then i else FindEqual(line, i + 1)
  }

  datatype Separator = Found(at: nat) | NotFound | Uncaught

  /** The retry loop from the `=` at position `e` on: stop at the first `=` that is followed by valid JSON. */
  function Retry(line: string, e: nat, checked: bool): (r: Separator)
    requires e <= |line| && (e < |line| ==> line[e] == '=')
    ensures r.Found? ==> e <= r.at < |line|
    decreases |line| - e
  {
    if e == |line| then NotFound
    else
      match Json.Validate(line[e + 1..], checked)
      case At(_) => Found(e)
      case OtherError => Uncaught
      case FormatError => Retry(line, FindEqual(line, e + 1), checked)
  }

  /** The loop stops at a position if and only if it holds an `=`, what follows is valid, and what follows each `=`
      before it is refused with a format error. */
  lemma {:induction false} RetryFirst(line: string, i: nat, p: nat, checked: bool)
    requires i <= |line| && p < |line|
    ensures Retry(line, FindEqual(line, i), checked) == Found(p) <==>
      && i <= p && line[p] == '=' && Json.Valid(line[p + 1..], checked)
      && forall k {:trigger line[k]} :: i <= k < p && line[k] == '=' ==>
        Json.Validate(line[k + 1..], checked) == Json.FormatError
    decreases |line| - i
  {
    hide Json.Validate, Json.Valid;
    var e := FindEqual(line, i);
    if e < |line| {
      ValidIs(line[e + 1..], checked);
      RetryFirst(line, e + 1, p, checked);
    }
  }

  lemma ValidIs(s: string, checked: bool)
    ensures Json.Valid(s, checked) <==> Json.Validate(s, checked).At?
  {
    hide Json.Validate;
  }

  /** The line that the writer produces for a key and a value. */
  function Line(key: string, value: string): string {
    key + "=" + value
  }

  /** An `=` of the key after which the validator gives up with an error that the retry loop does not catch. */
  ghost predicate Trips(key: string, value: string, checked: bool, e: nat) {
    e < |key| && key[e] == '=' && Json.Validate(key[e + 1..] + "=" + value, checked) == Json.OtherError
  }

  lemma SuffixOfLine(key: string, value: string, e: nat)
    requires e <= |key|
    ensures e < |key| ==> Line(key, value)[e + 1..] == key[e + 1..] + "=" + value
    ensures e == |key| ==> Line(key, value)[e + 1..] == value && Line(key, value)[e] == '='
  {
  }

  /** The text after an `=` of the key is refused in a way that the loop goes on from. */
  predicate Refused(key: string, value: string, checked: bool, e: nat)
    requires e < |key|
  {
    Json.Validate(key[e + 1..] + "=" + value, checked) == Json.FormatError
  }

  /** The key can be told from the value: after every `=` of the key the loop goes on. */
  ghost predicate Separable(key: string, value: string, checked: bool) {
    forall e {:trigger key[e]} :: 0 <= e < |key| && key[e] == '=' ==> Refused(key, value, checked, e)
  }

  /** The loop on a line recovers exactly the key that was written. */
  ghost predicate Recovers(key: string, value: string, checked: bool) {
    Retry(Line(key, value), FindEqual(Line(key, value), 0), checked) == Found(|key|)
  }

  /** The first `=` of a line at or after a position of the key is the next one of the key, or the separator. */
  lemma NextEqual(key: string, value: string, i: nat)
    requires i <= |key|
    ensures var line, e := Line(key, value), FindEqual(Line(key, value), i);
      e <= |key| && line[e] == '=' && (e < |key| ==> key[e] == '=') && forall k :: i <= k < e ==> key[k] != '='
  {
    var line := Line(key, value);
    assert line[|key|] == '=';
    forall k | i <= k < |key| ensures line[k] == key[k] {}
  }

  /** However many `=` the key contains, the loop gets to the separator if and only if it goes on at each of
      them. */
  lemma {:induction false} RetryReaches(key: string, value: string, i: nat, checked: bool)
    requires i <= |key| && Json.Valid(value, checked)
    ensures Retry(Line(key, value), FindEqual(Line(key, value), i), checked) == Found(|key|) <==>
            forall e {:trigger key[e]} :: i <= e < |key| && key[e] == '=' ==> Refused(key, value, checked, e)
    decreases |key| - i
  {
    hide Json.Validate, Json.Valid;
    var line := Line(key, value);
    var e := FindEqual(line, i);
    NextEqual(key, value, i);
    SuffixOfLine(key, value, e);
    if e < |key| {
      assert Json.Validate(line[e + 1..], checked) == Json.FormatError <==> Refused(key, value, checked, e);
      RetryReaches(key, value, e + 1, checked);
    } else {
      Accepted(value, checked);
    }
  }

  lemma Accepted(value: string, checked: bool)
    requires Json.Valid(value, checked)
    ensures Json.Validate(value, checked).At?
  {
  }

  /** In every build a line with a valid value comes back under its key if and only if the key can be told from
      the value in that build. */
  lemma RecoversIff(key: string, value: string, checked: bool)
    requires Json.Valid(value, true)
    ensures Recovers(key, value, checked) <==> Separable(key, value, checked)
  {
    hide Json.Value, Json.SkipSpace, Retry;
    Json.ValidateAgrees(value);
    RetryReaches(key, value, 0, checked);
  }

  /** With assertions the loop never stops early, whatever `=` the key contains: it ends at the separator or,
      if and only if it trips on the way, in an uncaught error. */
  lemma {:induction false} RetryFindsSeparator(key: string, value: string, i: nat)
    requires i <= |key| && Json.Valid(value, true)
    ensures Retry(Line(key, value), FindEqual(Line(key, value), i), true) ==
            if exists e :: e >= i && Trips(key, value, true, e) then Uncaught else Found(|key|)
    decreases |key| - i
  {
    hide Json.Validate, Json.Valid;
    var line := Line(key, value);
    var e := FindEqual(line, i);
    NextEqual(key, value, i);
    SuffixOfLine(key, value, e);
    Accepted(value, true);
    if e < |key| {
      AfterEqual(key[e + 1..], value);
      RetryFindsSeparator(key, value, e + 1);
      assert Json.Validate(line[e + 1..], true) == Json.OtherError <==> Trips(key, value, true, e);
    }
  }

  /** A build without assertions stops where one with them does, on every line on which that one does not fail. */
  lemma {:induction false} RetryAgrees(line: string, e: nat)
    requires e <= |line| && (e < |line| ==> line[e] == '=')
    requires Retry(line, e, true) != Uncaught
    ensures Retry(line, e, false) == Retry(line, e, true)
    decreases |line| - e
  {
    hide Json.Validate;
    if e < |line| {
      Json.ValidateAgrees(line[e + 1..]);
      if Json.Validate(line[e + 1..], true) == Json.FormatError {
        RetryAgrees(line, FindEqual(line, e + 1));
      }
    }
  }

  lemma AfterEqual(a: string, value: string)
    requires Json.Valid(value, true)
    ensures !Json.Validate(a + "=" + value, true).At?
  {
    Json.ValidAfterEqual(a, value);
  }

  /** With assertions a key can be told from a valid value unless some text after an `=` of it trips the
      validator. */
  lemma SeparableIff(key: string, value: string)
    requires Json.Valid(value, true)
    ensures Separable(key, value, true) <==> forall e :: !Trips(key, value, true, e)
  {
    hide Json.Validate, Json.Valid;
    forall e: nat | e < |key|
      ensures key[e] == '=' ==> (Refused(key, value, true, e) <==> !Trips(key, value, true, e))
    {
      AfterEqual(key[e + 1..], value);
    }
  }

  /** A comma on a line, in front of a string, after an `=`, an opening bracket or a colon. */
  predicate StrayComma(line: string, p: nat) {
    && p < |line| && line[p] == ',' && Json.Before(line, p).Some? && Json.Before(line, p).value in {'=', '[', '{', ':'}
    && Json.CharAt(line, Json.SkipSpace(line, p + 1)) == '"'
  }

  /** A line without such a comma is read alike in every build, so there a key that can be told from the value
      with assertions is recovered without them, and only such a key is. */
  lemma NoStrayCommaRecovers(key: string, value: string)
    requires Json.Valid(value, true) && forall p :: !StrayComma(Line(key, value), p)
    ensures Separable(key, value, false) <==> Separable(key, value, true)
    ensures Recovers(key, value, false) <==> Recovers(key, value, true)
  {
    forall e | 0 <= e < |key| && key[e] == '=' ensures Refused(key, value, false, e) == Refused(key, value, true, e) {
      var s := key[e + 1..] + "=" + value;
      SuffixOfLine(key, value, e);
      forall p ensures !Json.StrayComma(s, p) { StrayInLine(Line(key, value), e, p); }
      Json.NoStrayCommaAgrees(s);
    }
    RecoversIff(key, value, false);
    RecoversIff(key, value, true);
  }

  lemma StrayInLine(line: string, e: nat, p: nat)
    requires e < |line| && line[e] == '='
    ensures Json.StrayComma(line[e + 1..], p) ==> StrayComma(line, e + 1 + p)
  {
    var s := line[e + 1..];
    if p < |s| {
      BeforeInLine(line, e, p);
      SpaceInLine(line, e, p + 1);
    }
  }

  lemma {:induction false} BeforeInLine(line: string, e: nat, p: nat)
    requires e < |line| && line[e] == '=' && e + 1 + p <= |line|
    ensures Json.Before(line, e + 1 + p) ==
            if Json.Before(line[e + 1..], p).None? then Some('=') else Json.Before(line[e + 1..], p)
  {
    if p > 0 {
      BeforeInLine(line, e, p - 1);
    }
  }

  lemma {:induction false} SpaceInLine(line: string, e: nat, p: nat)
    requires e < |line| && e + 1 + p <= |line|
    ensures Json.SkipSpace(line, e + 1 + p) == e + 1 + Json.SkipSpace(line[e + 1..], p)
    decreases |line| - p
  {
    var s := line[e + 1..];
    if p < |s| && Json.IsSpace(s[p]) {
      SpaceInLine(line, e, p + 1);
    }
  }

  /** In particular a key without `=` is recovered in every build. */
  lemma PlainKeySeparable(key: string, value: string, checked: bool)
    requires '=' !in key
    ensures Separable(key, value, checked)
  {
    forall e | 0 <= e < |key| ensures key[e] != '=' { assert key[e] in key; }
  }

  /** A number too large for 64 bits after an `=` of the key makes the reader fail on the line instead of
      retrying, in every build. */
  lemma LargeNumberTrips(n: nat, checked: bool)
    requires 19 <= n < 62
    ensures Json.Valid("1", true)
    ensures Retry(Line("a=2" + Zeros(n), "1"), 1, checked) == Uncaught
    ensures !Recovers("a=2" + Zeros(n), "1", checked)
  {
    OneIsValid();
    hide Json.Validate, Json.Valid;
    var key, s := "a=2" + Zeros(n), "2" + Zeros(n) + "=1";
    var line := Line(key, "1");
    assert line[2..] == s;
    LargeNumberRefused(n, checked);
    assert FindEqual(line, 0) == 1;
  }

  lemma LargeNumberRefused(n: nat, checked: bool)
    requires 19 <= n < 62
    ensures Json.Validate("2" + Zeros(n) + "=1", checked) == Json.OtherError
  {
    var s := "2" + Zeros(n) + "=1";
    LargeNumberSkipped(n);
    assert Json.SkipSpace(s, 0) == 0;
    assert Json.KindAfterComma(s, 0) == Some(Json.Number);
  }

  lemma LargeNumberSkipped(n: nat)
    requires 19 <= n < 62
    ensures Json.SkipNumber("2" + Zeros(n) + "=1", 0) == Json.OtherError
  {
    var digits := "2" + Zeros(n);
    var s := digits + "=1";
    TwoZeros(digits, n + 1);
    PowerGrows(19, n);
    DigitsOf(digits, "=1", 0);
    assert s[0..n + 1] == digits;
  }

  lemma OneIsValid()
    ensures Json.Valid("1", true)
  {
    assert Json.Digits("1", 0) == 1;
    assert "1"[0..1] == "1";
    assert Json.Decimal("1") == 1;
  }

  function Zeros(n: nat): (s: string)
    ensures |s| == n && forall k :: 0 <= k < n ==> s[k] == '0'
  {
    seq(n, _ => '0')
  }

  lemma {:induction false} DigitsOf(digits: string, rest: string, i: nat)
    requires i <= |digits| && forall k :: 0 <= k < |digits| ==> Json.IsDigit(digits[k])
    requires rest != "" && !Json.IsDigit(rest[0])
    ensures Json.Digits(digits + rest, i) == |digits| - i
    decreases |digits| - i
  {
    if i < |digits| {
      DigitsOf(digits, rest, i + 1);
    }
  }

  lemma {:induction false} TwoZeros(s: string, n: nat)
    requires 1 <= n <= |s| && s[0] == '2' && forall k :: 1 <= k < |s| ==> s[k] == '0'
    ensures forall k :: 0 <= k < |s| ==> Json.IsDigit(s[k])
    ensures Json.Decimal(s[..n]) == 2 * JsonDocs.Power(n - 1)
    ensures n == |s| ==> s[..n] == s
  {
    if n == 1 {
      assert s[..1][..0] == [];
    } else {
      TwoZeros(s, n - 1);
      assert s[..n][..n - 1] == s[..n - 1];
    }
  }

  lemma {:induction false} PowerGrows(m: nat, n: nat)
    requires 19 <= m <= n
    ensures JsonDocs.Power(n) >= JsonDocs.Power(m) && 2 * JsonDocs.Power(19) >= Json.UINT64
  {
    assert JsonDocs.Power(10) == 10_000_000_000;
    assert JsonDocs.Power(19) == 1_000_000_000 * JsonDocs.Power(10) by {
      assert JsonDocs.Power(15) == 100_000 * JsonDocs.Power(10);
    }
    if m < n { PowerGrows(m, n - 1); }
  }

  // Reading rules for texts without white space, one for each shape
  lemma StrRule(s: string, i: nat, comma: bool, checked: bool, q: nat, r: nat)
    requires q < |s| && Element(s, i, comma, q, Json.Str)
      && (checked ==> s[q] == '"') && Json.StrBody(s, q + 1) == Json.At(r)
    ensures Json.Value(s, i, comma, checked) == Json.At(r)
  {
    hide Json.Elements, Json.Members, Json.SkipSpace, Json.SkipNumber, Json.SkipWord;
  }

  lemma ArrayRule(s: string, i: nat, comma: bool, checked: bool, q: nat, r: nat)
    requires q < |s| && Element(s, i, comma, q, Json.ArrayBegin)
      && Json.Elements(s, q + 1, false, checked) == Json.At(r)
    ensures Json.Value(s, i, comma, checked) == Json.At(r)
  {
    hide Json.Elements, Json.Members, Json.SkipSpace, Json.StrBody, Json.SkipNumber, Json.SkipWord;
  }

  lemma ElementRule(s: string, i: nat, comma: bool, checked: bool, v: nat, r: nat)
    requires i < |s| && Json.KindAfterComma(s, i) in {Some(Json.Str), Some(Json.ArrayBegin)}
    requires Json.Value(s, i, comma, checked) == Json.At(v) && v <= |s|
      && Json.Elements(s, v, true, checked) == Json.At(r)
    ensures Json.Elements(s, i, comma, checked) == Json.At(r)
  {
  }

  lemma ArrayEndRule(s: string, i: nat, checked: bool)
    requires i < |s| && s[i] == ']'
    ensures Json.Elements(s, i, true, checked) == Json.At(i + 1)
  {
  }

  lemma ObjectEndRule(s: string, i: nat, checked: bool)
    requires i < |s| && s[i] == '}'
    ensures Json.Members(s, i, true, checked) == Json.At(i + 1)
  {
  }

  lemma MemberRule(s: string, i: nat, checked: bool, k: nat, v: nat, r: nat)
    requires i < k < v <= |s| && k < |s| && s[i] == '"' && s[k] == ':' && Json.StrBody(s, i + 1) == Json.At(k)
    requires Json.Value(s, k + 1, false, checked) == Json.At(v) && Json.Members(s, v, true, checked) == Json.At(r)
    ensures Json.Members(s, i, false, checked) == Json.At(r)
  {
    hide Json.Value, Json.StrBody, Json.SkipSpace, Json.KindAfterComma, Json.SkipStr, Json.Element;
    MemberStart(s, i, checked, k);
  }

  lemma MemberStart(s: string, i: nat, checked: bool, k: nat)
    requires i < k < |s| && s[i] == '"' && s[k] == ':' && Json.StrBody(s, i + 1) == Json.At(k)
    ensures Json.KindAfterComma(s, i) == Some(Json.Str) && Json.Element(s, i, false) == Some(i)
    ensures Json.SkipStr(s, i, checked) == Json.At(k) && Json.SkipSpace(s, k) == k && Json.CharAt(s, k) == ':'
  {
    hide Json.StrBody;
  }

  lemma BraceRule(s: string, i: nat, checked: bool, r: nat)
    requires i < |s| && s[i] == '{' && Json.Members(s, i + 1, false, checked) == Json.At(r)
    ensures Json.Value(s, i, false, checked) == Json.At(r)
  {
    hide Json.Members, Json.Elements;
  }

  /** An object with a single member. */
  lemma ObjectRule(s: string, i: nat, checked: bool, k: nat, v: nat)
    requires i + 1 < k < v < |s| && s[i] == '{' && s[i + 1] == '"' && s[k] == ':' && s[v] == '}'
    requires Json.StrBody(s, i + 2) == Json.At(k) && Json.Value(s, k + 1, false, checked) == Json.At(v)
    ensures Json.Value(s, i, false, checked) == Json.At(v + 1)
  {
    hide Json.Value, Json.Members, Json.StrBody;
    ObjectEndRule(s, v, checked);
    MemberRule(s, i + 1, checked, k, v, v + 1);
    BraceRule(s, i, checked, v + 1);
  }

  /** An element of the given kind that is read from position `q` on. */
  predicate Element(s: string, i: nat, comma: bool, q: nat, kind: Json.Kind) {
    i <= |s| && Json.KindAfterComma(s, i) == Some(kind) && Json.Element(s, i, comma) == Some(q)
  }

  lemma {:induction false} StrRunRule(s: string, i: nat, r: nat)
    requires i < r <= |s| && s[r - 1] == '"' && forall k :: i <= k < r - 1 ==> s[k] != '"' && s[k] != '\\'
    ensures Json.StrBody(s, i) == Json.At(r)
    decreases r - i
  {
    if i < r - 1 { StrRunRule(s, i + 1, r); }
  }

  const TRICKY_KEY := "a={\"x\":[\"k"
  const TRICKY_VALUE := "{\",\":[[\",[,\"]]}"
  const TRICKY_SUFFIX := "{\"x\":[\"k={\",\":[[\",[,\"]]}"

  /** A build without assertions may even stop too early: the JSON object {",":[[",[,"]]} saved under the key
      a={"x":["k comes back under the key a. */
  lemma StopsTooEarly()
    ensures Json.Valid(TRICKY_VALUE, true)
    ensures Retry(Line(TRICKY_KEY, TRICKY_VALUE), FindEqual(Line(TRICKY_KEY, TRICKY_VALUE), 0), false) == Found(1)
  {
    hide Json.Value, Json.SkipSpace, Json.Elements, Json.Members;
    var line := Line(TRICKY_KEY, TRICKY_VALUE);
    TrickyValueValid(TRICKY_VALUE);
    TrickySuffixValid(TRICKY_SUFFIX);
    assert line[2..] == TRICKY_SUFFIX;
    assert FindEqual(line, 0) == 1;
  }

  lemma TrickyValueValid(s: string)
    requires s == TRICKY_VALUE
    ensures Json.Valid(s, true)
  {
    hide Json.Value, Json.Elements, Json.Members, Json.StrBody;
    assert |s| == 15;
    StrRunRule(s, 2, 4);
    StrRunRule(s, 8, 12);
    StrRule(s, 7, false, true, 7, 12);
    ArrayEndRule(s, 12, true);
    ElementRule(s, 7, false, true, 12, 13);
    ArrayRule(s, 6, false, true, 6, 13);
    ArrayEndRule(s, 13, true);
    ElementRule(s, 6, false, true, 13, 14);
    ArrayRule(s, 5, false, true, 5, 14);
    ObjectRule(s, 0, true, 4, 14);
  }

  lemma TrickySuffixValid(s: string)
    requires s == TRICKY_SUFFIX
    ensures Json.Valid(s, false)
  {
    hide Json.Value, Json.Elements, Json.Members, Json.StrBody;
    assert |s| == 24;
    TrickyTail(s);
    StrRunRule(s, 2, 4);
    StrRunRule(s, 7, 11);
    StrRule(s, 6, false, false, 6, 11);
    ElementRule(s, 6, false, false, 11, 23);
    ArrayRule(s, 5, false, false, 5, 23);
    ObjectRule(s, 0, false, 4, 23);
  }

  /** The array from its second element on; the string at position 19 is entered at a comma. */
  lemma TrickyTail(s: string)
    requires s == TRICKY_SUFFIX
    ensures Json.Elements(s, 11, true, false) == Json.At(23)
  {
    hide Json.Value, Json.Elements, Json.Members, Json.StrBody;
    StrRunRule(s, 20, 21);
    StrRule(s, 19, false, false, 19, 21);
    ArrayEndRule(s, 21, false);
    ElementRule(s, 19, false, false, 21, 22);
    ArrayRule(s, 17, true, false, 18, 22);
    ArrayEndRule(s, 22, false);
    ElementRule(s, 17, true, false, 22, 23);
    StrRunRule(s, 13, 17);
    StrRule(s, 11, true, false, 12, 17);
    ElementRule(s, 11, true, false, 17, 23);
  }

  // ---------------------------------------------------------------------------------------------
  // Reading a file

  /** Position of the first line feed at or after `i`, or the end of the text. */
  function LineEnd(t: string, i: nat): (e: nat)
    requires i <= |t|
    ensures i <= e <= |t|
    ensures LF !in t[i..e]
    ensures e < |t| ==> t[e] == LF
    decreases |t| - i
  {
    if i == |t| || t[i] == LF then i
    else
      var e := LineEnd(t, i + 1);
      assert t[i..e] == [t[i]] + t[i + 1..e];
      e
  }

  /** What remains of a text after its first line. */
  function AfterLine(t: string): (r: string)
    requires t != ""
    ensures |r| < |t|
  {
    var e := LineEnd(t, 0);
    if e == |t| then "" else t[e + 1..]
  }

  /** A line that the strict reader takes for a section header. */
  predicate IsHeader(line: string) {
    line != "" && line[0] == '[' && line[|line| - 1] == ']'
  }

  datatype Outcome = EndOfFile | Got(entry: Entry, rest: string) | Failed

  /** The next entry of a file, given the section that is current. */
  function NextEntry(section: string, t: string, checked: bool): (r: Outcome)
    ensures r.Got? ==> |r.rest| < |t| && r.entry.key != ""
    decreases |t|
  {
    if t == "" then EndOfFile
    else
      var line, rest := t[..LineEnd(t, 0)], AfterLine(t);
      if line == "" then NextEntry(section, rest, checked)
      else if IsHeader(line) then
        if |line| == 2 then Failed else NextEntry(line[1..|line| - 1], rest, checked)
      else if section == "" then Failed
      else
        match Retry(line, FindEqual(line, 0), checked)
        case Found(e) => if e == 0 then Failed else Got(Entry(section, line[..e], line[e + 1..]), rest)
        case _ => Failed
  }

  /** All entries of a file, or nothing when the reader fails on one of its lines. */
  function ReadAll(section: string, t: string, checked: bool): Option<seq<Entry>>
    decreases |t|
  {
    match NextEntry(section, t, checked)
    case EndOfFile => Some([])
    case Failed => None
    case Got(e, rest) =>
      var more := ReadAll(e.section, rest, checked);
      if more.Some? then Some([e] + more.value) else None
  }

  lemma {:induction false} LineEndOf(line: string, t: string, i: nat)
    requires i <= |line| && LF !in line
    ensures LineEnd(line + "\n" + t, i) == |line|
    decreases |line| - i
  {
    if i < |line| {
      assert (line + "\n" + t)[i] == line[i] && line[i] in line;
      LineEndOf(line, t, i + 1);
    }
  }

  /** A line without line feeds is read back as it was written. */
  lemma FirstLine(line: string, t: string)
    requires LF !in line
    ensures var s := line + "\n" + t; s != "" && s[..LineEnd(s, 0)] == line && AfterLine(s) == t
  {
    LineEndOf(line, t, 0);
  }

  /** An empty line is skipped, and a line in brackets names the section from there on, which must not be empty. */
  lemma HeaderLines(section: string, name: string, rest: string, checked: bool)
    requires LF !in name
    ensures NextEntry(section, "\n" + rest, checked) == NextEntry(section, rest, checked)
    ensures NextEntry(section, "[" + name + "]" + "\n" + rest, checked)
         == if name == "" then Failed else NextEntry(name, rest, checked)
  {
    hide Retry, LineEnd;
    FirstLine("", rest);
    assert "" + "\n" + rest == "\n" + rest;
    var line := "[" + name + "]";
    FirstLine(line, rest);
    assert line[1..|line| - 1] == name;
    LineStep(section, line, rest, checked);
    LineStep(section, "", rest, checked);
  }

  lemma LineStep(section: string, line: string, rest: string, checked: bool)
    requires LF !in line
    ensures NextEntry(section, line + "\n" + rest, checked) ==
      if line == "" then NextEntry(section, rest, checked)
      else if IsHeader(line) then if |line| == 2 then Failed else NextEntry(line[1..|line| - 1], rest, checked)
      else if section == "" then Failed
      else
        match Retry(line, FindEqual(line, 0), checked)
        case Found(e) => if e == 0 then Failed else Got(Entry(section, line[..e], line[e + 1..]), rest)
        case _ => Failed
  {
    hide Retry, LineEnd, AfterLine, FindEqual, IsHeader;
    FirstLine(line, rest);
    assert line + "\n" + rest != "";
  }

  /** Any other line is an entry; it needs a section, a key that is not empty, and a separator. */
  lemma EntryLines(section: string, line: string, rest: string, p: nat, checked: bool)
    requires LF !in line && line != "" && !(line[0] == '[' && line[|line| - 1] == ']')
    ensures var r, t := Retry(line, FindEqual(line, 0), checked), line + "\n" + rest;
      && (section == "" || !r.Found? || r == Found(0) ==> NextEntry(section, t, checked) == Failed)
      && (section != "" && 0 < p < |line| && r == Found(p) ==>
        NextEntry(section, t, checked) == Got(Entry(section, line[..p], line[p + 1..]), rest))
  {
    LineStep(section, line, rest, checked);
    hide Retry, NextEntry, FindEqual;
  }

  datatype Status = Value | End | Error

  /** The reader. `rest` is what has not been read; section, key and value are reused from call to call. */
  class Reader {
    var rest: string
    var section: string
    var key: string
    var value: string
    var lineIdx: nat
    const checked: bool

    constructor (text: string, checked: bool)
      ensures rest == text && section == key == value == "" && this.checked == checked
    {
      rest, section, key, value, lineIdx := text, "", "", "", 0;
      this.checked := checked;
    }

    /** Read one line, without its line feed. */
    method ReadLine() returns (line: string)
      requires rest != ""
      modifies this`rest, this`lineIdx
      ensures line == old(rest)[..LineEnd(old(rest), 0)] && rest == AfterLine(old(rest))
      ensures lineIdx == old(lineIdx) + 1
    {
      var i := 0;
      while i < |rest| && rest[i] != LF
        invariant i <= |rest|
        invariant LineEnd(rest, 0) == LineEnd(rest, i)
      {
        i := i + 1;
      }
      line := rest[..i];
      rest := if i == |rest| then "" else rest[i + 1..];
      lineIdx := lineIdx + 1;
    }

    /** Split a line at the first `=` that is followed by valid JSON. */
    method SplitLine(line: string) returns (r: Separator)
      modifies this`key, this`value
      ensures r == Retry(line, FindEqual(line, 0), checked)
      ensures r.Found? ==> r.at < |line| && key == line[..r.at] && value == line[r.at + 1..]
    {
      hide Json.Value, Json.SkipSpace;
      var e := FindEqual(line, 0);
      while e < |line|
        invariant e <= |line| && (e < |line| ==> line[e] == '=')
        invariant Retry(line, e, checked) == Retry(line, FindEqual(line, 0), checked)
        decreases |line| - e
      {
        key, value := line[..e], line[e + 1..];
        var v := Json.Validate(value, checked);
        if v.At? { return Found(e); }
        if v.OtherError? { return Uncaught; }
        e := FindEqual(line, e + 1);
      }
      r := NotFound;
    }

    /** iniValueNext in strict mode. */
    method ValueNext() returns (r: Status)
      modifies this
      ensures match NextEntry(old(section), old(rest), checked)
        case EndOfFile => r == End
        case Failed => r == Error
        case Got(e, after) => r == Value && Entry(section, key, value) == e && rest == after
    {
      hide Json.Value, Json.SkipSpace, Retry;
      while rest != ""
        invariant NextEntry(section, rest, checked) == NextEntry(old(section), old(rest), checked)
        decreases |rest|
      {
        var line := ReadLine();
        if line != "" {
          if IsHeader(line) {
            section := line[1..|line| - 1];
            if section == "" { return Error; }
          } else {
            if section == "" { return Error; }
            var s := SplitLine(line);
            if !s.Found? || key == "" { return Error; }
            return Value;
          }
        }
      }
      r := End;
    }

    /** Read to the end of the file. */
    method ValueAll() returns (ok: bool, entries: seq<Entry>)
      modifies this
      ensures ok == ReadAll(old(section), old(rest), checked).Some?
      ensures ok ==> entries == ReadAll(old(section), old(rest), checked).value
    {
      hide Json.Value, Json.SkipSpace, Retry, NextEntry;
      entries := [];
      ok := true;
      var status := Value;
      while status == Value
        invariant status == Value ==>
          var all, more := ReadAll(old(section), old(rest), checked), ReadAll(section, rest, checked);
          all.Some? == more.Some? && (all.Some? ==> all.value == entries + more.value)
        invariant status == End ==> ReadAll(old(section), old(rest), checked) == Some(entries)
        invariant status == Error ==> ReadAll(old(section), old(rest), checked) == None
        decreases status == Value, |rest|
      {
        ghost var before := ReadAll(section, rest, checked);
        status := ValueNext();
        if status == Value {
          ghost var e, more := Entry(section, key, value), ReadAll(section, rest, checked);
          assert before == if more.Some? then Some([e] + more.value) else None;
          if more.Some? {
            assert entries + ([e] + more.value) == entries + [e] + more.value;
          }
          entries := entries + [Entry(section, key, value)];
        } else if status == End {
          assert before == Some([]) && entries + [] == entries;
        }
      }
      ok := status == End;
    }
  }
}
