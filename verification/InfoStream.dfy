/** What the stream and the text of an info file are as a whole: one JSON object, and one section, per run of entries
    of the same section. */
module InfoStream {
  import opened Wrappers
  import Json
  import JsonDocs
  import opened Ini
  import opened Info

  // ---------------------------------------------------------------------------------------------
  // Runs of equal sections

  type Run = g: seq<Entry> | g != [] witness [Entry("", "", "")]

  ghost function Flat(gs: seq<Run>): seq<Entry> {
    if gs == [] then [] else Flat(gs[..|gs| - 1]) + gs[|gs| - 1]
  }

  ghost predicate OneSection(g: Run) {
    forall e :: e in g ==> e.section == g[0].section
  }

  /** The runs of equal sections that the entries consist of, in order. */
  ghost predicate AreRuns(gs: seq<Run>, es: seq<Entry>) {
    && Flat(gs) == es
    && (forall g :: g in gs ==> OneSection(g))
    && (forall i :: 0 <= i < |gs| - 1 ==> gs[i][0].section != gs[i + 1][0].section)
  }

  // ---------------------------------------------------------------------------------------------
  // What is made of the runs

  function MemberText(e: Entry): string {
    Json.Quote(e.key) + ":" + e.value
  }

  function MembersOf(g: seq<Entry>): (ms: seq<string>)
    ensures |ms| == |g| && forall i :: 0 <= i < |g| ==> ms[i] == MemberText(g[i])
  {
    seq(|g|, i requires 0 <= i < |g| => MemberText(g[i]))
  }

  /** A section as a member: its name and an object of its entries. */
  function SectionMember(g: Run): string
  {
    "\"" + g[0].section + "\":" + JsonDocs.ObjectOf(MembersOf(g))
  }

  ghost function SectionMembers(gs: seq<Run>): (ms: seq<string>)
    ensures |ms| == |gs| && forall i :: 0 <= i < |gs| ==> ms[i] == SectionMember(gs[i])
  {
    seq(|gs|, i requires 0 <= i < |gs| => SectionMember(gs[i]))
  }

  function LinesOf(g: seq<Entry>): string {
    if g == [] then "" else LinesOf(g[..|g| - 1]) + (g[|g| - 1].key + "=" + g[|g| - 1].value + "\n")
  }

  /** The sections of a file: a header and a line for each entry, with an empty line between sections. */
  ghost function SectionsText(gs: seq<Run>): string
  {
    if gs == [] then ""
    else
      var front, g := gs[..|gs| - 1], gs[|gs| - 1];
      SectionsText(front) + (if front == [] then "" else "\n") + ("[" + g[0].section + "]\n") + LinesOf(g)
  }

  // ---------------------------------------------------------------------------------------------
  // The stream is that object, the text is those sections

  lemma RunsNotEmpty(gs: seq<Run>, es: seq<Entry>)
    requires AreRuns(gs, es)
    ensures gs == [] <==> es == []
    ensures gs != [] ==> LastSection(es) == Some(gs[|gs| - 1][0].section)
  {
    if gs != [] {
      var g := gs[|gs| - 1];
      assert OneSection(g);
      assert es[|es| - 1] == g[|g| - 1];
    }
  }

  /** Taking the last entry away shortens the last run, or removes it when it was the only one. */
  ghost function Shorter(gs: seq<Run>): seq<Run>
    requires gs != []
  {
    var front, g := gs[..|gs| - 1], gs[|gs| - 1];
    if |g| <= 1 then front else front + [g[..|g| - 1]]
  }

  lemma ShorterRuns(gs: seq<Run>, es: seq<Entry>)
    requires AreRuns(gs, es) && es != []
    ensures gs != [] && AreRuns(Shorter(gs), es[..|es| - 1])
    ensures es[|es| - 1] == gs[|gs| - 1][|gs[|gs| - 1]| - 1]
  {
    RunsNotEmpty(gs, es);
    var front, g := gs[..|gs| - 1], gs[|gs| - 1];
    assert OneSection(g);
    var hs := Shorter(gs);
    assert forall h :: h in front ==> h in gs;
    if |g| > 1 {
      var g' := g[..|g| - 1];
      assert hs[..|hs| - 1] == front;
      assert Flat(hs) == Flat(front) + g';
      assert g' + [g[|g| - 1]] == g;
      assert OneSection(g');
    } else {
      assert g == [es[|es| - 1]];
    }
    assert Flat(hs) + [es[|es| - 1]] == es;
    assert Flat(hs) == es[..|es| - 1];
  }

  /** What an entry adds to the stream, by the run it is in. */
  lemma {:induction false} StreamOfRuns(es: seq<Entry>, gs: seq<Run>)
    requires es != [] && AreRuns(gs, es)
    ensures SavedHash(es) + "}" == JsonDocs.Commas(SectionMembers(gs))
    decreases |es|
  {
    hide AreRuns, JsonDocs.Commas, MemberText, Json.Quote;
    ShorterRuns(gs, es);
    RunsNotEmpty(gs, es);
    var front, hs, e := es[..|es| - 1], Shorter(gs), es[|es| - 1];
    RunsNotEmpty(hs, front);
    assert front + [e] == es;
    SavedSnoc(front, e);
    if front != [] {
      StreamOfRuns(front, hs);
    }
    StreamStep(front, e, gs);
  }

  lemma StreamStep(front: seq<Entry>, e: Entry, gs: seq<Run>)
    requires AreRuns(gs, front + [e]) && gs != [] && AreRuns(Shorter(gs), front)
    requires front != [] ==> SavedHash(front) + "}" == JsonDocs.Commas(SectionMembers(Shorter(gs)))
    requires var g := gs[|gs| - 1]; e == g[|g| - 1]
    ensures SavedHash(front) + EntryHash(LastSection(front), e) + "}" == JsonDocs.Commas(SectionMembers(gs))
  {
    hide JsonDocs.Commas, Json.Quote, Flat;
    var n, g := |gs| - 1, gs[|gs| - 1];
    RunsNotEmpty(Shorter(gs), front);
    LastMember(gs);
    assert OneSection(g);
    if |g| > 1 {
      var hs := Shorter(gs);
      LastMember(hs);
      assert hs[..n] == gs[..n] && hs[n] == g[..|g| - 1];
      OneMoreMember(g);
      NextKey(SavedHash(front), Before(gs), SectionOpen(hs[n]), MemberText(e));
    } else {
      FirstMember(g);
      assert Shorter(gs) == gs[..n];
      if n > 0 {
        assert gs[n - 1][0].section != g[0].section;
        NextSection(SavedHash(front), JsonDocs.Commas(SectionMembers(gs[..n])), e);
      }
    }
  }

  /** A section up to its closing brace. */
  function SectionOpen(g: Run): string
  {
    "\"" + g[0].section + "\":{" + JsonDocs.Commas(MembersOf(g))
  }

  ghost function Before(gs: seq<Run>): string
    requires gs != []
  {
    if |gs| == 1 then "" else JsonDocs.Commas(SectionMembers(gs[..|gs| - 1])) + ","
  }

  lemma LastMember(gs: seq<Run>)
    requires gs != []
    ensures JsonDocs.Commas(SectionMembers(gs)) == Before(gs) + SectionOpen(gs[|gs| - 1]) + "}"
  {
    var ms, n := SectionMembers(gs), |gs| - 1;
    assert ms[..n] == SectionMembers(gs[..n]);
    var g := gs[n];
    assert "\"" + g[0].section + "\":" + ("{" + JsonDocs.Commas(MembersOf(g)) + "}") == SectionOpen(g) + "}";
  }

  lemma OneMoreMember(g: Run)
    requires |g| > 1 && OneSection(g)
    ensures SectionOpen(g) == SectionOpen(g[..|g| - 1]) + "," + MemberText(g[|g| - 1])
  {
    var n := |g| - 1;
    assert MembersOf(g)[..n] == MembersOf(g[..n]);
    assert g[..n][0] == g[0];
  }

  lemma FirstMember(g: Run)
    requires |g| == 1
    ensures SectionOpen(g) == "\"" + g[0].section + "\":{" + MemberText(g[0])
  {
    assert MembersOf(g) == [MemberText(g[0])];
    assert JsonDocs.Commas([MemberText(g[0])]) == "" + MemberText(g[0]) == MemberText(g[0]);
  }

  lemma NextKey(hash: string, before: string, open: string, m: string)
    requires hash + "}" == before + open + "}"
    ensures hash + ("," + m) + "}" == before + (open + "," + m) + "}"
    ensures "" + ("," + m) == "," + m
  {
    assert (hash + "}")[..|hash|] == hash;
    assert (before + open + "}")[..|before + open|] == before + open;
    assert hash == before + open;
  }

  lemma NextSection(hash: string, all: string, e: Entry)
    requires hash + "}" == all
    ensures hash + ("}," + ("\"" + e.section + "\":{") + MemberText(e)) + "}"
         == all + "," + ("\"" + e.section + "\":{" + MemberText(e)) + "}"
  {
    assert hash + "}," == all + ",";
  }

  /** The stream hashed is one JSON object with a member for each run of equal sections, in order, and that member an
      object of the run's entries, each with its quoted key, a colon and its value. */
  lemma StreamIsObject(es: seq<Entry>, gs: seq<Run>)
    requires es != [] && AreRuns(gs, es)
    ensures Stream(SavedHash(es)) == JsonDocs.ObjectOf(SectionMembers(gs))
  {
    hide SavedHash, JsonDocs.Commas, AreRuns;
    StreamOfRuns(es, gs);
    BraceLast(SavedHash(es), JsonDocs.Commas(SectionMembers(gs)));
  }

  lemma BraceLast(hash: string, all: string)
    requires hash + "}" == all
    ensures "{" + hash + "}}" == "{" + all + "}"
  {
    assert hash + "}}" == all + "}";
  }

  ghost function RunsOf(es: seq<Entry>): (gs: seq<Run>)
  {
    if es == [] then [] else Longer(RunsOf(es[..|es| - 1]), es[|es| - 1])
  }

  /** All entries fall into such runs. */
  lemma {:induction false} RunsExist(es: seq<Entry>)
    ensures AreRuns(RunsOf(es), es)
  {
    if es != [] {
      RunsExist(es[..|es| - 1]);
      OneMoreRun(RunsOf(es[..|es| - 1]), es[..|es| - 1], es[|es| - 1]);
      assert es[..|es| - 1] + [es[|es| - 1]] == es;
    }
  }

  ghost function Longer(gs: seq<Run>, e: Entry): seq<Run> {
    if gs != [] && gs[|gs| - 1][0].section == e.section then gs[..|gs| - 1] + [gs[|gs| - 1] + [e]] else gs + [[e]]
  }

  lemma OneMoreRun(gs: seq<Run>, es: seq<Entry>, e: Entry)
    requires AreRuns(gs, es)
    ensures AreRuns(Longer(gs, e), es + [e])
  {
    var hs := Longer(gs, e);
    var n := |hs| - 1;
    if n == |gs| - 1 {
      assert hs[..n] == gs[..n] && OneSection(gs[n]);
      assert Flat(gs[..n]) + (gs[n] + [e]) == Flat(gs[..n]) + gs[n] + [e];
    } else {
      assert hs[..n] == gs;
    }
  }

  /** The stream is accepted as JSON by every build that accepts the values, when no section name holds a quote or a
      backslash. */
  lemma StreamValid(es: seq<Entry>, checked: bool)
    requires es != []
    requires forall e :: e in es ==>
      Json.Valid(e.value, checked) && '"' !in e.section && '\\' !in e.section
    ensures Json.Valid(Stream(SavedHash(es)), checked)
  {
    hide SavedHash, Stream, Json.Valid, JsonDocs.ObjectOf, JsonDocs.IsMember, AreRuns, RunsOf, SectionMember;
    var gs := RunsOf(es);
    RunsExist(es);
    StreamIsObject(es, gs);
    var ms := SectionMembers(gs);
    forall m | m in ms ensures JsonDocs.IsMember(m, checked) {
      var i :| 0 <= i < |gs| && ms[i] == m;
      RunsWithin(gs, es, i);
      SectionValid(gs[i], checked);
    }
    ObjectValid(ms, checked);
  }

  lemma ObjectValid(ms: seq<string>, checked: bool)
    requires forall m :: m in ms ==> JsonDocs.IsMember(m, checked)
    ensures Json.Valid(JsonDocs.ObjectOf(ms), checked)
  {
    hide Json.Valid, JsonDocs.ObjectOf, JsonDocs.IsMember, Json.Value;
    JsonDocs.ObjectRead(ms, checked);
    JsonDocs.ReadIsValid(JsonDocs.ObjectOf(ms), "", checked);
    assert JsonDocs.ObjectOf(ms) + "" == JsonDocs.ObjectOf(ms);
  }

  lemma RunsWithin(gs: seq<Run>, es: seq<Entry>, i: nat)
    requires AreRuns(gs, es) && i < |gs|
    ensures forall e :: e in gs[i] ==> e in es
  {
    forall e | e in gs[i] ensures e in es { InFlat(gs, i, e); }
  }

  lemma {:induction false} InFlat(gs: seq<Run>, i: nat, e: Entry)
    requires i < |gs| && e in gs[i]
    ensures e in Flat(gs)
  {
    if i < |gs| - 1 {
      InFlat(gs[..|gs| - 1], i, e);
    }
  }

  lemma SectionValid(g: Run, checked: bool)
    requires forall e :: e in g ==> Json.Valid(e.value, checked) && '"' !in e.section && '\\' !in e.section
    ensures JsonDocs.IsMember(SectionMember(g), checked)
  {
    hide Json.Valid, JsonDocs.ObjectOf, JsonDocs.IsMember, Json.Quote;
    var ms := MembersOf(g);
    forall m | m in ms ensures JsonDocs.IsMember(m, checked) {
      var i :| 0 <= i < |g| && ms[i] == m;
      JsonDocs.QuotedMember(g[i].key, g[i].value, checked);
    }
    ObjectValid(ms, checked);
    assert g[0] in g;
    JsonDocs.PlainMember(g[0].section, JsonDocs.ObjectOf(ms), checked);
  }

  /** The text saved is one section for each run of equal sections, in order. */
  lemma {:induction false} TextIsSections(es: seq<Entry>, gs: seq<Run>)
    requires AreRuns(gs, es)
    ensures SavedText(es) == SectionsText(gs)
    decreases |es|
  {
    hide SavedText, SectionsText, AreRuns;
    if es == [] {
      RunsNotEmpty(gs, es);
      NoText();
    } else {
      ShorterRuns(gs, es);
      var front, e := es[..|es| - 1], es[|es| - 1];
      assert front + [e] == es;
      SavedSnoc(front, e);
      TextIsSections(front, Shorter(gs));
      TextStep(front, e, gs);
    }
  }

  lemma NoText()
    ensures SavedText([]) == "" && SectionsText([]) == ""
  {
  }

  lemma TextStep(front: seq<Entry>, e: Entry, gs: seq<Run>)
    requires AreRuns(gs, front + [e]) && gs != [] && AreRuns(Shorter(gs), front)
    requires SavedText(front) == SectionsText(Shorter(gs))
    requires var g := gs[|gs| - 1]; e == g[|g| - 1]
    ensures SavedText(front) + EntryText(LastSection(front), e) == SectionsText(gs)
  {
    hide SavedText, Flat, SectionsText;
    var n, g := |gs| - 1, gs[|gs| - 1];
    RunsNotEmpty(Shorter(gs), front);
    assert OneSection(g);
    LastSectionText(gs);
    if |g| > 1 {
      var hs := Shorter(gs);
      assert hs[..n] == gs[..n] && hs[n] == g[..|g| - 1] && hs[n][0] == g[0];
      LastSectionText(hs);
      NextLine(SectionStart(gs), LinesOf(hs[n]), e);
    } else {
      assert Shorter(gs) == gs[..n];
      FirstLineOf(g);
      if n > 0 {
        assert gs[n - 1][0].section != g[0].section;
      }
      FirstText(SavedText(front), n > 0, e);
    }
  }

  /** The text up to the header of the last section. */
  ghost function SectionStart(gs: seq<Run>): string
    requires gs != []
  {
    SectionsText(gs[..|gs| - 1]) + (if |gs| == 1 then "" else "\n") + ("[" + gs[|gs| - 1][0].section + "]\n")
  }

  lemma LastSectionText(gs: seq<Run>)
    requires gs != []
    ensures SectionsText(gs) == SectionStart(gs) + LinesOf(gs[|gs| - 1])
  {
    hide LinesOf;
  }

  lemma NextLine(start: string, lines: string, e: Entry)
    ensures start + lines + ("" + (Line(e.key, e.value) + "\n")) == start + (lines + (e.key + "=" + e.value + "\n"))
  {
    assert "" + (Line(e.key, e.value) + "\n") == e.key + "=" + e.value + "\n";
  }

  lemma FirstLineOf(g: Run)
    requires |g| == 1
    ensures LinesOf(g) == g[0].key + "=" + g[0].value + "\n"
  {
    assert g[..0] == [];
  }

  lemma FirstText(text: string, more: bool, e: Entry)
    ensures var line := e.key + "=" + e.value + "\n";
      text + ((if more then "\n" else "") + ("[" + e.section + "]\n") + (Line(e.key, e.value) + "\n"))
        == text + (if more then "\n" else "") + ("[" + e.section + "]\n") + line
  {
  }

  const HEAD := "[backrest]\nbackrest-format=5\n" + "backrest-version=\"2.59.0\"\n"

  /** What is saved when the callbacks save nothing: format and version, the passphrase in a section of its own if there
      is one, and the checksum. */
  lemma OwnEntriesText(pass: Option<string>, checksum: string)
    ensures SavedText(AllEntries(pass, [], [], [])) ==
      if pass.None? then HEAD else HEAD + ("\n[cipher]\ncipher-pass=" + Json.Quote(pass.value) + "\n")
    ensures Trailer(checksum) == "\n[backrest]\nbackrest-checksum=" + Json.Quote(checksum) + "\n"
  {
    hide SavedText, Json.Quote, EntryText;
    var format := Entry("backrest", "backrest-format", "5");
    var version := Entry("backrest", "backrest-version", Json.Quote("2.59.0"));
    HeadText();
    if pass.Some? {
      var cipher := Entry("cipher", "cipher-pass", Json.Quote(pass.value));
      assert AllEntries(pass, [], [], []) == [format, version] + [cipher];
      SavedSnoc([format, version], cipher);
      CipherText(Json.Quote(pass.value));
    } else {
      assert AllEntries(pass, [], [], []) == [format, version];
    }
    TrailerIs(Json.Quote(checksum));
  }

  lemma HeadText()
    ensures var format := Entry("backrest", "backrest-format", "5");
      SavedText([format, Entry("backrest", "backrest-version", Json.Quote("2.59.0"))]) == HEAD
  {
    var format := Entry("backrest", "backrest-format", "5");
    var version := Entry("backrest", "backrest-version", Json.Quote("2.59.0"));
    VersionQuoted();
    hide SavedText, Json.Quote;
    NoText();
    assert [] + [format] == [format] && [format] + [version] == [format, version];
    SavedSnoc([], format);
    SavedSnoc([format], version);
    FirstTwo();
    hide EntryText;
    assert LastSection([]) == None && LastSection([format]) == Some("backrest");
    assert SavedText([format]) == "[backrest]\nbackrest-format=5\n";
  }

  lemma CipherText(pass: string)
    ensures EntryText(Some("backrest"), Entry("cipher", "cipher-pass", pass))
         == "\n[cipher]\ncipher-pass=" + pass + "\n"
  {
    assert "\n" + ("[" + "cipher" + "]\n") + ("cipher-pass" + "=" + pass + "\n")
      == "\n[cipher]\ncipher-pass=" + pass + "\n";
  }

  lemma TrailerIs(quoted: string)
    ensures "\n" + ("[" + "backrest" + "]\n") + ("backrest-checksum" + "=" + quoted + "\n")
         == "\n[backrest]\nbackrest-checksum=" + quoted + "\n"
  {
  }

  lemma FirstTwo()
    ensures EntryText(None, Entry("backrest", "backrest-format", "5")) == "[backrest]\nbackrest-format=5\n"
    ensures EntryText(Some("backrest"), Entry("backrest", "backrest-version", "\"2.59.0\""))
         == "backrest-version=\"2.59.0\"\n"
  {
  }

  lemma VersionQuoted()
    ensures Json.Quote("2.59.0") == "\"2.59.0\""
  {
    PlainQuote("2.59.0");
  }

  lemma {:induction false} PlainQuote(t: string)
    requires forall c :: c in t ==> Json.EscapeOf(c).None?
    ensures Json.WriteBody(t) == t + "\""
  {
    if t != "" {
      PlainQuote(t[1..]);
      assert t == [t[0]] + t[1..];
    }
  }

  // ---------------------------------------------------------------------------------------------
  // Documents as values

  /** In every build a line with a key that holds no `=` and does not look like a header, and any document as its
      value, is read back as its entry. */
  lemma DocLineRead(section: string, key: string, d: JsonDocs.Doc, t: string, checked: bool)
    requires section != "" && key != "" && '=' !in key && LF !in key && key[0] != '[' && JsonDocs.Fits(d)
    ensures NextEntry(section, Line(key, JsonDocs.Print(d, "")) + "\n" + t, checked)
         == Got(Entry(section, key, JsonDocs.Print(d, "")), t)
  {
    hide Json.Valid, JsonDocs.Print, JsonDocs.Fits, NextEntry;
    var value := JsonDocs.Print(d, "");
    JsonDocs.PrintValid(d, "", true);
    assert value + "" == value;
    JsonDocs.PrintOneLine(d, "");
    PlainKeySeparable(key, value, checked);
    LineReadIff(Entry(section, key, value), t, checked);
  }
}
