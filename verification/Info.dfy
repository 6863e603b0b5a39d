/** Saving and loading info files: the text written, the byte stream hashed while writing it, and the loader
    that reads the text back and hashes what it reads (src/info/info.c). */
module Info {
  import opened Wrappers
  import Json
  import opened Ini

  const BACKREST := "backrest"
  const KEY_FORMAT := "backrest-format"
  const KEY_VERSION := "backrest-version"
  const KEY_CHECKSUM := "backrest-checksum"
  const CIPHER := "cipher"
  const KEY_CIPHER_PASS := "cipher-pass"
  const FORMAT := "5"
  const VERSION := "2.59.0"

  type Section = Option<string>

  // ---------------------------------------------------------------------------------------------
  // What saving an entry writes and hashes

  /** The lines for an entry after an entry of section `last`. */
  function EntryText(last: Section, e: Entry): string {
    HeaderText(last, e.section) + (Line(e.key, e.value) + "\n")
  }

  function HeaderText(last: Section, section: string): string {
    if last == Some(section) then ""
    else (if last.Some? then "\n" else "") + ("[" + section + "]\n")
  }

  /** The bytes hashed for an entry after an entry of section `last`: the file as one JSON object. */
  function EntryHash(last: Section, e: Entry): string {
    HeaderHash(last, e.section) + (Json.Quote(e.key) + ":" + e.value)
  }

  function HeaderHash(last: Section, section: string): string {
    if last == Some(section) then ","
    else (if last.Some? then "}," else "") + ("\"" + section + "\":{")
  }

  function LastSection(es: seq<Entry>): Section {
    if es == [] then None else Some(es[|es| - 1].section)
  }

  function SavedText(es: seq<Entry>): string {
    if es == [] then ""
    else var n := |es| - 1; SavedText(es[..n]) + EntryText(LastSection(es[..n]), es[n])
  }

  function SavedHash(es: seq<Entry>): string {
    if es == [] then ""
    else var n := |es| - 1; SavedHash(es[..n]) + EntryHash(LastSection(es[..n]), es[n])
  }

  function Stream(body: string): string {
    "{" + body + "}}"
  }

  /** The end of the file: the checksum, in a section of its own. */
  function Trailer(checksum: string): string {
    "\n" + ("[" + BACKREST + "]\n") + (KEY_CHECKSUM + "=" + Json.Quote(checksum) + "\n")
  }

  lemma Associate(a: string, b: string, c: string)
    ensures a + b + c == a + (b + c) && a + "" == a && "" + c == c
  {
  }

  lemma SavedSnoc(es: seq<Entry>, e: Entry)
    ensures SavedText(es + [e]) == SavedText(es) + EntryText(LastSection(es), e)
    ensures SavedHash(es + [e]) == SavedHash(es) + EntryHash(LastSection(es), e)
    ensures LastSection(es + [e]) == Some(e.section)
  {
    hide Json.Quote, EntryText, EntryHash;
    assert (es + [e])[..|es|] == es;
  }

  lemma QuoteStarts(t: string)
    ensures Json.Quote(t) != "" && Json.Quote(t)[0] == '"'
  {
  }

  /** The writer. */
  class Saver {
    var text: string
    var hashed: string
    var sectionLast: Section
    ghost var entries: seq<Entry>

    ghost predicate Valid()
      reads this
    {
      && text == SavedText(entries)
      && hashed == "{" + SavedHash(entries)
      && sectionLast == LastSection(entries)
    }

    constructor ()
      ensures Valid() && entries == []
    {
      text, hashed, sectionLast, entries := "", "{", None, [];
    }

    /** infoSaveValue. */
    method SaveValue(section: string, key: string, json: string)
      requires Valid() && json != "" && json[0] != '['
      modifies this
      ensures Valid() && entries == old(entries) + [Entry(section, key, json)]
    {
      hide SavedText, SavedHash, Json.Quote;
      SavedSnoc(entries, Entry(section, key, json));
      ghost var text0, hashed0, last := text, hashed, sectionLast;
      SaveHeader(section);
      hashed := hashed + (Json.Quote(key) + ":" + json);
      text := text + (key + "=" + json + "\n");
      Associate(text0, HeaderText(last, section), key + "=" + json + "\n");
      Associate(hashed0, HeaderHash(last, section), Json.Quote(key) + ":" + json);
      Associate("{", SavedHash(entries), EntryHash(last, Entry(section, key, json)));
      entries := entries + [Entry(section, key, json)];
    }

    /** Start a new section, or separate the entry from the one before it. */
    method SaveHeader(section: string)
      modifies this`text, this`hashed, this`sectionLast
      ensures text == old(text) + HeaderText(old(sectionLast), section)
      ensures hashed == old(hashed) + HeaderHash(old(sectionLast), section)
      ensures sectionLast == Some(section)
    {
      if sectionLast != Some(section) {
        if sectionLast.Some? {
          hashed := hashed + "},";
          text := text + "\n";
        }
        hashed := hashed + ("\"" + section + "\":{");
        text := text + ("[" + section + "]\n");
      } else {
        hashed := hashed + ",";
      }
      Associate(old(text), "\n", "[" + section + "]\n");
      Associate(old(hashed), "},", "\"" + section + "\":{");
      sectionLast := Some(section);
    }

    /** What a callback does: save its entries one by one. */
    method SaveEntries(es: seq<Entry>)
      requires Valid() && forall e :: e in es ==> e.value != "" && e.value[0] != '['
      modifies this
      ensures Valid() && entries == old(entries) + es
    {
      hide SavedText, SavedHash, Json.Quote;
      for i := 0 to |es|
        invariant Valid() && entries == old(entries) + es[..i]
      {
        assert es[i] in es;
        SaveValue(es[i].section, es[i].key, es[i].value);
        assert es[..i] + [es[i]] == es[..i + 1];
      }
      assert es[..|es|] == es;
    }
  }

  /** Everything saved: what the callbacks save and the entries of the file itself, in order. */
  function AllEntries(cipherPass: Option<string>, first: seq<Entry>, cipher: seq<Entry>, rest: seq<Entry>): seq<Entry> {
    first + [Entry(BACKREST, KEY_FORMAT, FORMAT), Entry(BACKREST, KEY_VERSION, Json.Quote(VERSION))]
    + (if cipherPass.Some? then cipher + [Entry(CIPHER, KEY_CIPHER_PASS, Json.Quote(cipherPass.value))] else [])
    + rest
  }

  /** infoSave. `first`, `cipher` and `rest` are what the callback saves when it is called for the backrest
      section, for the cipher section and for what remains; `hash` gives the checksum in hex. */
  method Save(cipherPass: Option<string>, first: seq<Entry>, cipher: seq<Entry>, rest: seq<Entry>,
    hash: string -> string)
    returns (text: string)
    requires forall e :: e in first + cipher + rest ==> e.value != "" && e.value[0] != '['
    ensures var es := AllEntries(cipherPass, first, cipher, rest);
      text == SavedText(es) + Trailer(hash(Stream(SavedHash(es))))
  {
    hide SavedText, SavedHash, Json.Quote;
    var data := new Saver();
    QuoteStarts(VERSION);
    if cipherPass.Some? { QuoteStarts(cipherPass.value); }
    assert forall e :: e in first || e in cipher || e in rest ==> e in first + cipher + rest;
    data.SaveEntries(first);
    data.SaveValue(BACKREST, KEY_FORMAT, FORMAT);
    data.SaveValue(BACKREST, KEY_VERSION, Json.Quote(VERSION));
    ghost var own := [Entry(BACKREST, KEY_FORMAT, FORMAT), Entry(BACKREST, KEY_VERSION, Json.Quote(VERSION))];
    assert data.entries == first + own;
    ghost var pass: seq<Entry> := [];
    if cipherPass.Some? {
      data.SaveEntries(cipher);
      data.SaveValue(CIPHER, KEY_CIPHER_PASS, Json.Quote(cipherPass.value));
      pass := cipher + [Entry(CIPHER, KEY_CIPHER_PASS, Json.Quote(cipherPass.value))];
    }
    assert data.entries == first + own + pass;
    data.SaveEntries(rest);
    assert data.hashed + "}}" == Stream(SavedHash(data.entries));
    text := data.text + Trailer(hash(data.hashed + "}}"));
  }

  // ---------------------------------------------------------------------------------------------
  // What the reader makes of a saved file

  /** Entries that survive being written to a file of lines: section and key are single non-empty lines, the
      value is JSON on one line, the key can be told from the value, and the line does not look like a
      section header. */
  ghost predicate Saveable(e: Entry, checked: bool) {
    && e.section != "" && LF !in e.section
    && e.key != "" && LF !in e.key
    && Json.Valid(e.value, true) && LF !in e.value
    && Separable(e.key, e.value, checked)
    && !LooksLikeHeader(e)
  }

  /** The entry's line begins with the `[` of its key and ends with the `]` of its value. */
  predicate LooksLikeHeader(e: Entry) {
    e.key != "" && e.value != "" && e.key[0] == '[' && e.value[|e.value| - 1] == ']'
  }

  lemma HeaderIff(e: Entry)
    requires e.key != "" && e.value != ""
    ensures IsHeader(Line(e.key, e.value)) <==> LooksLikeHeader(e)
  {
  }

  lemma HeaderInFront(last: Section, name: string, t: string)
    requires last != Some(name)
    ensures var s := "[" + name + "]" + "\n" + t; HeaderText(last, name) + t == if last.Some? then "\n" + s else s
  {
    var h := "[" + name + "]" + "\n";
    if last.Some? {
      assert "\n" + h + t == "\n" + (h + t);
    }
  }

  lemma HeaderRead(section: string, last: Section, name: string, t: string, checked: bool)
    requires name != "" && LF !in name && last != Some(name)
    ensures NextEntry(section, HeaderText(last, name) + t, checked) == NextEntry(name, t, checked)
  {
    hide NextEntry;
    var s := "[" + name + "]" + "\n" + t;
    HeaderLines(section, name, t, checked);
    HeaderLines(section, "", s, checked);
    HeaderInFront(last, name, t);
  }

  lemma LineRead(e: Entry, t: string, checked: bool)
    requires Saveable(e, checked)
    ensures NextEntry(e.section, Line(e.key, e.value) + "\n" + t, checked) == Got(e, t)
  {
    hide Json.Value, Json.SkipSpace, Retry;
    var line := Line(e.key, e.value);
    RecoversIff(e.key, e.value, checked);
    ValidNotEmpty(e.value);
    HeaderIff(e);
    FirstLine(line, t);
    assert line[..|e.key|] == e.key && line[|e.key| + 1..] == e.value;
  }

  /** In every build the line of an entry is read back as that entry exactly when the key can be told from the
      value in that build and the line does not look like a section header. */
  lemma LineReadIff(e: Entry, t: string, checked: bool)
    requires e.section != "" && e.key != "" && LF !in e.key && Json.Valid(e.value, true) && LF !in e.value
    ensures NextEntry(e.section, Line(e.key, e.value) + "\n" + t, checked) == Got(e, t)
      <==> Separable(e.key, e.value, checked) && !LooksLikeHeader(e)
  {
    hide Json.Value, Json.SkipSpace, Retry, Separable;
    var line := Line(e.key, e.value);
    RecoversIff(e.key, e.value, checked);
    ValidNotEmpty(e.value);
    HeaderIff(e);
    FirstLine(line, t);
    assert line[..|e.key|] == e.key && line[|e.key| + 1..] == e.value;
  }

  /** White space lets an array past the writer's test for one: under a key that begins with a bracket its line
      is taken for a section header, and the entry does not come back. */
  lemma ArrayTakenForHeader(t: string, checked: bool)
    ensures var e := Entry("s", "[k", " [1]");
      && Json.Valid(e.value, true) && e.value[0] != '[' && IsHeader(Line(e.key, e.value))
      && NextEntry(e.section, Line(e.key, e.value) + "\n" + t, checked) == NextEntry("k= [1", t, checked)
      && NextEntry(e.section, Line(e.key, e.value) + "\n" + t, checked) != Got(e, t)
  {
    var e := Entry("s", "[k", " [1]");
    hide Json.Value, NextEntry, Separable;
    SpacedArrayValid();
    HeaderIff(e);
    LineReadIff(e, t, checked);
    assert Line(e.key, e.value) == "[" + "k= [1" + "]";
    HeaderLines(e.section, "k= [1", t, checked);
  }

  lemma SpacedArrayValid()
    ensures Json.Valid(" [1]", true)
  {
    var s := " [1]";
    assert Json.Digits(s, 2) == 1;
    assert s[2..3] == "1";
    assert Json.Decimal("1") == 1;
    assert Json.Elements(s, 3, true, true) == Json.At(4);
    assert Json.Value(s, 2, false, true) == Json.At(3);
    assert Json.Elements(s, 2, false, true) == Json.At(4);
  }

  lemma ValidNotEmpty(s: string)
    requires Json.Valid(s, true)
    ensures s != ""
  {
  }

  /** One entry, with whatever header it needs, is read back as that entry. */
  lemma EntryRead(section: string, last: Section, e: Entry, t: string, checked: bool)
    requires Saveable(e, checked) && (last.Some? ==> last.value == section)
    ensures NextEntry(section, EntryText(last, e) + t, checked) == Got(e, t)
  {
    hide Json.Value, Json.SkipSpace, Retry, NextEntry, Saveable;
    var body := Line(e.key, e.value) + "\n" + t;
    LineRead(e, t, checked);
    if last == Some(e.section) {
      assert EntryText(last, e) + t == body;
    } else {
      assert EntryText(last, e) + t == HeaderText(last, e.section) + body;
      SaveableSection(e, checked);
      HeaderRead(section, last, e.section, body, checked);
    }
  }

  lemma SaveableSection(e: Entry, checked: bool)
    requires Saveable(e, checked)
    ensures e.section != "" && LF !in e.section
  {
  }

  function SectionOr(last: Section): string {
    if last.Some? then last.value else ""
  }

  ghost predicate AllSaveable(es: seq<Entry>, checked: bool) {
    forall i :: 0 <= i < |es| ==> Saveable(es[i], checked)
  }

  /** Reading what was saved gives back exactly the entries saved, in order, each under its own section and
      key, and goes on with whatever follows them. */
  lemma {:induction false} ReadSaved(es: seq<Entry>, t: string, checked: bool)
    requires AllSaveable(es, checked)
    ensures var more := ReadAll(SectionOr(LastSection(es)), t, checked);
      ReadAll("", SavedText(es) + t, checked) == if more.Some? then Some(es + more.value) else None
  {
    hide NextEntry, Saveable, EntryText;
    if es == [] {
      assert SavedText(es) + t == t;
      var more := ReadAll("", t, checked);
      if more.Some? { assert es + more.value == more.value; }
    } else {
      var n := |es| - 1;
      var init, e := es[..n], es[n];
      assert AllSaveable(init, checked) by {
        forall i | 0 <= i < n ensures Saveable(init[i], checked) { assert Saveable(es[i], checked); }
      }
      assert Saveable(e, checked);
      var text := EntryText(LastSection(init), e) + t;
      assert SavedText(es) + t == SavedText(init) + text;
      ReadSaved(init, text, checked);
      EntryRead(SectionOr(LastSection(init)), LastSection(init), e, t, checked);
      var more := ReadAll(e.section, t, checked);
      if more.Some? {
        assert init + ([e] + more.value) == es + more.value;
      }
    }
  }

  lemma OneRead(section: string, t: string, e: Entry, checked: bool)
    requires NextEntry(section, t, checked) == Got(e, "")
    ensures ReadAll(section, t, checked) == Some([e])
  {
    hide NextEntry;
    EndRead(e.section, checked);
    assert [e] + [] == [e];
  }

  lemma TrailerText(section: string, key: string, value: string)
    requires section != ""
    ensures "\n" + ("[" + section + "]\n") + (key + "=" + value + "\n")
      == HeaderText(Some(""), section) + (Line(key, value) + "\n" + "")
  {
    Associate("", "", Line(key, value) + "\n");
  }

  lemma TrailerRead(section: string, checksum: string, checked: bool)
    ensures ReadAll(section, Trailer(checksum), checked) == Some([Entry(BACKREST, KEY_CHECKSUM, Json.Quote(checksum))])
  {
    hide NextEntry, Json.Quote;
    var e := Entry(BACKREST, KEY_CHECKSUM, Json.Quote(checksum));
    var body := Line(e.key, e.value) + "\n" + "";
    PlainSaveable(BACKREST, KEY_CHECKSUM, checksum, checked);
    TrailerText(BACKREST, KEY_CHECKSUM, Json.Quote(checksum));
    HeaderRead(section, Some(""), BACKREST, body, checked);
    LineRead(e, "", checked);
    OneRead(section, Trailer(checksum), e, checked);
  }

  lemma EndRead(section: string, checked: bool)
    ensures ReadAll(section, "", checked) == Some([])
  {
  }

  /** Quoted text under a plain key can always be saved. */
  lemma PlainSaveable(section: string, key: string, text: string, checked: bool)
    requires section != "" && LF !in section && key != "" && LF !in key && '=' !in key && key[0] != '['
    ensures Saveable(Entry(section, key, Json.Quote(text)), checked)
  {
    Json.QuoteValid(text, true);
    PlainKeySeparable(key, Json.Quote(text), checked);
  }

  /** A whole saved file is read back as the entries saved, followed by the checksum entry. */
  lemma FileRead(es: seq<Entry>, checksum: string, checked: bool)
    requires AllSaveable(es, checked)
    ensures ReadAll("", SavedText(es) + Trailer(checksum), checked)
      == Some(es + [Entry(BACKREST, KEY_CHECKSUM, Json.Quote(checksum))])
  {
    ReadSaved(es, Trailer(checksum), checked);
    TrailerRead(SectionOr(LastSection(es)), checksum, checked);
  }

  // ---------------------------------------------------------------------------------------------
  // Loading

  predicate IsChecksum(e: Entry) {
    e.section == BACKREST && e.key == KEY_CHECKSUM
  }

  /** The entries that the loader hashes. */
  function Hashed(es: seq<Entry>): (r: seq<Entry>)
    ensures |r| <= |es|
    ensures |r| == |es| <==> forall e :: e in es ==> !IsChecksum(e)
    ensures |r| == |es| ==> r == es
  {
    if es == [] then []
    else
      var n := |es| - 1;
      var r := Hashed(es[..n]);
      assert es == es[..n] + [es[n]];
      if IsChecksum(es[n]) then r else r + [es[n]]
  }

  /** A value that is null or a string. */
  function StrOrNull(s: string): Option<Option<string>> {
    if Json.KindAfterComma(s, 0) == Some(Json.Null) then Some(None)
    else if Json.ReadStr(s).Some? then Some(Json.ReadStr(s))
    else None
  }

  /** What has been loaded: the file's own settings and, in order, the entries handed to the callback. */
  datatype Info = Info(version: Option<string>, cipherPass: Option<string>, checksum: Option<string>,
    delivered: seq<Entry>)

  const NoInfo := Info(None, None, None, [])

  /** One entry, or nothing when its value is not what its key requires. */
  function LoadEntry(i: Info, e: Entry): Option<Info> {
    if e.section == BACKREST then
      if e.key == KEY_FORMAT then
        if Json.ReadNumber(e.value) == Some(5) then Some(i) else None
      else if e.key == KEY_VERSION then
        if StrOrNull(e.value).Some? then Some(i.(version := StrOrNull(e.value).value)) else None
      else if e.key == KEY_CHECKSUM then
        if StrOrNull(e.value).Some? then Some(i.(checksum := StrOrNull(e.value).value)) else None
      else Some(i)
    else if e.section == CIPHER then
      if e.key == KEY_CIPHER_PASS then
        if StrOrNull(e.value).Some? then Some(i.(cipherPass := StrOrNull(e.value).value)) else None
      else Some(i)
    else Some(i.(delivered := i.delivered + [e]))
  }

  function LoadFrom(i: Info, es: seq<Entry>): Option<Info> {
    if es == [] then Some(i)
    else
      var r := LoadFrom(i, es[..|es| - 1]);
      if r.Some? then LoadEntry(r.value, es[|es| - 1]) else None
  }

  function LoadEntries(es: seq<Entry>): Option<Info> {
    LoadFrom(NoInfo, es)
  }

  datatype LoadResult = Loaded(info: Info) | BadFormat | BadChecksum

  /** What loading a file amounts to. */
  function LoadFile(text: string, hash: string -> string, checked: bool): LoadResult {
    var es := ReadAll("", text, checked);
    if es.None? then BadFormat
    else
      var i := LoadEntries(es.value);
      if i.None? then BadFormat
      else if i.value.checksum == Some(hash(Stream(SavedHash(Hashed(es.value))))) then Loaded(i.value)
      else BadChecksum
  }

  /** The loader: hashes and interprets each entry as it is read. */
  class Loader {
    var hashed: string
    var sectionLast: string
    var info: Info
    ghost var seen: seq<Entry>

    ghost predicate Valid()
      reads this
    {
      && hashed == "{" + SavedHash(Hashed(seen))
      && sectionLast == SectionOr(LastSection(Hashed(seen)))
      && LoadEntries(seen) == Some(info)
      && forall i :: 0 <= i < |Hashed(seen)| ==> Hashed(seen)[i].section != ""
    }

    constructor ()
      ensures Valid() && seen == []
    {
      hashed, sectionLast, info, seen := "{", "", NoInfo, [];
    }

    /** The body of the loop of infoNewLoad. */
    method Take(e: Entry) returns (ok: bool)
      requires Valid() && e.section != ""
      modifies this
      ensures ok == LoadEntries(old(seen) + [e]).Some?
      ensures ok ==> Valid() && seen == old(seen) + [e]
    {
      hide SavedHash, EntryHash, LoadEntry, LoadFrom, Hashed;
      TakenSnoc(seen, e);
      if !IsChecksum(e) {
        SavedSnoc(Hashed(seen), e);
        HashEntry(e);
      }
      var next := LoadEntry(info, e);
      if next.None? { return false; }
      info := next.value;
      seen := seen + [e];
      ok := true;
    }

    method HashEntry(e: Entry)
      requires Valid() && e.section != ""
      modifies this`hashed, this`sectionLast
      ensures hashed == "{" + (SavedHash(Hashed(seen)) + EntryHash(LastSection(Hashed(seen)), e))
      ensures sectionLast == e.section
    {
      hide SavedHash, Json.Quote;
      ghost var last, body := LastSection(Hashed(seen)), SavedHash(Hashed(seen));
      assert sectionLast == "" <==> last.None?;
      if sectionLast == "" || e.section != sectionLast {
        if sectionLast != "" {
          hashed := hashed + "},";
        }
        hashed := hashed + ("\"" + e.section + "\":{");
        sectionLast := e.section;
      } else {
        hashed := hashed + ",";
      }
      Associate("{" + body, "},", "\"" + e.section + "\":{");
      assert hashed == "{" + body + HeaderHash(last, e.section);
      hashed := hashed + (Json.Quote(e.key) + ":" + e.value);
      Associate("{" + body, HeaderHash(last, e.section), Json.Quote(e.key) + ":" + e.value);
      Associate("{", body, EntryHash(last, e));
    }
  }

  lemma TakenSnoc(seen: seq<Entry>, e: Entry)
    ensures Hashed(seen + [e]) == if IsChecksum(e) then Hashed(seen) else Hashed(seen) + [e]
    ensures var i := LoadEntries(seen); LoadEntries(seen + [e]) == if i.Some? then LoadEntry(i.value, e) else None
  {
    hide LoadEntry;
    assert (seen + [e])[..|seen|] == seen;
  }

  /** infoNewLoad: read, hash and interpret one entry after the other, then compare the checksums. */
  method Load(text: string, hash: string -> string, checked: bool) returns (r: LoadResult)
    ensures r == LoadFile(text, hash, checked)
  {
    hide SavedHash, LoadEntry, LoadFrom, ReadAll, NextEntry, Hashed;
    ghost var all := ReadAll("", text, checked);
    var loader := new Loader();
    var ini := new Reader(text, checked);
    assert Rest(all, [], "", text, checked) by {
      if all.Some? { assert [] + all.value == all.value; }
    }
    RestNext(all, [], "", text, checked);
    var status := ini.ValueNext();
    while status == Value
      invariant loader.Valid()
      invariant status == Value ==>
        Rest(all, loader.seen + [Entry(ini.section, ini.key, ini.value)], ini.section, ini.rest, checked)
          && ini.section != ""
      invariant status == End ==> all == Some(loader.seen)
      invariant status == Error ==> all == None
      decreases status == Value, |ini.rest|
    {
      var e := Entry(ini.section, ini.key, ini.value);
      ghost var seen := loader.seen + [e];
      var taken := loader.Take(e);
      if !taken {
        RestNext(all, seen, ini.section, ini.rest, checked);
        if all.Some? { LoadPrefix(all.value, |seen|); }
        return BadFormat;
      }
      RestNext(all, seen, ini.section, ini.rest, checked);
      status := ini.ValueNext();
    }
    if status == Error { return BadFormat; }
    if loader.info.checksum == Some(hash(loader.hashed + "}}")) {
      r := Loaded(loader.info);
    } else {
      r := BadChecksum;
    }
  }

  lemma {:induction false} LoadPrefix(es: seq<Entry>, n: nat)
    requires n <= |es| && LoadEntries(es[..n]).None?
    ensures LoadEntries(es).None?
    decreases |es|
  {
    if n < |es| {
      var init := es[..|es| - 1];
      assert init[..n] == es[..n];
      LoadPrefix(init, n);
    } else {
      assert es[..n] == es;
    }
  }

  /** `seen` has been read of a file whose entries are `all`; what is left is the text `t`. */
  ghost predicate Rest(all: Option<seq<Entry>>, seen: seq<Entry>, section: string, t: string, checked: bool) {
    var more := ReadAll(section, t, checked);
    all == if more.Some? then Some(seen + more.value) else None
  }

  lemma RestNext(all: Option<seq<Entry>>, seen: seq<Entry>, section: string, t: string, checked: bool)
    requires Rest(all, seen, section, t, checked)
    ensures match NextEntry(section, t, checked)
      case EndOfFile => all == Some(seen)
      case Failed => all == None
      case Got(e, rest) => Rest(all, seen + [e], e.section, rest, checked) && e.section != ""
    ensures all.Some? ==> |seen| <= |all.value| && all.value[..|seen|] == seen
  {
    hide NextEntry;
    SectionNamed(section, t, checked);
    assert seen + [] == seen;
    var r := NextEntry(section, t, checked);
    if r.Got? {
      var more := ReadAll(r.entry.section, r.rest, checked);
      if more.Some? { assert seen + ([r.entry] + more.value) == seen + [r.entry] + more.value; }
    }
  }

  /** The reader never hands out an entry outside a section. */
  lemma {:induction false} SectionNamed(section: string, t: string, checked: bool)
    ensures var r := NextEntry(section, t, checked); r.Got? ==> r.entry.section != ""
    decreases |t|
  {
    hide Retry, Json.Value, Json.SkipSpace;
    if t != "" {
      var line, rest := t[..LineEnd(t, 0)], AfterLine(t);
      SectionNamed(section, rest, checked);
      if |line| > 2 { SectionNamed(line[1..|line| - 1], rest, checked); }
    }
  }

  // ---------------------------------------------------------------------------------------------
  // Saving, then loading

  /** An entry that means nothing to the loader itself. */
  predicate Foreign(e: Entry) {
    && !(e.section == BACKREST && e.key in {KEY_FORMAT, KEY_VERSION, KEY_CHECKSUM})
    && !(e.section == CIPHER && e.key == KEY_CIPHER_PASS)
  }

  /** The entries that the loader hands to its callback. */
  function Delivered(es: seq<Entry>): seq<Entry> {
    if es == [] then []
    else
      var e := es[|es| - 1];
      Delivered(es[..|es| - 1]) + if e.section in {BACKREST, CIPHER} then [] else [e]
  }

  lemma {:induction false} LoadForeign(i: Info, es: seq<Entry>)
    requires forall e :: e in es ==> Foreign(e)
    ensures LoadFrom(i, es) == Some(i.(delivered := i.delivered + Delivered(es)))
  {
    if es == [] {
      assert i.delivered + [] == i.delivered;
    } else {
      var init, e := es[..|es| - 1], es[|es| - 1];
      assert e in es;
      LoadForeign(i, init);
      assert i.delivered + Delivered(init) + [e] == i.delivered + (Delivered(init) + [e]);
      assert Delivered(init) + [] == Delivered(init);
    }
  }

  lemma {:induction false} LoadConcat(i: Info, a: seq<Entry>, b: seq<Entry>)
    ensures LoadFrom(i, a + b) == if LoadFrom(i, a).Some? then LoadFrom(LoadFrom(i, a).value, b) else None
  {
    if b == [] {
      assert a + b == a;
    } else {
      assert (a + b)[..|a + b| - 1] == a + b[..|b| - 1];
      LoadConcat(i, a, b[..|b| - 1]);
    }
  }

  lemma LoadOne(i: Info, e: Entry)
    ensures LoadFrom(i, [e]) == LoadEntry(i, e)
  {
    assert [e][..0] == [];
    assert LoadFrom(i, [e][..0]) == Some(i);
  }

  lemma ReadQuoted(text: string)
    ensures StrOrNull(Json.Quote(text)) == Some(Some(text))
  {
    hide Json.ReadStr;
    Json.ReadWrite("", text);
    assert "" + Json.Quote(text) == Json.Quote(text);
    assert Json.Quote(text)[0] == '"';
  }

  lemma FormatRead()
    ensures Json.ReadNumber(FORMAT) == Some(5)
  {
    assert Json.Digits(FORMAT, 0) == 1;
    assert FORMAT[0..1] == FORMAT;
    assert Json.Decimal(FORMAT) == 5;
  }

  /** The file's own two entries set the version and pass the format test. */
  lemma LoadFormatVersion(i: Info)
    ensures LoadFrom(i, [Entry(BACKREST, KEY_FORMAT, FORMAT), Entry(BACKREST, KEY_VERSION, Json.Quote(VERSION))])
      == Some(i.(version := Some(VERSION)))
  {
    hide Json.Quote;
    var a, b := Entry(BACKREST, KEY_FORMAT, FORMAT), Entry(BACKREST, KEY_VERSION, Json.Quote(VERSION));
    ReadQuoted(VERSION);
    FormatRead();
    assert [a] + [b] == [a, b];
    LoadConcat(i, [a], [b]);
    LoadOne(i, a);
    LoadOne(i, b);
  }

  lemma LoadQuoted(i: Info, e: Entry, text: string)
    requires e.value == Json.Quote(text)
    ensures e.section == CIPHER && e.key == KEY_CIPHER_PASS ==> LoadFrom(i, [e]) == Some(i.(cipherPass := Some(text)))
    ensures IsChecksum(e) ==> LoadFrom(i, [e]) == Some(i.(checksum := Some(text)))
  {
    ReadQuoted(text);
    LoadOne(i, e);
  }

  /** Loading what was saved restores the settings and delivers the callbacks' entries. */
  lemma LoadSaved(cipherPass: Option<string>, first: seq<Entry>, cipher: seq<Entry>, rest: seq<Entry>, checksum: string)
    requires forall e :: e in first + cipher + rest ==> Foreign(e)
    ensures LoadEntries(AllEntries(cipherPass, first, cipher, rest)
      + [Entry(BACKREST, KEY_CHECKSUM, Json.Quote(checksum))])
      == Some(Info(Some(VERSION), cipherPass, Some(checksum),
                        Delivered(first) + (if cipherPass.Some? then Delivered(cipher) else []) + Delivered(rest)))
  {
    hide Json.Quote, LoadEntry, LoadFrom, Delivered;
    assert forall e :: e in first || e in cipher || e in rest ==> e in first + cipher + rest;
    var own := [Entry(BACKREST, KEY_FORMAT, FORMAT), Entry(BACKREST, KEY_VERSION, Json.Quote(VERSION))];
    var last := Entry(BACKREST, KEY_CHECKSUM, Json.Quote(checksum));
    var i0 := NoInfo;
    LoadForeign(i0, first);
    var i1 := i0.(delivered := [] + Delivered(first));
    LoadFormatVersion(i1);
    LoadConcat(i0, first, own);
    var i2 := i1.(version := Some(VERSION));
    var mid, i3 := [], i2;
    if cipherPass.Some? {
      var pass := Entry(CIPHER, KEY_CIPHER_PASS, Json.Quote(cipherPass.value));
      LoadForeign(i2, cipher);
      var i := i2.(delivered := i2.delivered + Delivered(cipher));
      LoadQuoted(i, pass, cipherPass.value);
      LoadConcat(i2, cipher, [pass]);
      mid, i3 := cipher + [pass], i.(cipherPass := cipherPass);
    } else {
      LoadNone(i2);
    }
    LoadConcat(i0, first + own, mid);
    LoadForeign(i3, rest);
    var i4 := i3.(delivered := i3.delivered + Delivered(rest));
    LoadConcat(i0, first + own + mid, rest);
    LoadQuoted(i4, last, checksum);
    LoadConcat(i0, first + own + mid + rest, [last]);
    assert AllEntries(cipherPass, first, cipher, rest) == first + own + mid + rest;
    assert [] + Delivered(first) == Delivered(first) && Delivered(first) + [] == Delivered(first);
  }

  lemma LoadNone(i: Info)
    ensures LoadFrom(i, []) == Some(i)
  {
  }

  // ---------------------------------------------------------------------------------------------
  // The two hashed streams

  /** The stream hashed while loading a saved file. */
  function LoadedStream(es: seq<Entry>, checksum: string): string {
    Stream(SavedHash(Hashed(es + [Entry(BACKREST, KEY_CHECKSUM, Json.Quote(checksum))])))
  }

  lemma HashedSaved(es: seq<Entry>, checksum: string)
    ensures LoadedStream(es, checksum) == Stream(SavedHash(Hashed(es)))
  {
    var last := Entry(BACKREST, KEY_CHECKSUM, Json.Quote(checksum));
    assert (es + [last])[..|es|] == es;
  }

  /** Bytes that the header of an entry costs after section `last`. */
  function HeaderCost(last: Section, section: string): nat {
    if last == Some(section) then 1 else (if last.Some? then 2 else 0) + |section| + 4
  }

  lemma EntryCost(last: Section, e: Entry)
    ensures |EntryHash(last, e)| == HeaderCost(last, e.section) + |Json.Quote(e.key)| + 1 + |e.value|
  {
    hide Json.Quote;
  }

  /** While the sections last hashed differ, the header that the loader still has to hash. */
  function Debt(saved: Section, loaded: Section): nat {
    if saved == loaded then 0 else HeaderCost(loaded, BACKREST)
  }

  lemma DebtStep(saved: Section, loaded: Section, section: string)
    requires saved != loaded ==> saved == Some(BACKREST)
    ensures HeaderCost(loaded, section) <= HeaderCost(saved, section) + Debt(saved, loaded)
    ensures Debt(Some(BACKREST), loaded) <= HeaderCost(saved, BACKREST) + Debt(saved, loaded)
  {
    assert |BACKREST| == 8;
  }

  /** Leaving entries out makes the stream shorter: what a later entry pays for a header again, the entry that
      was left out has already paid for. */
  lemma {:induction false} ShorterStream(es: seq<Entry>)
    ensures |Hashed(es)| == |es|
      || |SavedHash(Hashed(es))| + Debt(LastSection(es), LastSection(Hashed(es))) < |SavedHash(es)|
    ensures LastSection(es) != LastSection(Hashed(es)) ==> LastSection(es) == Some(BACKREST)
  {
    hide Json.Quote, EntryHash, SavedHash, HeaderCost;
    if es != [] {
      var init, e := es[..|es| - 1], es[|es| - 1];
      ShorterStream(init);
      assert es == init + [e];
      SavedSnoc(init, e);
      EntryCost(LastSection(init), e);
      DebtStep(LastSection(init), LastSection(Hashed(init)), e.section);
      if !IsChecksum(e) {
        assert Hashed(es) == Hashed(init) + [e];
        SavedSnoc(Hashed(init), e);
        EntryCost(LastSection(Hashed(init)), e);
        if |Hashed(init)| == |init| { assert Hashed(init) == init; }
      } else {
        assert Hashed(es) == Hashed(init);
        if |Hashed(init)| == |init| { assert Hashed(init) == init; }
      }
    }
  }

  /** The stream hashed while loading equals the stream hashed while saving exactly when no callback has saved
      a checksum entry of its own. */
  lemma StreamsEqualIff(es: seq<Entry>, checksum: string)
    ensures LoadedStream(es, checksum) == Stream(SavedHash(es)) <==> forall e :: e in es ==> !IsChecksum(e)
  {
    HashedSaved(es, checksum);
    ShorterStream(es);
    if |Hashed(es)| != |es| {
      assert |Stream(SavedHash(Hashed(es)))| < |Stream(SavedHash(es))|;
    }
  }

  /** What loading any saved file amounts to: an entry of the file that means something else to the loader than
      it should makes it fail, and otherwise the checksum test compares the hashes of the two streams. */
  lemma SavedFileOutcome(es: seq<Entry>, hash: string -> string, checked: bool)
    requires AllSaveable(es, checked)
    ensures var checksum := hash(Stream(SavedHash(es)));
      LoadFile(SavedText(es) + Trailer(checksum), hash, checked) ==
        if LoadEntries(es).None? then BadFormat
        else if hash(Stream(SavedHash(Hashed(es)))) == checksum then
          Loaded(LoadEntries(es).value.(checksum := Some(checksum)))
        else BadChecksum
  {
    hide Json.Quote, Saveable, SavedText, SavedHash, LoadFrom, ReadAll, Hashed, Trailer;
    var checksum := hash(Stream(SavedHash(es)));
    var last := Entry(BACKREST, KEY_CHECKSUM, Json.Quote(checksum));
    FileRead(es, checksum, checked);
    LoadConcat(NoInfo, es, [last]);
    if LoadEntries(es).Some? {
      LoadQuoted(LoadEntries(es).value, last, checksum);
    }
    HashedSaved(es, checksum);
  }

  /** A file whose checksum line has been exchanged loads if and only if the new checksum is the hash of what the file
      holds. */
  lemma ExchangedChecksum(es: seq<Entry>, checksum: string, hash: string -> string, checked: bool)
    requires AllSaveable(es, checked)
    ensures LoadFile(SavedText(es) + Trailer(checksum), hash, checked) ==
      if LoadEntries(es).None? then BadFormat
      else if checksum == hash(Stream(SavedHash(Hashed(es)))) then
        Loaded(LoadEntries(es).value.(checksum := Some(checksum)))
      else BadChecksum
  {
    hide Json.Quote, Saveable, SavedText, SavedHash, LoadFrom, ReadAll, Hashed, Trailer;
    var last := Entry(BACKREST, KEY_CHECKSUM, Json.Quote(checksum));
    FileRead(es, checksum, checked);
    LoadConcat(NoInfo, es, [last]);
    if LoadEntries(es).Some? {
      LoadQuoted(LoadEntries(es).value, last, checksum);
    }
    HashedSaved(es, checksum);
  }

  /** What each key of the file's own sections requires and sets; other keys of theirs are passed over, and entries of
      all other sections go to the callback in order. */
  lemma EntryCases(i: Info, key: string, value: string, section: string)
    ensures LoadEntry(i, Entry("backrest", "backrest-format", value))
         == if Json.ReadNumber(value) == Some(5) then Some(i) else None
    ensures Json.ReadStr(value).Some? ==>
      var t := Json.ReadStr(value);
      && LoadEntry(i, Entry("backrest", "backrest-version", value)) == Some(i.(version := t))
      && LoadEntry(i, Entry("backrest", "backrest-checksum", value)) == Some(i.(checksum := t))
      && LoadEntry(i, Entry("cipher", "cipher-pass", value)) == Some(i.(cipherPass := t))
    ensures Json.ReadStr(value).None? && Json.KindAfterComma(value, 0) != Some(Json.Null) ==>
      && LoadEntry(i, Entry("backrest", "backrest-version", value)) == None
      && LoadEntry(i, Entry("backrest", "backrest-checksum", value)) == None
      && LoadEntry(i, Entry("cipher", "cipher-pass", value)) == None
    ensures Json.KindAfterComma(value, 0) == Some(Json.Null) ==>
      && LoadEntry(i, Entry("backrest", "backrest-version", value)) == Some(i.(version := None))
      && LoadEntry(i, Entry("backrest", "backrest-checksum", value)) == Some(i.(checksum := None))
      && LoadEntry(i, Entry("cipher", "cipher-pass", value)) == Some(i.(cipherPass := None))
    ensures key !in {"backrest-format", "backrest-version", "backrest-checksum"} ==>
      LoadEntry(i, Entry("backrest", key, value)) == Some(i)
    ensures key != "cipher-pass" ==> LoadEntry(i, Entry("cipher", key, value)) == Some(i)
    ensures section !in {"backrest", "cipher"} ==>
      LoadEntry(i, Entry(section, key, value)) == Some(i.(delivered := i.delivered + [Entry(section, key, value)]))
  {
    hide Json.ReadStr, Json.ReadNumber, Json.KindAfterComma;
    StrNotNull(value);
  }

  lemma StrNotNull(value: string)
    ensures Json.ReadStr(value).Some? ==> Json.KindAfterComma(value, 0) == Some(Json.Str)
  {
  }

  /** A saved file passes its own checksum test, whatever the hash function, if no callback saved a checksum
      entry. */
  lemma SavedFilePasses(es: seq<Entry>, hash: string -> string, checked: bool)
    requires AllSaveable(es, checked) && forall e :: e in es ==> !IsChecksum(e)
    ensures LoadFile(SavedText(es) + Trailer(hash(Stream(SavedHash(es)))), hash, checked) != BadChecksum
  {
    hide LoadFile, Saveable, SavedText, SavedHash, Trailer;
    SavedFileOutcome(es, hash, checked);
    StreamsEqualIff(es, "");
    HashedSaved(es, "");
  }

  /** A file that has been saved loads: it passes its own checksum test, whatever the hash function, and gives
      back the version, the passphrase and exactly the entries that the callbacks saved. */
  lemma SavedFileLoads(cipherPass: Option<string>, first: seq<Entry>, cipher: seq<Entry>, rest: seq<Entry>,
                       hash: string -> string, checked: bool)
    requires forall e :: e in first + cipher + rest ==> Saveable(e, checked) && Foreign(e)
    ensures var es := AllEntries(cipherPass, first, cipher, rest);
      var checksum := hash(Stream(SavedHash(es)));
      LoadFile(SavedText(es) + Trailer(checksum), hash, checked)
        == Loaded(Info(Some(VERSION), cipherPass, Some(checksum),
                       Delivered(first) + (if cipherPass.Some? then Delivered(cipher) else []) + Delivered(rest)))
  {
    hide Json.Quote, Saveable, SavedText, SavedHash, LoadFrom, ReadAll, Delivered, Hashed, Trailer;
    var es := AllEntries(cipherPass, first, cipher, rest);
    var checksum := hash(Stream(SavedHash(es)));
    AllSaveableEntries(cipherPass, first, cipher, rest, checked);
    FileRead(es, checksum, checked);
    LoadSaved(cipherPass, first, cipher, rest, checksum);
    StreamsEqualIff(es, checksum);
  }

  lemma AllSaveableEntries(cipherPass: Option<string>, first: seq<Entry>, cipher: seq<Entry>, rest: seq<Entry>,
    checked: bool)
    requires forall e :: e in first + cipher + rest ==> Saveable(e, checked) && Foreign(e)
    ensures AllSaveable(AllEntries(cipherPass, first, cipher, rest), checked)
    ensures forall e :: e in AllEntries(cipherPass, first, cipher, rest) ==> !IsChecksum(e)
  {
    hide Saveable, Json.Quote;
    var es := AllEntries(cipherPass, first, cipher, rest);
    FormatSaveable(checked);
    PlainSaveable(BACKREST, KEY_VERSION, VERSION, checked);
    if cipherPass.Some? { PlainSaveable(CIPHER, KEY_CIPHER_PASS, cipherPass.value, checked); }
    forall e | e in es ensures Saveable(e, checked) && !IsChecksum(e) {
      assert e in first + cipher + rest || e == Entry(BACKREST, KEY_FORMAT, FORMAT)
        || e == Entry(BACKREST, KEY_VERSION, Json.Quote(VERSION))
        || (cipherPass.Some? && e == Entry(CIPHER, KEY_CIPHER_PASS, Json.Quote(cipherPass.value)));
    }
    forall i | 0 <= i < |es| ensures Saveable(es[i], checked) { assert es[i] in es; }
  }

  lemma FormatSaveable(checked: bool)
    ensures Saveable(Entry(BACKREST, KEY_FORMAT, FORMAT), checked)
  {
    hide Json.Valid, Separable;
    PlainKeySeparable(KEY_FORMAT, FORMAT, checked);
    FormatValid();
  }

  lemma FormatValid()
    ensures Json.Valid(FORMAT, true)
  {
    assert Json.Digits("5", 0) == 1;
    assert "5"[0..1] == "5";
    assert Json.Decimal("5") == 5;
  }
}
