/** Where an option's value comes from: command line, environment, then the sections of the configuration
    file, each source filling only what the ones before it left open. */
module OptionMerge {
  import opened Wrappers

  const LIST_INITIAL_SIZE: nat := 8

  /** One past the highest key index of a grouped option. */
  const CFG_OPTION_KEY_MAX: nat := 256

  /** What a name stands for; the lookup of names is not part of this model. */
  datatype Lookup = Unknown | Known(id: nat, keyIdx: nat, negate: bool, reset: bool, multi: bool)

  datatype Section = CommandLine | Global | Stanza

  datatype RuleOption = RuleOption(boolean: bool, boolLike: bool, secure: bool, group: bool, section: Section)

  /** An arbitrary table of option rules for one command. */
  datatype Rules = Rules(find: string -> Lookup, findPrefix: string -> Lookup, option: nat -> RuleOption,
    valid: nat -> bool, stanza: nat)

  ghost predicate KeyOk(rules: Rules, o: Lookup) {
    o.Known? ==> o.keyIdx < CFG_OPTION_KEY_MAX && (!rules.option(o.id).group ==> o.keyIdx == 0)
  }

  ghost predicate RulesOk(rules: Rules) {
    forall name :: KeyOk(rules, rules.find(name)) && KeyOk(rules, rules.findPrefix(name))
  }

  /** A parsed value. An absent value list is an empty one. */
  datatype Slot = Slot(found: bool, negate: bool, reset: bool, param: bool, values: seq<string>)

  const EMPTY := Slot(false, false, false, false, [])

  type Lists = map<nat, seq<Slot>>

  function SlotAt(list: Lists, id: nat, k: nat): Slot {
    if id in list && k < |list[id]| then list[id][k] else EMPTY
  }

  function Total(list: Lists, id: nat): nat {
    if id in list then |list[id]| else 0
  }

  // ---------------------------------------------------------------------------------------------
  // Command line

  /** One use of an option on the command line. */
  datatype Use = Use(id: nat, k: nat, negate: bool, reset: bool, multi: bool, arg: Option<string>)

  predicate Same(u: Use, id: nat, k: nat) {
    u.id == id && u.k == k
  }

  /** Neither negated nor reset. */
  predicate Plain(u: Use) {
    !u.negate && !u.reset
  }

  /** May a use follow an earlier one of the same option and key? */
  predicate MayFollow(first: Use, later: Use) {
    Plain(first) && Plain(later) && later.multi && later.arg.Some?
  }

  /** A later use never contradicts or repeats an earlier one. */
  ghost predicate UsesOk(us: seq<Use>) {
    forall i, j {:trigger us[i], us[j]} :: 0 <= i < j < |us| && Same(us[i], us[j].id, us[j].k) ==>
      MayFollow(us[i], us[j])
  }

  function Args(u: Use): seq<string> {
    if u.arg.Some? then [u.arg.value] else []
  }

  /** The arguments of all uses of one option and key, in order. */
  function ArgsOf(us: seq<Use>, id: nat, k: nat): seq<string> {
    if us == [] then []
    else
      var u := us[|us| - 1];
      ArgsOf(us[..|us| - 1], id, k) + (if Same(u, id, k) then Args(u) else [])
  }

  ghost predicate Used(us: seq<Use>, id: nat, k: nat) {
    exists i :: 0 <= i < |us| && Same(us[i], id, k)
  }

  /** The slot holds the flags of the first use and the arguments of all. */
  ghost predicate SlotOfUses(s: Slot, us: seq<Use>, id: nat, k: nat) {
    && (!Used(us, id, k) ==> s == EMPTY)
    && (Used(us, id, k) ==> s.found && s.param && s.values == ArgsOf(us, id, k))
    && (forall i :: 0 <= i < |us| && Same(us[i], id, k) ==> s.negate == us[i].negate && s.reset == us[i].reset)
  }

  lemma UsesOkPrefix(us: seq<Use>, more: seq<Use>)
    requires UsesOk(us + more)
    ensures UsesOk(us)
  {
    forall i, j | 0 <= i < j < |us| && Same(us[i], us[j].id, us[j].k) ensures MayFollow(us[i], us[j]) {
      assert (us + more)[i] == us[i] && (us + more)[j] == us[j];
    }
  }

  /** A slot built from the uses so far, taken one use further. */
  function NextSlot(s: Slot, u: Use): Slot {
    if s.found then s.(values := s.values + Args(u)) else Slot(true, u.negate, u.reset, true, Args(u))
  }

  lemma OneMoreUse(s: Slot, us: seq<Use>, u: Use, id: nat, k: nat)
    requires SlotOfUses(s, us, id, k)
    requires s.found && Same(u, id, k) ==> !s.negate && !s.reset && Plain(u)
    ensures SlotOfUses(if Same(u, id, k) then NextSlot(s, u) else s, us + [u], id, k)
  {
    var all := us + [u];
    assert all[..|us|] == us && all[|us|] == u;
    assert forall i :: 0 <= i < |us| ==> all[i] == us[i];
    if !Used(us, id, k) {
      ArgsOfUnused(us, id, k);
    } else {
      var i :| 0 <= i < |us| && Same(us[i], id, k);
      assert Same(all[i], id, k);
    }
    if Same(u, id, k) {
      assert Same(all[|us|], id, k);
    }
  }

  lemma {:induction false} ArgsOfUnused(us: seq<Use>, id: nat, k: nat)
    requires !Used(us, id, k)
    ensures ArgsOf(us, id, k) == []
  {
    if us != [] {
      assert !Same(us[|us| - 1], id, k);
      assert forall i :: 0 <= i < |us| - 1 ==> us[..|us| - 1][i] == us[i];
      ArgsOfUnused(us[..|us| - 1], id, k);
    }
  }

  /** What the second and later uses are checked for, read off the slot. */
  lemma NextUseOk(s: Slot, us: seq<Use>, u: Use)
    requires SlotOfUses(s, us, u.id, u.k) && UsesOk(us)
    ensures UsesOk(us + [u]) <==> (s.found ==> !s.negate && !s.reset && Plain(u) && u.multi && u.arg.Some?)
  {
    var all := us + [u];
    assert all[|us|] == u && forall i :: 0 <= i < |us| ==> all[i] == us[i];
    if s.found {
      var i :| 0 <= i < |us| && Same(us[i], u.id, u.k);
      if UsesOk(all) {
        assert MayFollow(all[i], all[|us|]);
      }
    }
    if s.found ==> !s.negate && !s.reset && Plain(u) && u.multi && u.arg.Some? {
      forall i, j | 0 <= i < j < |all| && Same(all[i], all[j].id, all[j].k) ensures MayFollow(all[i], all[j]) {
        if j < |us| {
          assert MayFollow(us[i], us[j]);
        } else {
          assert Same(us[i], u.id, u.k);
        }
      }
    }
  }

  /** Uses already taken, put in front of those still to come. */
  function Onto(us: seq<Use>, rest: Option<seq<Use>>): Option<seq<Use>> {
    match rest
    case None => None
    case Some(more) => Some(us + more)
  }

  lemma OntoNext(us: seq<Use>, u: Use, rest: Option<seq<Use>>)
    ensures Onto(us, Onto([u], rest)) == Onto(us + [u], rest)
  {
    if rest.Some? {
      assert us + ([u] + rest.value) == us + [u] + rest.value;
    }
  }

  lemma UsesFail(us: seq<Use>, rest: Option<seq<Use>>)
    requires !UsesOk(us)
    ensures !(Onto(us, rest).Some? && UsesOk(Onto(us, rest).value))
  {
    if rest.Some? && UsesOk(us + rest.value) {
      UsesOkPrefix(us, rest.value);
    }
  }

  /** Splitting a text at its first '='. */
  function FindChar(s: string, c: char): (i: nat)
    ensures i <= |s| && (i < |s| ==> s[i] == c) && forall j :: 0 <= j < i ==> s[j] != c
  {
    if s == [] || s[0] == c then 0 else 1 + FindChar(s[1..], c)
  }

  /** One option argument, after its two dashes, as it is resolved: `next` is the argument behind it. */
  datatype Resolved = Bad | Fine(use: Use, tookNext: bool)

  function Resolve(rules: Rules, text: string, next: Option<string>): Resolved {
    var eq := FindChar(text, '=');
    var arg := if eq < |text| then Some(text[eq + 1..]) else None;
    var o := rules.findPrefix(text[..eq]);
    if o.Unknown? then Bad
    else
      var rule := rules.option(o.id);
      if o.negate || o.reset then
        if arg.Some? then Bad
        else if rule.secure then Bad
        else if o.negate && rule.boolLike then Fine(Use(o.id, o.keyIdx, false, o.reset, o.multi, Some("n")), false)
        else Fine(Use(o.id, o.keyIdx, o.negate, o.reset, o.multi, None), false)
      else if rule.boolean then
        if arg.Some? && arg.value != "n" && arg.value != "y" then Bad
        else if rule.secure then Bad
        else if arg == Some("n") && rule.boolLike then
          Fine(Use(o.id, o.keyIdx, false, false, o.multi, Some("n")), false)
        else Fine(Use(o.id, o.keyIdx, arg == Some("n"), false, o.multi, arg), false)
      else if arg.None? then
        if rule.boolLike then
          if rule.secure then Bad else Fine(Use(o.id, o.keyIdx, false, false, o.multi, Some("y")), false)
        else if next.None? || rule.secure then Bad
        else Fine(Use(o.id, o.keyIdx, false, false, o.multi, next), true)
      else if rule.secure then Bad
      else Fine(Use(o.id, o.keyIdx, false, false, o.multi, arg), false)
  }

  lemma ResolvedKey(rules: Rules, text: string, next: Option<string>)
    requires RulesOk(rules) && Resolve(rules, text, next).Fine?
    ensures var u := Resolve(rules, text, next).use; rules.option(u.id).group || u.k == 0
  {
    assert KeyOk(rules, rules.findPrefix(text[..FindChar(text, '=')]));
  }

  predicate IsOption(arg: string) {
    arg != "" && arg[0] == '-'
  }

  /** All uses on a command line and the words between them, or nothing when an argument is refused. */
  function Uses(rules: Rules, args: seq<string>): Option<seq<Use>> {
    if args == [] then Some([])
    else if !IsOption(args[0]) then Uses(rules, args[1..])
    else if |args[0]| < 2 || args[0][1] != '-' then None
    else
      match Resolve(rules, args[0][2..], if |args| > 1 then Some(args[1]) else None)
      case Bad => None
      case Fine(use, tookNext) =>
        Onto([use], Uses(rules, if tookNext && |args| > 1 then args[2..] else args[1..]))
  }

  lemma WholeLine(rules: Rules, args: seq<string>, us: seq<Use>)
    requires us == []
    ensures Uses(rules, args) == Onto(us, Uses(rules, args[0..]))
  {
    assert args[0..] == args;
    if Uses(rules, args).Some? {
      assert us + Uses(rules, args).value == Uses(rules, args).value;
    }
  }

  // ---------------------------------------------------------------------------------------------
  // Offers of the environment and the configuration file

  /** What a source offers for one option and key, after everything not eligible was dropped. */
  datatype Offer = Offer(id: nat, k: nat, multi: bool, env: bool, isList: bool, values: seq<string>)

  function Split(s: string, c: char): (r: seq<string>)
    ensures |r| > 0
    decreases |s|
  {
    var i := FindChar(s, c);
    if i == |s| then [s] else [s[..i]] + Split(s[i + 1..], c)
  }

  /** The value taken from an offer, or nothing when the offer is in error. */
  function Convert(rules: Rules, o: Offer): Option<Slot> {
    if o.isList then
      if o.multi then Some(Slot(true, false, false, false, o.values)) else None
    else
      var value := if o.values == [] then "" else o.values[0];
      if value == "" then None
      else if rules.option(o.id).boolean then
        if value == "n" then Some(Slot(true, true, false, false, []))
        else if value == "y" then Some(Slot(true, false, false, false, []))
        else None
      else if o.env && o.multi then Some(Slot(true, false, false, false, Split(value, ':')))
      else Some(Slot(true, false, false, false, [value]))
  }

  predicate Matches(o: Offer, id: nat, k: nat) {
    o.id == id && o.k == k
  }

  /** No earlier source has a value for what offer `j` is about. */
  ghost predicate Effective(us: seq<Use>, os: seq<Offer>, j: nat) {
    j < |os| && !Used(us, os[j].id, os[j].k) && forall i :: 0 <= i < j ==> !Matches(os[i], os[j].id, os[j].k)
  }

  /** The value of an option and key: the command line's if it has one, else that of the first offer. */
  ghost predicate FirstWins(rules: Rules, us: seq<Use>, os: seq<Offer>, s: Slot, id: nat, k: nat) {
    && (Used(us, id, k) ==> SlotOfUses(s, us, id, k))
    && (!Used(us, id, k) && (forall j :: 0 <= j < |os| ==> !Matches(os[j], id, k)) ==> s == EMPTY)
    && (forall j: nat {:trigger os[j]} :: Effective(us, os, j) && Matches(os[j], id, k) ==>
      Convert(rules, os[j]) == Some(s))
  }

  /** Every offer that has an effect is without error. */
  ghost predicate OffersOk(rules: Rules, us: seq<Use>, os: seq<Offer>) {
    forall j: nat {:trigger os[j]} :: Effective(us, os, j) ==> Convert(rules, os[j]).Some?
  }

  lemma OffersOkPrefix(rules: Rules, us: seq<Use>, os: seq<Offer>, more: seq<Offer>)
    requires OffersOk(rules, us, os + more)
    ensures OffersOk(rules, us, os)
  {
    forall j: nat | Effective(us, os, j) ensures Convert(rules, os[j]).Some? {
      assert (os + more)[j] == os[j];
      assert forall i :: 0 <= i < j ==> (os + more)[i] == os[i];
      assert Effective(us, os + more, j);
    }
  }

  lemma OffersFail(rules: Rules, us: seq<Use>, os: seq<Offer>, some: seq<Offer>, more: seq<Offer>)
    requires !OffersOk(rules, us, os + some)
    ensures !OffersOk(rules, us, os + (some + more))
  {
    hide Effective, Convert;
    assert os + (some + more) == os + some + more;
    if OffersOk(rules, us, os + some + more) {
      OffersOkPrefix(rules, us, os + some, more);
    }
  }

  /** The offer at hand has an effect exactly when the slot is still open. */
  lemma NextEffective(rules: Rules, us: seq<Use>, os: seq<Offer>, s: Slot, o: Offer)
    requires FirstWins(rules, us, os, s, o.id, o.k) && OffersOk(rules, us, os)
    ensures s.found <==> !Effective(us, os + [o], |os|)
  {
    var all := os + [o];
    assert all[|os|] == o && forall i :: 0 <= i < |os| ==> all[i] == os[i];
    if !Used(us, o.id, o.k) && exists i :: 0 <= i < |os| && Matches(os[i], o.id, o.k) {
      var i := FirstMatch(os, o.id, o.k);
      assert Effective(us, os, i);
    }
  }

  lemma FirstMatch(os: seq<Offer>, id: nat, k: nat) returns (i: nat)
    requires exists j :: 0 <= j < |os| && Matches(os[j], id, k)
    ensures i < |os| && Matches(os[i], id, k) && forall j :: 0 <= j < i ==> !Matches(os[j], id, k)
  {
    i := 0;
    while !Matches(os[i], id, k)
      invariant i < |os| && forall j :: 0 <= j < i ==> !Matches(os[j], id, k)
      decreases |os| - i
    {
      i := i + 1;
    }
  }

  lemma EffectivePrefix(us: seq<Use>, os: seq<Offer>, o: Offer, j: nat)
    requires j < |os|
    ensures Effective(us, os + [o], j) <==> Effective(us, os, j)
  {
    assert (os + [o])[j] == os[j] && forall i :: 0 <= i < j ==> (os + [o])[i] == os[i];
  }

  /** One more offer: it fills the open slot, and a filled slot ignores it. */
  lemma OneMoreOffer(rules: Rules, us: seq<Use>, os: seq<Offer>, o: Offer, s: Slot, t: Slot, id: nat, k: nat)
    requires FirstWins(rules, us, os, s, id, k) && OffersOk(rules, us, os)
    requires if Matches(o, id, k) && !s.found then Convert(rules, o) == Some(t) else t == s
    ensures FirstWins(rules, us, os + [o], t, id, k)
  {
    var all := os + [o];
    forall j: nat | Effective(us, all, j) && Matches(all[j], id, k) ensures Convert(rules, all[j]) == Some(t) {
      if j < |os| {
        EffectivePrefix(us, os, o, j);
        assert all[j] == os[j];
        assert s.found;
      } else {
        NextEffective(rules, us, os, s, o);
      }
    }
    if !Used(us, id, k) && forall j :: 0 <= j < |all| ==> !Matches(all[j], id, k) {
      forall j | 0 <= j < |os| ensures !Matches(os[j], id, k) { assert all[j] == os[j]; }
      assert all[|os|] == o;
    }
  }

  lemma OneMoreOk(rules: Rules, us: seq<Use>, os: seq<Offer>, o: Offer)
    requires OffersOk(rules, us, os)
    requires Effective(us, os + [o], |os|) ==> Convert(rules, o).Some?
    ensures OffersOk(rules, us, os + [o])
  {
    var all := os + [o];
    forall j: nat | Effective(us, all, j) ensures Convert(rules, all[j]).Some? {
      if j < |os| {
        EffectivePrefix(us, os, o, j);
        assert all[j] == os[j];
      }
    }
  }

  // ---------------------------------------------------------------------------------------------
  // The environment

  /** An environment variable of the program, its name already turned into an option name. */
  datatype EnvVar = EnvVar(name: string, value: string)

  predicate EnvEligible(rules: Rules, e: EnvVar) {
    var o := rules.find(e.name);
    o.Known? && !o.negate && !o.reset && rules.valid(o.id)
  }

  function EnvOffer(rules: Rules, e: EnvVar): Offer
    requires EnvEligible(rules, e)
  {
    var o := rules.find(e.name);
    Offer(o.id, o.keyIdx, o.multi, true, false, [e.value])
  }

  function EnvOffers(rules: Rules, env: seq<EnvVar>): seq<Offer> {
    if env == [] then []
    else
      var e := env[|env| - 1];
      EnvOffers(rules, env[..|env| - 1]) + (if EnvEligible(rules, e) then [EnvOffer(rules, e)] else [])
  }

  ghost predicate EnvOk(rules: Rules, env: seq<EnvVar>) {
    forall i :: 0 <= i < |env| && EnvEligible(rules, env[i]) ==> env[i].value != ""
  }

  lemma {:induction false} EnvOffersPrefix(rules: Rules, env: seq<EnvVar>, n: nat) returns (more: seq<Offer>)
    requires n <= |env|
    ensures EnvOffers(rules, env) == EnvOffers(rules, env[..n]) + more
  {
    if n == |env| {
      assert env[..n] == env;
      more := [];
    } else {
      more := EnvOffersPrefix(rules, env[..|env| - 1], n);
      assert env[..|env| - 1][..n] == env[..n];
      var e := env[|env| - 1];
      more := more + (if EnvEligible(rules, e) then [EnvOffer(rules, e)] else []);
    }
  }

  // ---------------------------------------------------------------------------------------------
  // The configuration file

  /** A key of a section; a key given more than once is a list. */
  datatype IniKey = IniKey(key: string, isList: bool, values: seq<string>)

  type Ini = map<string, seq<IniKey>>

  const GLOBAL := "global"

  predicate IsGlobal(section: string) {
    section == GLOBAL || GLOBAL + ":" <= section
  }

  /** Keys that take part in the check for alternate names. */
  predicate Counted(rules: Rules, e: IniKey) {
    var o := rules.find(e.key);
    o.Known? && !o.negate && !o.reset && rules.option(o.id).section != CommandLine
  }

  predicate FileEligible(rules: Rules, section: string, e: IniKey) {
    Counted(rules, e) && rules.valid(rules.find(e.key).id)
    && !(rules.option(rules.find(e.key).id).section == Stanza && IsGlobal(section))
  }

  function FileOffer(rules: Rules, e: IniKey): Offer
    requires Counted(rules, e)
  {
    var o := rules.find(e.key);
    Offer(o.id, o.keyIdx, o.multi, false, e.isList, e.values)
  }

  function SectionOffers(rules: Rules, section: string, keys: seq<IniKey>): seq<Offer> {
    if keys == [] then []
    else
      var e := keys[|keys| - 1];
      SectionOffers(rules, section, keys[..|keys| - 1])
        + (if FileEligible(rules, section, e) then [FileOffer(rules, e)] else [])
  }

  /** Two names for one option and key. */
  ghost predicate Alternates(rules: Rules, keys: seq<IniKey>, i: nat, j: nat) {
    i < j < |keys| && Counted(rules, keys[i]) && Counted(rules, keys[j])
    && rules.find(keys[i].key).id == rules.find(keys[j].key).id
    && rules.find(keys[i].key).keyIdx == rules.find(keys[j].key).keyIdx
  }

  ghost predicate NoAlternates(rules: Rules, keys: seq<IniKey>) {
    forall i: nat, j: nat {:trigger Alternates(rules, keys, i, j)} :: !Alternates(rules, keys, i, j)
  }

  function KeysOf(ini: Ini, section: string): seq<IniKey> {
    if section in ini then ini[section] else []
  }

  function FileOffers(rules: Rules, ini: Ini, sections: seq<string>): seq<Offer> {
    if sections == [] then []
    else
      var last := sections[|sections| - 1];
      FileOffers(rules, ini, sections[..|sections| - 1]) + SectionOffers(rules, last, KeysOf(ini, last))
  }

  lemma {:induction false} SectionOffersPrefix(rules: Rules, section: string, keys: seq<IniKey>, n: nat)
    returns (more: seq<Offer>)
    requires n <= |keys|
    ensures SectionOffers(rules, section, keys) == SectionOffers(rules, section, keys[..n]) + more
  {
    if n == |keys| {
      assert keys[..n] == keys;
      more := [];
    } else {
      more := SectionOffersPrefix(rules, section, keys[..|keys| - 1], n);
      assert keys[..|keys| - 1][..n] == keys[..n];
      var e := keys[|keys| - 1];
      more := more + (if FileEligible(rules, section, e) then [FileOffer(rules, e)] else []);
    }
  }

  lemma SectionOffersNext(rules: Rules, section: string, keys: seq<IniKey>, i: nat)
    requires i < |keys|
    ensures SectionOffers(rules, section, keys[..i + 1])
         == SectionOffers(rules, section, keys[..i])
            + (if FileEligible(rules, section, keys[i]) then [FileOffer(rules, keys[i])] else [])
  {
    hide FileEligible, FileOffer;
    assert keys[..i + 1][..i] == keys[..i];
  }

  lemma NoOffers(rules: Rules, section: string, keys: seq<IniKey>, ini: Ini, sections: seq<string>)
    ensures SectionOffers(rules, section, keys[..0]) == [] && FileOffers(rules, ini, sections[..0]) == []
  {
  }

  lemma FileOffersNext(rules: Rules, ini: Ini, sections: seq<string>, i: nat)
    requires i < |sections|
    ensures FileOffers(rules, ini, sections[..i + 1])
         == FileOffers(rules, ini, sections[..i]) + SectionOffers(rules, sections[i], KeysOf(ini, sections[i]))
  {
    hide SectionOffers, KeysOf;
    assert sections[..i + 1][..i] == sections[..i];
  }

  lemma {:induction false} FileOffersPrefix(rules: Rules, ini: Ini, sections: seq<string>, n: nat)
    returns (more: seq<Offer>)
    requires n <= |sections|
    ensures FileOffers(rules, ini, sections) == FileOffers(rules, ini, sections[..n]) + more
  {
    hide FileOffers, SectionOffers, KeysOf;
    if n == |sections| {
      assert sections[..n] == sections;
      more := [];
    } else {
      var front, last := sections[..|sections| - 1], sections[|sections| - 1];
      more := FileOffersPrefix(rules, ini, front, n);
      assert front[..n] == sections[..n] && sections[..|sections|] == sections;
      FileOffersNext(rules, ini, sections, |sections| - 1);
      more := more + SectionOffers(rules, last, KeysOf(ini, last));
    }
  }

  /** The sections searched, most specific first. */
  function SectionNames(stanza: Option<string>, command: string): seq<string> {
    (if stanza.Some? then [stanza.value + ":" + command, stanza.value] else []) + [GLOBAL + ":" + command, GLOBAL]
  }

  /** The keys seen so far in a section, as the numbers they are remembered by. */
  ghost predicate SeenOk(rules: Rules, keys: seq<IniKey>, n: nat, seen: set<nat>) {
    n <= |keys| && seen == set i | 0 <= i < n && Counted(rules, keys[i]) :: KeyNumber(rules, keys[i])
  }

  function KeyNumber(rules: Rules, e: IniKey): nat
    requires Counted(rules, e)
  {
    rules.find(e.key).id * CFG_OPTION_KEY_MAX + rules.find(e.key).keyIdx
  }

  lemma KeyNumberExact(rules: Rules, d: IniKey, e: IniKey)
    requires RulesOk(rules) && Counted(rules, d) && Counted(rules, e) && KeyNumber(rules, d) == KeyNumber(rules, e)
    ensures rules.find(d.key).id == rules.find(e.key).id && rules.find(d.key).keyIdx == rules.find(e.key).keyIdx
  {
    assert KeyOk(rules, rules.find(d.key)) && KeyOk(rules, rules.find(e.key));
    Digits(rules.find(d.key).id, rules.find(d.key).keyIdx);
    Digits(rules.find(e.key).id, rules.find(e.key).keyIdx);
  }

  lemma Digits(id: nat, k: nat)
    requires k < CFG_OPTION_KEY_MAX
    ensures (id * CFG_OPTION_KEY_MAX + k) / CFG_OPTION_KEY_MAX == id
    ensures (id * CFG_OPTION_KEY_MAX + k) % CFG_OPTION_KEY_MAX == k
  {
  }

  lemma SeenNone(rules: Rules, keys: seq<IniKey>)
    ensures SeenOk(rules, keys, 0, {}) && NoAlternates(rules, keys[..0])
  {
  }

  /** A remembered number means an alternate name, and only that does. */
  lemma SeenMeans(rules: Rules, keys: seq<IniKey>, n: nat, seen: set<nat>)
    requires RulesOk(rules) && SeenOk(rules, keys, n, seen) && n < |keys| && NoAlternates(rules, keys[..n])
    ensures Counted(rules, keys[n]) && KeyNumber(rules, keys[n]) in seen ==> !NoAlternates(rules, keys)
    ensures !Counted(rules, keys[n]) || KeyNumber(rules, keys[n]) !in seen ==> NoAlternates(rules, keys[..n + 1])
    ensures SeenOk(rules, keys, n + 1, if Counted(rules, keys[n]) then seen + {KeyNumber(rules, keys[n])} else seen)
  {
    if Counted(rules, keys[n]) && KeyNumber(rules, keys[n]) in seen {
      var i :| 0 <= i < n && Counted(rules, keys[i]) && KeyNumber(rules, keys[i]) == KeyNumber(rules, keys[n]);
      KeyNumberExact(rules, keys[i], keys[n]);
      assert Alternates(rules, keys, i, n);
    }
    var upto := keys[..n + 1];
    forall i: nat, j: nat | j < n ensures !Alternates(rules, upto, i, j) {
      assert Alternates(rules, keys[..n], i, j) <==> Alternates(rules, upto, i, j);
    }
    forall i: nat, j: nat | Alternates(rules, upto, i, j) ensures KeyNumber(rules, keys[n]) in seen {
      assert j == n && KeyNumber(rules, keys[i]) in seen;
    }
  }

  /** The slot the uses of one option and key make. */
  ghost function CmdSlot(us: seq<Use>, id: nat, k: nat): Slot {
    if us == [] then EMPTY
    else
      var u := us[|us| - 1];
      var s := CmdSlot(us[..|us| - 1], id, k);
      if Same(u, id, k) then NextSlot(s, u) else s
  }

  lemma {:induction false} CmdSlotIs(us: seq<Use>, id: nat, k: nat, s: Slot)
    requires UsesOk(us) && SlotOfUses(s, us, id, k)
    ensures s == CmdSlot(us, id, k)
  {
    CmdSlotOfUses(us, id, k);
    if Used(us, id, k) {
      var i :| 0 <= i < |us| && Same(us[i], id, k);
    }
  }

  lemma {:induction false} CmdSlotOfUses(us: seq<Use>, id: nat, k: nat)
    requires UsesOk(us)
    ensures SlotOfUses(CmdSlot(us, id, k), us, id, k)
  {
    if us != [] {
      var front, u := us[..|us| - 1], us[|us| - 1];
      assert us == front + [u];
      UsesOkPrefix(front, [u]);
      CmdSlotOfUses(front, id, k);
      if Same(u, id, k) {
        NextUseOk(CmdSlot(front, id, k), front, u);
      }
      OneMoreUse(CmdSlot(front, id, k), front, u, id, k);
    }
  }

  /** The value of one option and key, looked up from the sources. */
  ghost function Winner(rules: Rules, us: seq<Use>, os: seq<Offer>, id: nat, k: nat): Slot {
    if Used(us, id, k) then CmdSlot(us, id, k)
    else if os == [] then EMPTY
    else if Matches(os[0], id, k) then (match Convert(rules, os[0]) case None => EMPTY case Some(s) => s)
    else Winner(rules, us, os[1..], id, k)
  }

  lemma {:induction false} WinnerIs(rules: Rules, us: seq<Use>, os: seq<Offer>, s: Slot, id: nat, k: nat)
    requires UsesOk(us) && FirstWins(rules, us, os, s, id, k)
    ensures s == Winner(rules, us, os, id, k)
  {
    if Used(us, id, k) {
      CmdSlotIs(us, id, k, s);
    } else if exists j :: 0 <= j < |os| && Matches(os[j], id, k) {
      var i := FirstMatch(os, id, k);
      assert Effective(us, os, i);
      WinnerAt(rules, us, os, i, id, k);
    } else {
      WinnerNone(rules, us, os, id, k);
    }
  }

  lemma {:induction false} WinnerAt(rules: Rules, us: seq<Use>, os: seq<Offer>, i: nat, id: nat, k: nat)
    requires !Used(us, id, k) && i < |os| && Matches(os[i], id, k) && forall j :: 0 <= j < i ==> !Matches(os[j], id, k)
    ensures Convert(rules, os[i]).Some? ==> Winner(rules, us, os, id, k) == Convert(rules, os[i]).value
  {
    if i > 0 {
      WinnerAt(rules, us, os[1..], i - 1, id, k);
    }
  }

  lemma {:induction false} WinnerNone(rules: Rules, us: seq<Use>, os: seq<Offer>, id: nat, k: nat)
    requires !Used(us, id, k) && forall j :: 0 <= j < |os| ==> !Matches(os[j], id, k)
    ensures Winner(rules, us, os, id, k) == EMPTY
  {
    if os != [] {
      WinnerNone(rules, us, os[1..], id, k);
    }
  }

  function First(values: seq<string>): Option<string> {
    if values == [] then None else Some(values[0])
  }

  /** The stanza, as far as command line and environment name one. */
  ghost function StanzaName(rules: Rules, us: seq<Use>, os: seq<Offer>): Option<string> {
    First(Winner(rules, us, os, rules.stanza, 0).values)
  }

  /** The sections of the file are searched for the first stanza given on the command line; when it gives none, for
      that of the first offer of one; and only if there is neither, for no stanza. */
  lemma StanzaNamed(rules: Rules, us: seq<Use>, os: seq<Offer>, j: nat)
    requires UsesOk(us)
    ensures Used(us, rules.stanza, 0) ==> StanzaName(rules, us, os) == First(ArgsOf(us, rules.stanza, 0))
    ensures Effective(us, os, j) && Matches(os[j], rules.stanza, 0) && Convert(rules, os[j]).Some? ==>
              StanzaName(rules, us, os) == First(Convert(rules, os[j]).value.values)
    ensures !Used(us, rules.stanza, 0) && (forall i :: 0 <= i < |os| ==> !Matches(os[i], rules.stanza, 0)) ==>
              StanzaName(rules, us, os) == None
  {
    if Used(us, rules.stanza, 0) {
      CmdSlotOfUses(us, rules.stanza, 0);
    } else if Effective(us, os, j) && Matches(os[j], rules.stanza, 0) {
      WinnerAt(rules, us, os, j, rules.stanza, 0);
    } else if forall i :: 0 <= i < |os| ==> !Matches(os[i], rules.stanza, 0) {
      WinnerNone(rules, us, os, rules.stanza, 0);
    }
  }

  ghost predicate FileOk(rules: Rules, ini: Ini, sections: seq<string>) {
    forall i :: 0 <= i < |sections| ==> NoAlternates(rules, KeysOf(ini, sections[i]))
  }

  ghost function FirstOffers(rules: Rules, env: seq<EnvVar>, load: bool): seq<Offer> {
    if load then EnvOffers(rules, env) else []
  }

  ghost function AllOffers(rules: Rules, us: seq<Use>, env: seq<EnvVar>, ini: Option<Ini>, load: bool,
    command: string): seq<Offer> {
    var os := FirstOffers(rules, env, load);
    if ini.None? then os
    else os + FileOffers(rules, ini.value, SectionNames(StanzaName(rules, us, os), command))
  }

  /** What every source must meet for the merge to succeed. */
  ghost predicate Accepts(rules: Rules, args: seq<string>, env: seq<EnvVar>, ini: Option<Ini>, load: bool,
    command: string) {
    && Uses(rules, args).Some?
    && var us := Uses(rules, args).value;
      var os := FirstOffers(rules, env, load);
    && UsesOk(us) && (load ==> EnvOk(rules, env))
    && (ini.Some? ==> FileOk(rules, ini.value, SectionNames(StanzaName(rules, us, os), command)))
    && OffersOk(rules, us, AllOffers(rules, us, env, ini, load, command))
  }

  /** A failed environment cannot be made good by the file. */
  lemma EnvFails(rules: Rules, us: seq<Use>, args: seq<string>, env: seq<EnvVar>, ini: Option<Ini>, command: string)
    requires Uses(rules, args) == Some(us) && !(EnvOk(rules, env) && OffersOk(rules, us, EnvOffers(rules, env)))
    ensures !Accepts(rules, args, env, ini, true, command)
  {
    if Accepts(rules, args, env, ini, true, command) && ini.Some? {
      var os := EnvOffers(rules, env);
      OffersOkPrefix(rules, us, os, FileOffers(rules, ini.value, SectionNames(StanzaName(rules, us, os), command)));
    }
  }

  // ---------------------------------------------------------------------------------------------
  // The parser

  class Parser {
    const rules: Rules
    var list: Lists
    ghost var uses: seq<Use>
    ghost var offers: seq<Offer>

    ghost predicate Merged()
      reads this
    {
      && (forall id: nat, k: nat {:trigger SlotAt(list, id, k)} ::
        FirstWins(rules, uses, offers, SlotAt(list, id, k), id, k))
      && OffersOk(rules, uses, offers)
    }

    ghost predicate Collected()
      reads this
    {
      && (forall id: nat, k: nat {:trigger SlotAt(list, id, k)} :: SlotOfUses(SlotAt(list, id, k), uses, id, k))
      && UsesOk(uses)
    }

    constructor (rules: Rules)
      ensures this.rules == rules && list == map[] && uses == [] && offers == []
    {
      this.rules := rules;
      list, uses, offers := map[], [], [];
    }

    /** Makes room for a key index. Nothing that was stored is lost, and new entries are not found. */
    method IdxValue(id: nat, k: nat)
      requires !rules.option(id).group ==> k == 0
      modifies this`list
      ensures k < Total(list, id)
      ensures forall i: nat, j: nat {:trigger SlotAt(list, i, j)} :: SlotAt(list, i, j) == SlotAt(old(list), i, j)
      ensures forall i :: i != id ==> Total(list, i) == Total(old(list), i)
      ensures var was := Total(old(list), id);
        Total(list, id) == if k < was then was
                           else if rules.option(id).group && was == 0 && k < 4 then 4
                           else k + 1
    {
      if k >= Total(list, id) {
        var total := k + 1;
        var indexList := if id in list then list[id] else [];
        if rules.option(id).group && indexList == [] && k < LIST_INITIAL_SIZE / 2 {
          total := LIST_INITIAL_SIZE / 2;
        }
        while |indexList| < total
          invariant Total(old(list), id) <= |indexList| <= total
          invariant forall j :: 0 <= j < |indexList| ==> indexList[j] == SlotAt(old(list), id, j)
          decreases total - |indexList|
        {
          indexList := indexList + [EMPTY];
        }
        list := list[id := indexList];
      }
    }

    method Store(id: nat, k: nat, s: Slot)
      requires k < Total(list, id)
      modifies this`list
      ensures forall i: nat, j: nat {:trigger SlotAt(list, i, j)} ::
                SlotAt(list, i, j) == if i == id && j == k then s else SlotAt(old(list), i, j)
    {
      list := list[id := list[id][k := s]];
    }

    /** Takes one offer of the environment or the file: only an open slot is filled. */
    method Take(o: Offer) returns (ok: bool)
      requires Merged() && (!rules.option(o.id).group ==> o.k == 0)
      modifies this`list, this`offers
      ensures offers == old(offers) + [o]
      ensures ok ==> Merged()
      ensures !ok ==> !OffersOk(rules, uses, offers)
    {
      IdxValue(o.id, o.k);
      var s := SlotAt(list, o.id, o.k);
      NextEffective(rules, uses, offers, s, o);
      ghost var was := list;
      offers := offers + [o];
      ok := true;
      if !s.found {
        var c := Convert(rules, o);
        if c.None? {
          ok := false;
          assert offers[|old(offers)|] == o;
          return;
        }
        Store(o.id, o.k, c.value);
      }
      forall id: nat, k: nat ensures FirstWins(rules, uses, offers, SlotAt(list, id, k), id, k) {
        OneMoreOffer(rules, uses, old(offers), o, SlotAt(was, id, k), SlotAt(list, id, k), id, k);
      }
      OneMoreOk(rules, uses, old(offers), o);
    }

    /** Takes one use of the command line. */
    method TakeUse(u: Use) returns (ok: bool)
      requires Collected() && (!rules.option(u.id).group ==> u.k == 0)
      modifies this`list, this`uses
      ensures uses == old(uses) + [u]
      ensures ok <==> UsesOk(uses)
      ensures ok ==> Collected()
    {
      IdxValue(u.id, u.k);
      ghost var was := list;
      var s := SlotAt(list, u.id, u.k);
      NextUseOk(s, uses, u);
      uses := uses + [u];
      if s.found && (s.negate || s.reset || u.negate || u.reset || !u.multi || u.arg.None?) {
        return false;
      }
      Store(u.id, u.k, NextSlot(s, u));
      forall id: nat, k: nat ensures SlotOfUses(SlotAt(list, id, k), uses, id, k) {
        OneMoreUse(SlotAt(was, id, k), old(uses), u, id, k);
      }
      ok := true;
    }

    /** The command line: succeeds exactly when every argument resolves and no use contradicts an earlier one. */
    method CommandLine(args: seq<string>) returns (ok: bool)
      requires RulesOk(rules) && Collected() && uses == []
      modifies this`list, this`uses
      ensures ok <==> Uses(rules, args).Some? && UsesOk(Uses(rules, args).value)
      ensures ok ==> Collected() && Uses(rules, args) == Some(uses)
    {
      var i := 0;
      WholeLine(rules, args, uses);
      while i < |args|
        invariant i <= |args| && Collected()
        invariant Uses(rules, args) == Onto(uses, Uses(rules, args[i..]))
      {
        var arg := args[i];
        assert args[i..][1..] == args[i + 1..];
        if IsOption(arg) {
          if |arg| < 2 || arg[1] != '-' {
            return false;
          }
          var next := if i + 1 < |args| then Some(args[i + 1]) else None;
          var res := Resolve(rules, arg[2..], next);
          if res.Bad? {
            return false;
          }
          if res.tookNext {
            assert args[i..][2..] == args[i + 2..];
            i := i + 1;
          }
          ResolvedKey(rules, arg[2..], next);
          OntoNext(uses, res.use, Uses(rules, args[i + 1..]));
          ok := TakeUse(res.use);
          if !ok {
            UsesFail(uses, Uses(rules, args[i + 1..]));
            return;
          }
        }
        i := i + 1;
      }
      assert args[i..] == [] && uses + [] == uses;
      ok := true;
    }

    /** Phase two. */
    method Environ(env: seq<EnvVar>) returns (ok: bool)
      requires RulesOk(rules) && Merged()
      modifies this`list, this`offers
      ensures ok <==> EnvOk(rules, env) && OffersOk(rules, uses, old(offers) + EnvOffers(rules, env))
      ensures ok ==> Merged() && offers == old(offers) + EnvOffers(rules, env)
    {
      hide OffersOk, FirstWins;
      var i := 0;
      while i < |env|
        invariant i <= |env| && Merged()
        invariant offers == old(offers) + EnvOffers(rules, env[..i])
        invariant EnvOk(rules, env[..i])
      {
        assert env[..i + 1][..i] == env[..i];
        var e := env[i];
        if EnvEligible(rules, e) {
          if e.value == "" {
            return false;
          }
          assert KeyOk(rules, rules.find(e.name));
          ok := Take(EnvOffer(rules, e));
          assert offers == old(offers) + EnvOffers(rules, env[..i + 1]);
          if !ok {
            ghost var more := EnvOffersPrefix(rules, env, i + 1);
            OffersFail(rules, uses, old(offers), EnvOffers(rules, env[..i + 1]), more);
            return;
          }
        }
        i := i + 1;
      }
      assert env[..i] == env;
      ok := true;
    }

    /** One section of the file. */
    method ReadSection(section: string, keys: seq<IniKey>) returns (ok: bool)
      requires RulesOk(rules) && Merged()
      modifies this`list, this`offers
      ensures ok <==>
                NoAlternates(rules, keys) && OffersOk(rules, uses, old(offers) + SectionOffers(rules, section, keys))
      ensures ok ==> Merged() && offers == old(offers) + SectionOffers(rules, section, keys)
    {
      hide NoAlternates, SeenOk, OffersOk, FirstWins, SectionOffers, SlotOfUses, SlotAt, Convert;
      var seen: set<nat> := {};
      var i := 0;
      SeenNone(rules, keys);
      NoOffers(rules, section, keys, map[], []);
      while i < |keys|
        invariant i <= |keys| && Merged()
        invariant offers == old(offers) + SectionOffers(rules, section, keys[..i])
        invariant NoAlternates(rules, keys[..i])
        invariant SeenOk(rules, keys, i, seen)
      {
        SectionOffersNext(rules, section, keys, i);
        var e := keys[i];
        SeenMeans(rules, keys, i, seen);
        if Counted(rules, e) {
          var o := rules.find(e.key);
          var code := o.id * CFG_OPTION_KEY_MAX + o.keyIdx;
          if code in seen {
            return false;
          }
          seen := seen + {code};
          if FileEligible(rules, section, e) {
            assert KeyOk(rules, o);
            ok := Take(FileOffer(rules, e));
            assert offers == old(offers) + SectionOffers(rules, section, keys[..i + 1]);
            if !ok {
              ghost var more := SectionOffersPrefix(rules, section, keys, i + 1);
              OffersFail(rules, uses, old(offers), SectionOffers(rules, section, keys[..i + 1]), more);
              return;
            }
          }
        }
        i := i + 1;
      }
      assert keys[..i] == keys;
      ok := true;
    }

    /** Phase three. */
    method ConfigFile(ini: Ini, sections: seq<string>) returns (ok: bool)
      requires RulesOk(rules) && Merged()
      modifies this`list, this`offers
      ensures ok <==>
                FileOk(rules, ini, sections) && OffersOk(rules, uses, old(offers) + FileOffers(rules, ini, sections))
      ensures ok ==> Merged() && offers == old(offers) + FileOffers(rules, ini, sections)
    {
      hide OffersOk, FirstWins, NoAlternates, FileOffers, SectionOffers, SlotOfUses, SlotAt;
      var i := 0;
      NoOffers(rules, "", [], ini, sections);
      while i < |sections|
        invariant i <= |sections| && Merged()
        invariant offers == old(offers) + FileOffers(rules, ini, sections[..i])
        invariant forall j :: 0 <= j < i ==> NoAlternates(rules, KeysOf(ini, sections[j]))
      {
        FileOffersNext(rules, ini, sections, i);
        ghost var before := offers;
        var keys := KeysOf(ini, sections[i]);
        ok := ReadSection(sections[i], keys);
        assert before + SectionOffers(rules, sections[i], keys)
          == old(offers) + FileOffers(rules, ini, sections[..i + 1]);
        if !ok {
          if NoAlternates(rules, keys) {
            ghost var more := FileOffersPrefix(rules, ini, sections, i + 1);
            OffersFail(rules, uses, old(offers), FileOffers(rules, ini, sections[..i + 1]), more);
          }
          return;
        }
        i := i + 1;
      }
      assert sections[..i] == sections;
      ok := true;
    }

    /** The merge: it succeeds exactly when the sources are acceptable, and then every value is the one of the
        first source that has one. `load` is off for the commands that use the command line alone. */
    method Parse(args: seq<string>, env: seq<EnvVar>, ini: Option<Ini>, load: bool, command: string) returns (ok: bool)
      requires RulesOk(rules) && list == map[] && uses == [] && offers == []
      modifies this
      ensures ok <==> Accepts(rules, args, env, ini, load, command)
      ensures ok ==> Uses(rules, args) == Some(uses) && offers == AllOffers(rules, uses, env, ini, load, command)
      ensures ok ==> forall id: nat, k: nat {:trigger SlotAt(list, id, k)} ::
                  FirstWins(rules, uses, offers, SlotAt(list, id, k), id, k)
    {
      assert Collected();
      ok := CommandLine(args);
      if !ok {
        return;
      }
      assert Merged();
      if load {
        ok := Environ(env);
        if !ok {
          assert [] + EnvOffers(rules, env) == EnvOffers(rules, env);
          EnvFails(rules, uses, args, env, ini, command);
          return;
        }
      }
      if ini.Some? {
        var value := SlotAt(list, rules.stanza, 0).values;
        WinnerIs(rules, uses, offers, SlotAt(list, rules.stanza, 0), rules.stanza, 0);
        var stanza := if value == [] then None else Some(value[0]);
        ok := ConfigFile(ini.value, SectionNames(stanza, command));
      }
    }
  }

  // ---------------------------------------------------------------------------------------------
  // The order of the sources

  /** An offer that comes first in its own source, where no source before it has one, gives the value. */
  lemma FirstSourceWins(rules: Rules, us: seq<Use>, before: seq<Offer>, source: seq<Offer>, after: seq<Offer>,
    j: nat, s: Slot)
    requires j < |source| && FirstWins(rules, us, before + source + after, s, source[j].id, source[j].k)
    requires !Used(us, source[j].id, source[j].k)
    requires forall i :: 0 <= i < |before| ==> !Matches(before[i], source[j].id, source[j].k)
    requires forall i :: 0 <= i < j ==> !Matches(source[i], source[j].id, source[j].k)
    ensures Convert(rules, source[j]) == Some(s)
  {
    var os := before + source + after;
    assert os[|before| + j] == source[j];
    forall i | 0 <= i < |before| + j ensures !Matches(os[i], source[j].id, source[j].k) {
      assert os[i] == if i < |before| then before[i] else source[i - |before|];
    }
    assert Effective(us, os, |before| + j);
  }

  /** The offers come from the environment, then stanza:command, stanza, global:command and global. */
  lemma OrderOfSources(rules: Rules, us: seq<Use>, env: seq<EnvVar>, ini: Ini, command: string)
    ensures var st := StanzaName(rules, us, EnvOffers(rules, env));
      var g := SectionOffers(rules, GLOBAL + ":" + command, KeysOf(ini, GLOBAL + ":" + command))
        + SectionOffers(rules, GLOBAL, KeysOf(ini, GLOBAL));
      AllOffers(rules, us, env, Some(ini), true, command) ==
        if st.None? then EnvOffers(rules, env) + g
        else
          EnvOffers(rules, env)
          + (SectionOffers(rules, st.value + ":" + command, KeysOf(ini, st.value + ":" + command))
            + SectionOffers(rules, st.value, KeysOf(ini, st.value)) + g)
  {
    hide SectionOffers, EnvOffers, StanzaName, FileOffers, KeysOf;
    var st := StanzaName(rules, us, EnvOffers(rules, env));
    var c, d := GLOBAL + ":" + command, GLOBAL;
    TwoMore(rules, ini, [], c, d);
    assert [] + [c, d] == [c, d];
    if st.Some? {
      var e, f := st.value + ":" + command, st.value;
      TwoMore(rules, ini, [], e, f);
      assert [] + [e, f] == [e, f];
      TwoMore(rules, ini, [e, f], c, d);
    }
  }

  lemma TwoMore(rules: Rules, ini: Ini, some: seq<string>, c: string, d: string)
    ensures FileOffers(rules, ini, []) == []
    ensures FileOffers(rules, ini, some + [c, d])
      == FileOffers(rules, ini, some)
        + (SectionOffers(rules, c, KeysOf(ini, c)) + SectionOffers(rules, d, KeysOf(ini, d)))
  {
    var all := some + [c, d];
    assert all[..|all| - 1] == some + [c];
    assert (some + [c])[..|some|] == some;
  }

  /** After a negation or reset on the command line flags and list are the command line's alone, whatever later sources
      offer: the list is empty, or holds the argument if the negation was written with one. */
  lemma NegateHidesLater(rules: Rules, us: seq<Use>, os: seq<Offer>, s: Slot, i: nat)
    requires i < |us| && (us[i].negate || us[i].reset) && UsesOk(us)
    requires FirstWins(rules, us, os, s, us[i].id, us[i].k)
    ensures s.found && s.param && s.negate == us[i].negate && s.reset == us[i].reset && s.values == Args(us[i])
  {
    assert Same(us[i], us[i].id, us[i].k);
    OnlyUse(us, i, |us|);
    assert us[..|us|] == us;
  }

  /** A negated or reset option has no second use. */
  lemma {:induction false} OnlyUse(us: seq<Use>, i: nat, n: nat)
    requires i < |us| && !Plain(us[i]) && UsesOk(us) && n <= |us|
    ensures ArgsOf(us[..n], us[i].id, us[i].k) == if i < n then Args(us[i]) else []
  {
    if n > 0 {
      OnlyUse(us, i, n - 1);
      assert us[..n][..n - 1] == us[..n - 1];
      if n - 1 < i {
        assert Same(us[n - 1], us[i].id, us[i].k) ==> MayFollow(us[n - 1], us[i]);
      } else if i < n - 1 {
        assert Same(us[i], us[n - 1].id, us[n - 1].k) ==> MayFollow(us[i], us[n - 1]);
      }
    }
  }

  /** Splitting loses nothing: the pieces have no separator and give the text back. */
  function Join(r: seq<string>, c: char): string
    requires |r| > 0
  {
    if |r| == 1 then r[0] else r[0] + [c] + Join(r[1..], c)
  }

  lemma {:induction false} SplitJoin(s: string, c: char)
    ensures Join(Split(s, c), c) == s
    ensures forall i :: 0 <= i < |Split(s, c)| ==> c !in Split(s, c)[i]
    decreases |s|
  {
    var i := FindChar(s, c);
    if i < |s| {
      SplitJoin(s[i + 1..], c);
      var r := Split(s, c);
      assert r[1..] == Split(s[i + 1..], c);
      assert s == s[..i] + [c] + s[i + 1..];
    }
  }
}
