/** What single arguments, variables and keys mean: the parts that the merge of option values is made of, case by
    case. */
module OptionCases {
  import opened Wrappers
  import opened OptionMerge

  // ---------------------------------------------------------------------------------------------
  // The command line

  function Dashed(text: string): string {
    "--" + text
  }

  lemma {:induction false} FindBefore(name: string, rest: string)
    requires '=' !in name
    ensures FindChar(name + rest, '=') == |name| + FindChar(rest, '=')
  {
    if name != "" {
      assert name[0] in name;
      assert (name + rest)[1..] == name[1..] + rest;
      FindBefore(name[1..], rest);
    } else {
      assert name + rest == rest;
    }
  }

  lemma Parts(name: string, value: string)
    requires '=' !in name
    ensures FindChar(name, '=') == |name|
    ensures var t := name + "=" + value; FindChar(t, '=') == |name| && t[..|name|] == name && t[|name| + 1..] == value
  {
    FindBefore(name, "");
    assert name + "" == name;
    FindBefore(name, "=" + value);
    assert name + ("=" + value) == name + "=" + value;
  }

  lemma OneOption(rules: Rules, text: string, rest: seq<string>)
    ensures Uses(rules, [Dashed(text)] + rest) ==
      match Resolve(rules, text, if rest == [] then None else Some(rest[0]))
      case Bad => None
      case Fine(use, tookNext) => Onto([use], Uses(rules, if tookNext && rest != [] then rest[1..] else rest))
  {
    var args := [Dashed(text)] + rest;
    assert args[0][2..] == text;
    assert args[1..] == rest;
    if rest != [] { assert args[2..] == rest[1..]; }
  }

  /** Words between the options are passed over; a single dash in front of anything is refused. */
  lemma WordsAndDashes(rules: Rules, word: string, rest: seq<string>)
    ensures word == "" || word[0] != '-' ==> Uses(rules, [word] + rest) == Uses(rules, rest)
    ensures word != "" && word[0] == '-' && (|word| == 1 || word[1] != '-') ==> Uses(rules, [word] + rest) == None
  {
    assert ([word] + rest)[1..] == rest;
  }

  /** Refused in any form: a name that stands for nothing, and a secure option. */
  lemma RefusedNames(rules: Rules, name: string, value: string, rest: seq<string>)
    requires '=' !in name
    requires var o := rules.findPrefix(name); o.Unknown? || rules.option(o.id).secure
    ensures Uses(rules, [Dashed(name)] + rest) == None
    ensures Uses(rules, [Dashed(name + "=" + value)] + rest) == None
  {
    Parts(name, value);
    OneOption(rules, name, rest);
    OneOption(rules, name + "=" + value, rest);
    assert name[..|name|] == name;
  }

  /** An option that takes a value: what follows the first `=`, or else the next word, which is used up; a bool-like
      one without `=` is y, and there has to be some word otherwise. */
  lemma ValueOption(rules: Rules, name: string, value: string, word: string, rest: seq<string>)
    requires '=' !in name
    requires var o := rules.findPrefix(name);
      o.Known? && !o.negate && !o.reset && !rules.option(o.id).secure && !rules.option(o.id).boolean
    ensures var o := rules.findPrefix(name); var like := rules.option(o.id).boolLike;
      && Uses(rules, [Dashed(name + "=" + value)] + rest)
         == Onto([Use(o.id, o.keyIdx, false, false, o.multi, Some(value))], Uses(rules, rest))
      && (like ==>
        Uses(rules, [Dashed(name)] + rest)
          == Onto([Use(o.id, o.keyIdx, false, false, o.multi, Some("y"))], Uses(rules, rest)))
      && (!like ==>
        Uses(rules, [Dashed(name), word] + rest)
          == Onto([Use(o.id, o.keyIdx, false, false, o.multi, Some(word))], Uses(rules, rest)))
      && (!like ==> Uses(rules, [Dashed(name)]) == None)
  {
    Parts(name, value);
    assert name[..|name|] == name;
    OneOption(rules, name + "=" + value, rest);
    OneOption(rules, name, rest);
    OneOption(rules, name, [word] + rest);
    assert [Dashed(name)] + ([word] + rest) == [Dashed(name), word] + rest;
    assert ([word] + rest)[1..] == rest;
    OneOption(rules, name, []);
    assert [Dashed(name)] + [] == [Dashed(name)];
  }

  /** A boolean option takes y, n or nothing; n negates it, or is its value if the option is bool-like. */
  lemma BooleanOption(rules: Rules, name: string, value: string, rest: seq<string>)
    requires '=' !in name
    requires var o := rules.findPrefix(name);
      o.Known? && !o.negate && !o.reset && !rules.option(o.id).secure && rules.option(o.id).boolean
    ensures var o := rules.findPrefix(name); var like := rules.option(o.id).boolLike;
      && Uses(rules, [Dashed(name)] + rest)
         == Onto([Use(o.id, o.keyIdx, false, false, o.multi, None)], Uses(rules, rest))
      && Uses(rules, [Dashed(name + "=y")] + rest)
         == Onto([Use(o.id, o.keyIdx, false, false, o.multi, Some("y"))], Uses(rules, rest))
      && Uses(rules, [Dashed(name + "=n")] + rest)
         == Onto([Use(o.id, o.keyIdx, !like, false, o.multi, Some("n"))], Uses(rules, rest))
      && (value != "y" && value != "n" ==> Uses(rules, [Dashed(name + "=" + value)] + rest) == None)
  {
    Parts(name, value);
    Parts(name, "y");
    Parts(name, "n");
    assert name[..|name|] == name;
    assert name + "=" + "y" == name + "=y" && name + "=" + "n" == name + "=n";
    OneOption(rules, name, rest);
    OneOption(rules, name + "=y", rest);
    OneOption(rules, name + "=n", rest);
    OneOption(rules, name + "=" + value, rest);
  }

  /** A negation or reset takes no value; the negation of a bool-like option is the value n. */
  lemma NegatedOption(rules: Rules, name: string, value: string, rest: seq<string>)
    requires '=' !in name
    requires var o := rules.findPrefix(name); o.Known? && (o.negate || o.reset) && !rules.option(o.id).secure
    ensures var o := rules.findPrefix(name); var like := rules.option(o.id).boolLike;
      && Uses(rules, [Dashed(name + "=" + value)] + rest) == None
      && Uses(rules, [Dashed(name)] + rest)
         == Onto([if o.negate && like then Use(o.id, o.keyIdx, false, o.reset, o.multi, Some("n"))
                  else Use(o.id, o.keyIdx, o.negate, o.reset, o.multi, None)], Uses(rules, rest))
  {
    Parts(name, value);
    assert name[..|name|] == name;
    OneOption(rules, name, rest);
    OneOption(rules, name + "=" + value, rest);
  }

  /** One option given twice is accepted only when it is neither negated nor reset, may be given more than once, and
      has an argument the second time. */
  lemma GivenTwice(u: Use, v: Use)
    requires u.id == v.id && u.k == v.k
    ensures UsesOk([u, v]) <==> !u.negate && !u.reset && !v.negate && !v.reset && v.multi && v.arg.Some?
  {
    if UsesOk([u, v]) {
      assert MayFollow([u, v][0], [u, v][1]);
    }
  }

  // ---------------------------------------------------------------------------------------------
  // Environment and configuration file

  /** One value for a boolean option is y or n and leaves no list; n negates. Nothing else has an empty value or
      list where one value is expected. */
  lemma BooleanOffer(rules: Rules, o: Offer)
    requires rules.option(o.id).boolean && !o.isList
    ensures o.values != [] && o.values[0] == "y" ==> Convert(rules, o) == Some(Slot(true, false, false, false, []))
    ensures o.values != [] && o.values[0] == "n" ==> Convert(rules, o) == Some(Slot(true, true, false, false, []))
    ensures o.values == [] || o.values[0] !in {"y", "n"} ==> Convert(rules, o) == None
  {
  }

  /** A value that is no boolean is taken as it is; in the environment the value of an option that may be given more
      than once is a list between colons. */
  lemma ValueOffer(rules: Rules, o: Offer)
    requires !rules.option(o.id).boolean && !o.isList && |o.values| == 1
    ensures o.values[0] == "" ==> Convert(rules, o) == None
    ensures o.values[0] != "" ==>
      && Convert(rules, o).Some?
      && var s := Convert(rules, o).value;
        && s.found && !s.negate && !s.reset && !s.param
        && (!(o.env && o.multi) ==> s.values == o.values)
        && (o.env && o.multi ==>
          && s.values != [] && Join(s.values, ':') == o.values[0]
          && forall i :: 0 <= i < |s.values| ==> ':' !in s.values[i])
  {
    if o.values[0] != "" && o.env && o.multi {
      SplitJoin(o.values[0], ':');
    }
  }

  /** A key given more than once needs an option that may be, and keeps all its values. */
  lemma ListOffer(rules: Rules, o: Offer)
    requires o.isList
    ensures o.multi ==> Convert(rules, o) == Some(Slot(true, false, false, false, o.values))
    ensures !o.multi ==> Convert(rules, o) == None
  {
  }

  /** One more variable: it is taken if and only if its name stands for an option, neither negated nor reset, that is
      valid for the command. */
  lemma VariableTaken(rules: Rules, env: seq<EnvVar>, name: string, value: string)
    ensures var o := rules.find(name);
      EnvOffers(rules, env + [EnvVar(name, value)]) ==
        if o.Known? && !o.negate && !o.reset && rules.valid(o.id)
        then EnvOffers(rules, env) + [Offer(o.id, o.keyIdx, o.multi, true, false, [value])]
        else EnvOffers(rules, env)
  {
    assert (env + [EnvVar(name, value)])[..|env|] == env;
  }

  /** One more key of a section: it is taken under the same condition, if the option may stand in the file at all and,
      in a global section, is not one for stanzas only. */
  lemma KeyTaken(rules: Rules, section: string, keys: seq<IniKey>, e: IniKey)
    ensures var o := rules.find(e.key);
      var global := section == "global" || (|section| >= 7 && section[..7] == "global:");
      SectionOffers(rules, section, keys + [e]) ==
        if o.Known? && !o.negate && !o.reset && rules.valid(o.id) && !rules.option(o.id).section.CommandLine?
          && !(global && rules.option(o.id).section.Stanza?)
        then SectionOffers(rules, section, keys) + [Offer(o.id, o.keyIdx, o.multi, false, e.isList, e.values)]
        else SectionOffers(rules, section, keys)
  {
    assert (keys + [e])[..|keys|] == keys;
    assert GLOBAL + ":" == "global:";
  }

  /** Two keys of a section are alternate names exactly when both may stand in the file and mean the same option and
      key index, whether or not the option is valid for the command. */
  lemma AlternateNames(rules: Rules, d: IniKey, e: IniKey)
    ensures NoAlternates(rules, [d, e]) <==>
      var o, p := rules.find(d.key), rules.find(e.key);
      !(o.Known? && !o.negate && !o.reset && !rules.option(o.id).section.CommandLine?
        && p.Known? && !p.negate && !p.reset && !rules.option(p.id).section.CommandLine?
        && o.id == p.id && o.keyIdx == p.keyIdx)
  {
    var keys := [d, e];
    assert Alternates(rules, keys, 0, 1) <==> !NoAlternates(rules, keys) by {
      forall i: nat, j: nat | Alternates(rules, keys, i, j) ensures i == 0 && j == 1 {}
    }
  }
}
