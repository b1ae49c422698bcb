/** The line a team member is printed as, part by part. */
module TeamPrint {
  import opened Text
  import opened TeamText
  import opened TeamRoundTrip
  import StringOrder

  /** A named field is printed if it has a value. */
  function Shown(name: string, value: string): seq<string> {
    if value == "" then [] else [name + "=" + value]
  }

  lemma {:induction false} WithoutEmptyConcat(a: seq<string>, b: seq<string>)
    ensures WithoutEmpty(a + b) == WithoutEmpty(a) + WithoutEmpty(b)
  {
    if a == [] {
      assert a + b == b;
    } else {
      assert (a + b)[0] == a[0] && (a + b)[1..] == a[1..] + b;
      WithoutEmptyConcat(a[1..], b);
    }
  }

  lemma ShownAlone(name: string, value: string)
    ensures WithoutEmpty([NamedField(name, value)]) == Shown(name, value)
  {
    assert [NamedField(name, value)][1..] == [];
    if value != "" { assert (name + "=" + value)[|name|] == '='; }
  }

  lemma ShownFirst(name: string, value: string, rest: seq<string>)
    ensures WithoutEmpty([NamedField(name, value)] + rest) == Shown(name, value) + WithoutEmpty(rest)
  {
    WithoutEmptyConcat([NamedField(name, value)], rest);
    ShownAlone(name, value);
  }

  ghost predicate OptionTexts(options: map<string, string>, keys: seq<string>, texts: seq<string>) {
    |texts| == |keys| && forall i :: 0 <= i < |keys| ==> keys[i] in options && texts[i] == "option." + keys[i] + "=" + options[keys[i]]
  }

  /** `kept` is what is left of `keys`, in order, when the options without a value are dropped. */
  ghost predicate Keeps(options: map<string, string>, keys: seq<string>, kept: seq<string>) {
    && StringOrder.Sorted(kept) && StringOrder.Distinct(kept)
    && forall k :: k in kept <==> k in keys && k in options && options[k] != ""
  }

  lemma KeepsFirst(options: map<string, string>, keys: seq<string>, kept: seq<string>)
    requires keys != [] && StringOrder.Sorted(keys) && StringOrder.Distinct(keys) && keys[0] in options && options[keys[0]] != ""
    requires Keeps(options, keys[1..], kept)
    ensures Keeps(options, keys, [keys[0]] + kept)
  {
    assert keys == [keys[0]] + keys[1..];
    forall k | k in kept ensures k in keys[1..] && StringOrder.Leq(keys[0], k) && k != keys[0] {
      var i :| 0 <= i < |keys[1..]| && keys[1..][i] == k;
      assert keys[i + 1] == k;
    }
  }

  lemma KeepsRest(options: map<string, string>, keys: seq<string>, kept: seq<string>)
    requires keys != [] && keys[0] in options && options[keys[0]] == "" && Keeps(options, keys[1..], kept)
    ensures Keeps(options, keys, kept)
  {
    assert keys == [keys[0]] + keys[1..];
  }

  lemma {:induction false} OptionsPrinted(options: map<string, string>, keys: seq<string>) returns (kept: seq<string>)
    requires StringOrder.Sorted(keys) && StringOrder.Distinct(keys) && forall k :: k in keys ==> k in options
    ensures Keeps(options, keys, kept) && OptionTexts(options, kept, WithoutEmpty(OptionFields(options, keys)))
  {
    kept := [];
    if keys != [] {
      var rest := OptionsPrinted(options, keys[1..]);
      ShownFirst(OPTION + keys[0], options[keys[0]], OptionFields(options, keys[1..]));
      kept := rest;
      if options[keys[0]] != "" {
        KeepsFirst(options, keys, rest);
        kept := [keys[0]] + rest;
      } else {
        KeepsRest(options, keys, rest);
      }
    }
  }

  lemma FixedPrinted<N>(codec: Codec<N>, m: Member<N>)
    ensures WithoutEmpty(FixedFields(codec, m)) ==
            Shown("role", OrEmpty(m.role)) + (Shown("description", OrEmpty(m.description))
            + (Shown("maxTurns", ShowTurns(codec, m.maxTurns)) + (Shown("runtime", OrEmpty(m.runtimeRef))
            + Shown("revision", OrEmpty(m.runtimeProfileRevision)))))
  {
    var revision := [NamedField("revision", OrEmpty(m.runtimeProfileRevision))];
    var runtime := [NamedField("runtime", OrEmpty(m.runtimeRef))] + revision;
    var turns := [NamedField("maxTurns", ShowTurns(codec, m.maxTurns))] + runtime;
    var description := [NamedField("description", OrEmpty(m.description))] + turns;
    assert FixedFields(codec, m) == [NamedField("role", OrEmpty(m.role))] + description;
    ShownAlone("revision", OrEmpty(m.runtimeProfileRevision));
    ShownFirst("runtime", OrEmpty(m.runtimeRef), revision);
    ShownFirst("maxTurns", ShowTurns(codec, m.maxTurns), runtime);
    ShownFirst("description", OrEmpty(m.description), turns);
    ShownFirst("role", OrEmpty(m.role), description);
  }

  /**
   A member's line, for every member: head, then role, description, turns, runtime and
   revision, then its options by ascending name, each only if it has a value.
   */
  lemma PrintedLine<N>(codec: Codec<N>, m: Member<N>) returns (kept: seq<string>, options: seq<string>)
    ensures StringOrder.Sorted(kept) && StringOrder.Distinct(kept) && OptionTexts(m.runtimeOptions, kept, options)
    ensures forall k :: k in kept <==> k in m.runtimeOptions && m.runtimeOptions[k] != ""
    ensures WriteMember(codec, m) ==
            Join([m.id + ": " + m.agent] + (Shown("role", OrEmpty(m.role)) + (Shown("description", OrEmpty(m.description))
                 + (Shown("maxTurns", ShowTurns(codec, m.maxTurns)) + (Shown("runtime", OrEmpty(m.runtimeRef))
                 + Shown("revision", OrEmpty(m.runtimeProfileRevision))))) + options), " | ")
  {
    var keys := StringOrder.Listing(m.runtimeOptions.Keys);
    StringOrder.ListingSorted(m.runtimeOptions.Keys);
    kept := OptionsPrinted(m.runtimeOptions, keys);
    options := WithoutEmpty(OptionFields(m.runtimeOptions, keys));
    WithoutEmptyConcat(FixedFields(codec, m), OptionFields(m.runtimeOptions, keys));
    FixedPrinted(codec, m);
    WriteIsJoin(codec, m);
  }
}
