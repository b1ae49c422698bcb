/** Printing a team and reading it back, and the loop that reads it. */
module TeamRoundTrip {
  import opened Sequences
  import opened Text
  import opened TeamText
  import StringOrder

  // ----- reading a printed field -----

  /** A field name the reader sees unchanged. */
  ghost predicate NameFits(name: string) {
    name != "" && Trimmed(name) && '=' !in name && '|' !in name && '\n' !in name
  }

  lemma ReadNamed<N>(codec: Codec<N>, f: Fields<N>, name: string, value: string)
    requires NameFits(name) && Clean(value)
    ensures ReadField(codec, f, NamedField(name, value)) == SetField(codec, f, name, value)
  {
    var field := name + ['='] + value;
    assert NamedField(name, value) == field;
    FindAfter(name, '=', value);
    assert field[..|name|] == name && field[|name| + 1..] == value;
    TrimFixed(name);
    TrimFixed(value);
  }

  lemma NamedFieldPlain(name: string, value: string)
    requires NameFits(name) && (value == "" || Clean(value))
    ensures var field := NamedField(name, value); field == "" || (PlainPart(field) && '\n' !in field)
  {
    if value != "" {
      var field := NamedField(name, value);
      assert field[0] == name[0] && field[|field| - 1] == value[|value| - 1];
    }
  }

  /** Reads the fields that are present, as printing leaves the absent ones out. */
  function ReadPresent<N>(codec: Codec<N>, f: Fields<N>, fields: seq<string>): Fields<N>
    decreases |fields|
  {
    if fields == [] then f
    else ReadPresent(codec, if fields[0] == "" then f else ReadField(codec, f, fields[0]), fields[1..])
  }

  lemma {:induction false} ReadPresentSkips<N>(codec: Codec<N>, f: Fields<N>, fields: seq<string>)
    ensures ReadFields(codec, f, WithoutEmpty(fields)) == ReadPresent(codec, f, fields)
    decreases |fields|
  {
    if fields != [] {
      if fields[0] == "" {
        assert WithoutEmpty(fields) == WithoutEmpty(fields[1..]);
        ReadPresentSkips(codec, f, fields[1..]);
      } else {
        assert WithoutEmpty(fields)[0] == fields[0] && WithoutEmpty(fields)[1..] == WithoutEmpty(fields[1..]);
        ReadPresentSkips(codec, ReadField(codec, f, fields[0]), fields[1..]);
      }
    }
  }

  lemma {:induction false} ReadPresentConcat<N>(codec: Codec<N>, f: Fields<N>, a: seq<string>, b: seq<string>)
    ensures ReadPresent(codec, f, a + b) == ReadPresent(codec, ReadPresent(codec, f, a), b)
    decreases |a|
  {
    if a == [] {
      assert a + b == b;
    } else {
      assert (a + b)[0] == a[0] && (a + b)[1..] == a[1..] + b;
      ReadPresentConcat(codec, if a[0] == "" then f else ReadField(codec, f, a[0]), a[1..], b);
    }
  }

  lemma ReadPresentFirst<N>(codec: Codec<N>, f: Fields<N>, name: string, value: string, rest: seq<string>)
    requires NameFits(name) && (value == "" || Clean(value))
    ensures ReadPresent(codec, f, [NamedField(name, value)] + rest) ==
            ReadPresent(codec, SetPresent(codec, f, name, value), rest)
  {
    var fields := [NamedField(name, value)] + rest;
    assert fields[0] == NamedField(name, value) && fields[1..] == rest;
    if value != "" {
      ReadNamed(codec, f, name, value);
    }
  }

  // ----- the fixed fields -----

  ghost predicate Present(s: string) {
    s == "" || Clean(s)
  }

  lemma DigitsClean(s: string)
    requires IsDigits(s)
    ensures Clean(s)
  {
    assert forall c :: c in s ==> '0' <= c <= '9';
  }

  lemma LongerNames()
    ensures NameFits("description") && NameFits("maxTurns")
  {
  }

  lemma FixedNames()
    ensures NameFits("role") && NameFits("description") && NameFits("maxTurns") && NameFits("runtime") && NameFits("revision")
  {
    LongerNames();
  }

  lemma ValuesPresent<N(!new)>(codec: Codec<N>, m: Member<N>)
    requires Lawful(codec) && WellFormed(m)
    ensures Present(OrEmpty(m.role)) && Present(OrEmpty(m.description)) && Present(ShowTurns(codec, m.maxTurns))
    ensures Present(OrEmpty(m.runtimeRef)) && Present(OrEmpty(m.runtimeProfileRevision))
  {
    if m.runtimeProfileRevision.Some? { DigitsClean(m.runtimeProfileRevision.value); }
  }

  /** The reader's state after `n` of the five fixed fields. */
  function AfterFixed<N>(m: Member<N>, n: nat): Fields<N> {
    Fields(
      if n < 1 then "" else OrEmpty(m.role),
      if n < 2 then "" else OrEmpty(m.description),
      if n < 3 then None else m.maxTurns,
      if n < 4 then None else m.runtimeRef,
      if n < 5 then None else m.runtimeProfileRevision,
      map[], [])
  }

  function SetPresent<N>(codec: Codec<N>, f: Fields<N>, name: string, value: string): Fields<N> {
    if value == "" then f else SetField(codec, f, name, value)
  }

  lemma FixedFieldsSet<N(!new)>(codec: Codec<N>, m: Member<N>)
    requires Lawful(codec) && WellFormed(m)
    ensures SetPresent(codec, AfterFixed(m, 0), "role", OrEmpty(m.role)) == AfterFixed(m, 1)
    ensures SetPresent(codec, AfterFixed(m, 1), "description", OrEmpty(m.description)) == AfterFixed(m, 2)
    ensures SetPresent(codec, AfterFixed(m, 2), "maxTurns", ShowTurns(codec, m.maxTurns)) == AfterFixed(m, 3)
    ensures SetPresent(codec, AfterFixed(m, 3), "runtime", OrEmpty(m.runtimeRef)) == AfterFixed(m, 4)
    ensures SetPresent(codec, AfterFixed(m, 4), "revision", OrEmpty(m.runtimeProfileRevision)) == AfterFixed(m, 5)
  {
  }

  /** Reading two named fields in front of others. */
  lemma ReadTwo<N>(codec: Codec<N>, f: Fields<N>, g: Fields<N>, h: Fields<N>, m: string, v: string, n: string, w: string, rest: seq<string>)
    requires NameFits(m) && Present(v) && SetPresent(codec, f, m, v) == g
    requires NameFits(n) && Present(w) && SetPresent(codec, g, n, w) == h
    ensures ReadPresent(codec, f, [NamedField(m, v), NamedField(n, w)] + rest) == ReadPresent(codec, h, rest)
  {
    assert [NamedField(m, v), NamedField(n, w)] + rest == [NamedField(m, v)] + ([NamedField(n, w)] + rest);
    ReadPresentFirst(codec, f, m, v, [NamedField(n, w)] + rest);
    ReadPresentFirst(codec, g, n, w, rest);
  }

  lemma FixedFieldsRead<N(!new)>(codec: Codec<N>, m: Member<N>)
    requires Lawful(codec) && WellFormed(m)
    ensures ReadPresent(codec, NoFields(), FixedFields(codec, m)) == AfterFixed(m, 5)
  {
    FixedNames();
    ValuesPresent(codec, m);
    FixedFieldsSet(codec, m);
    var role, description := OrEmpty(m.role), OrEmpty(m.description);
    var turns, runtime, revision := ShowTurns(codec, m.maxTurns), OrEmpty(m.runtimeRef), OrEmpty(m.runtimeProfileRevision);
    var last := [NamedField("revision", revision)];
    var middle := [NamedField("maxTurns", turns), NamedField("runtime", runtime)] + last;
    assert FixedFields(codec, m) == [NamedField("role", role), NamedField("description", description)] + middle;
    ReadTwo(codec, AfterFixed(m, 0), AfterFixed(m, 1), AfterFixed(m, 2), "role", role, "description", description, middle);
    ReadTwo(codec, AfterFixed(m, 2), AfterFixed(m, 3), AfterFixed(m, 4), "maxTurns", turns, "runtime", runtime, last);
    assert last == last + [];
    ReadPresentFirst(codec, AfterFixed(m, 4), "revision", revision, []);
  }

  // ----- the options -----

  function Chosen(options: map<string, string>, keys: seq<string>): map<string, string>
    requires forall k :: k in keys ==> k in options
  {
    map k | k in keys :: options[k]
  }

  lemma OptionNameFits(key: string, value: string)
    requires OptionFits(key, value)
    ensures NameFits(OPTION + key) && OptionName(OPTION + key) == Some(key)
    ensures OPTION + key !in {"role", "description", "maxTurns", "runtime", "revision"}
  {
    var name := OPTION + key;
    assert name[..|OPTION|] == OPTION && name[|OPTION|..] == key;
    assert name[0] == 'o' && name[|name| - 1] == key[|key| - 1];
  }

  lemma OptionSet<N>(codec: Codec<N>, f: Fields<N>, key: string, value: string, rest: seq<string>)
    requires OptionFits(key, value)
    ensures ReadPresent(codec, f, [NamedField(OPTION + key, value)] + rest) ==
            ReadPresent(codec, f.(options := f.options[key := value]), rest)
  {
    OptionNameFits(key, value);
    ReadPresentFirst(codec, f, OPTION + key, value, rest);
    assert SetPresent(codec, f, OPTION + key, value) == f.(options := f.options[key := value]);
  }

  lemma ChosenFirst(kept: map<string, string>, options: map<string, string>, keys: seq<string>)
    requires keys != [] && forall k :: k in keys ==> k in options
    ensures kept[keys[0] := options[keys[0]]] + Chosen(options, keys[1..]) == kept + Chosen(options, keys)
  {
  }

  lemma {:induction false} OptionsRead<N>(codec: Codec<N>, f: Fields<N>, options: map<string, string>, keys: seq<string>)
    requires OptionsFit(options) && forall k :: k in keys ==> k in options
    ensures ReadPresent(codec, f, OptionFields(options, keys)) == f.(options := f.options + Chosen(options, keys))
    decreases |keys|
  {
    if keys == [] {
      assert f.options + Chosen(options, keys) == f.options;
    } else {
      var key := keys[0];
      assert OptionFits(key, options[key]);
      OptionSet(codec, f, key, options[key], OptionFields(options, keys[1..]));
      OptionsRead(codec, f.(options := f.options[key := options[key]]), options, keys[1..]);
      ChosenFirst(f.options, options, keys);
    }
  }

  // ----- one line -----

  lemma WriteIsJoin<N>(codec: Codec<N>, m: Member<N>)
    ensures WriteMember(codec, m) == Join([Base(m)] + WithoutEmpty(AllFields(codec, m)), " | ")
  {
    var tail := WithoutEmpty(AllFields(codec, m));
    assert ([Base(m)] + tail)[0] == Base(m) && ([Base(m)] + tail)[1..] == tail;
  }

  lemma ReadBoth<N>(codec: Codec<N>, f: Fields<N>, a: seq<string>, b: seq<string>)
    ensures ReadFields(codec, f, WithoutEmpty(a + b)) == ReadPresent(codec, ReadPresent(codec, f, a), b)
  {
    ReadPresentSkips(codec, f, a + b);
    ReadPresentConcat(codec, f, a, b);
  }

  lemma ChosenAll(options: map<string, string>)
    ensures map[] + Chosen(options, StringOrder.Listing(options.Keys)) == options
  {
  }

  lemma AllFieldsRead<N(!new)>(codec: Codec<N>, m: Member<N>)
    requires Lawful(codec) && WellFormed(m)
    ensures ReadFields(codec, NoFields(), WithoutEmpty(AllFields(codec, m))) == AfterFixed(m, 5).(options := m.runtimeOptions)
  {
    var keys := StringOrder.Listing(m.runtimeOptions.Keys);
    ReadBoth(codec, NoFields(), FixedFields(codec, m), OptionFields(m.runtimeOptions, keys));
    FixedFieldsRead(codec, m);
    OptionsRead(codec, AfterFixed(m, 5), m.runtimeOptions, keys);
    ChosenAll(m.runtimeOptions);
  }

  lemma HeadRead<N>(codec: Codec<N>, m: Member<N>, f: Fields<N>)
    requires WellFormed(m)
    ensures MakeMember(codec, Base(m), f).id == m.id && MakeMember(codec, Base(m), f).agent == m.agent
  {
    var head := m.id + [':'] + (" " + m.agent);
    assert Base(m) == head;
    FindAfter(m.id, ':', " " + m.agent);
    assert head[..|m.id|] == m.id && head[|m.id| + 1..] == " " + m.agent;
    TrimFixed(m.id);
    TrimPadded(" ", m.agent, "");
    assert " " + m.agent + "" == " " + m.agent;
  }

  ghost predicate PlainField(field: string) {
    field == "" || (PlainPart(field) && '\n' !in field)
  }

  lemma FixedFieldsPlain<N(!new)>(codec: Codec<N>, m: Member<N>)
    requires Lawful(codec) && WellFormed(m)
    ensures forall i :: 0 <= i < |FixedFields(codec, m)| ==> PlainField(FixedFields(codec, m)[i])
  {
    FixedNames();
    ValuesPresent(codec, m);
    NamedFieldPlain("role", OrEmpty(m.role));
    NamedFieldPlain("description", OrEmpty(m.description));
    NamedFieldPlain("maxTurns", ShowTurns(codec, m.maxTurns));
    NamedFieldPlain("runtime", OrEmpty(m.runtimeRef));
    NamedFieldPlain("revision", OrEmpty(m.runtimeProfileRevision));
  }

  lemma {:induction false} OptionFieldsPlain(options: map<string, string>, keys: seq<string>)
    requires OptionsFit(options) && forall k :: k in keys ==> k in options
    ensures forall i :: 0 <= i < |OptionFields(options, keys)| ==> PlainField(OptionFields(options, keys)[i])
  {
    if keys != [] {
      assert OptionFits(keys[0], options[keys[0]]);
      OptionNameFits(keys[0], options[keys[0]]);
      NamedFieldPlain(OPTION + keys[0], options[keys[0]]);
      OptionFieldsPlain(options, keys[1..]);
    }
  }

  lemma BasePlain<N>(m: Member<N>)
    requires WellFormed(m)
    ensures PlainPart(Base(m)) && '\n' !in Base(m)
  {
    var base := Base(m);
    assert base[0] == m.id[0] && base[|base| - 1] == m.agent[|m.agent| - 1];
  }

  lemma PartsPlain<N(!new)>(codec: Codec<N>, m: Member<N>)
    requires Lawful(codec) && WellFormed(m)
    ensures var parts := [Base(m)] + WithoutEmpty(AllFields(codec, m));
            forall i :: 0 <= i < |parts| ==> PlainPart(parts[i]) && '\n' !in parts[i]
  {
    BasePlain(m);
    FixedFieldsPlain(codec, m);
    OptionFieldsPlain(m.runtimeOptions, StringOrder.Listing(m.runtimeOptions.Keys));
    var fields := AllFields(codec, m);
    assert forall i :: 0 <= i < |fields| ==> PlainField(fields[i]);
    var tail := WithoutEmpty(fields);
    forall i | 0 <= i < |tail| ensures PlainPart(tail[i]) && '\n' !in tail[i] {
      assert tail[i] in fields;
    }
  }

  /** One printed member reads back as itself. */
  lemma LineRoundTrip<N(!new)>(codec: Codec<N>, m: Member<N>)
    requires Lawful(codec) && WellFormed(m)
    ensures ReadLine(codec, WriteMember(codec, m)) == m
  {
    var parts := [Base(m)] + WithoutEmpty(AllFields(codec, m));
    WriteIsJoin(codec, m);
    PartsPlain(codec, m);
    SplitPadded("", parts);
    assert "" + Join(parts, " | ") == Join(parts, " | ");
    assert parts[0] == Base(m) && parts[1..] == WithoutEmpty(AllFields(codec, m));
    AllFieldsRead(codec, m);
    HeadRead(codec, m, AfterFixed(m, 5).(options := m.runtimeOptions));
  }

  /** A printed line is one trimmed line. */
  lemma LineShape<N(!new)>(codec: Codec<N>, m: Member<N>)
    requires Lawful(codec) && WellFormed(m)
    ensures var line := WriteMember(codec, m); line != "" && Trimmed(line) && '\n' !in line
  {
    var parts := [Base(m)] + WithoutEmpty(AllFields(codec, m));
    WriteIsJoin(codec, m);
    PartsPlain(codec, m);
    JoinEnds(parts, " | ");
    JoinWithin(parts, " | ", '\n');
  }

  // ----- whole texts -----

  lemma TrimAllFixed(lines: seq<string>)
    requires forall i :: 0 <= i < |lines| ==> Trimmed(lines[i])
    ensures TrimAll(lines) == lines
  {
    forall i | 0 <= i < |lines| ensures Trim(lines[i]) == lines[i] { TrimFixed(lines[i]); }
  }

  lemma SplitJoinedLines(lines: seq<string>)
    requires lines != [] && forall i :: 0 <= i < |lines| ==> Trimmed(lines[i]) && '\n' !in lines[i]
    ensures SplitLines(Join(lines, "\n")) == lines
  {
    assert "\n" == ['\n'];
    SplitJoin(lines, '\n');
    assert forall i :: 0 <= i < |lines| ==> ChopReturn(lines[i]) == lines[i];
  }

  lemma LinesSplit(lines: seq<string>)
    requires lines != [] && forall i :: 0 <= i < |lines| ==> lines[i] != "" && Trimmed(lines[i]) && '\n' !in lines[i]
    ensures WithoutEmpty(TrimAll(SplitLines(Join(lines, "\n")))) == lines
  {
    SplitJoinedLines(lines);
    TrimAllFixed(lines);
    WithoutEmptyFixed(lines);
  }

  lemma {:induction false} ReadLinesEach<N>(codec: Codec<N>, lines: seq<string>, members: seq<Member<N>>)
    requires |lines| == |members|
    requires forall i :: 0 <= i < |lines| ==> ReadLine(codec, lines[i]) == members[i] && Named(members[i])
    ensures ReadLines(codec, lines) == members
  {
    if lines != [] {
      ReadLinesEach(codec, lines[1..], members[1..]);
      assert ReadLine(codec, lines[0]) == members[0];
    }
  }

  lemma LinesRead<N(!new)>(codec: Codec<N>, members: seq<Member<N>>)
    requires Lawful(codec) && AllWellFormed(members)
    ensures ReadLines(codec, WriteMembers(codec, members)) == members
  {
    forall i | 0 <= i < |members|
      ensures ReadLine(codec, WriteMembers(codec, members)[i]) == members[i] && Named(members[i])
    {
      LineRoundTrip(codec, members[i]);
    }
    ReadLinesEach(codec, WriteMembers(codec, members), members);
  }

  lemma WellFormedRoundTrip<N(!new)>(codec: Codec<N>, members: seq<Member<N>>)
    requires Lawful(codec) && AllWellFormed(members)
    ensures Parse(codec, Print(codec, members)) == members
  {
    var lines := WriteMembers(codec, members);
    if members == [] {
      assert SplitLines("") == [""];
      assert TrimAll([""]) == [""];
      assert WithoutEmpty([""]) == [] by { assert [""][1..] == []; }
    } else {
      forall i | 0 <= i < |lines| ensures lines[i] != "" && Trimmed(lines[i]) && '\n' !in lines[i] {
        LineShape(codec, members[i]);
      }
      LinesSplit(lines);
      LinesRead(codec, members);
    }
  }

  /** Printed members read back exactly when every one of them is well formed. */
  lemma PrintParseRoundTrip<N(!new)>(codec: Codec<N>, members: seq<Member<N>>)
    requires Lawful(codec)
    ensures Parse(codec, Print(codec, members)) == members <==> AllWellFormed(members)
  {
    ParseGivesWellFormed(codec, Print(codec, members));
    if AllWellFormed(members) {
      WellFormedRoundTrip(codec, members);
    }
  }

  /** For every text, reading, printing and reading again changes nothing. */
  lemma ParsePrintParse<N(!new)>(codec: Codec<N>, text: string)
    requires Lawful(codec)
    ensures Parse(codec, Print(codec, Parse(codec, text))) == Parse(codec, text)
  {
    ParseGivesWellFormed(codec, text);
    WellFormedRoundTrip(codec, Parse(codec, text));
  }
}
