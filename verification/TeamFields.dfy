/** What the fields of a line of team text say: named ones, older positional ones, in any order. */
module TeamFields {
  import opened Sequences
  import opened Text
  import opened TeamText

  /** A field between bars: `key=value`, or a bare text. */
  datatype Field = Keyed(key: string, value: string) | Bare(text: string)

  /** `s` is cut at its first `c`. */
  ghost predicate Cut(s: string, c: char, before: string, after: string) {
    s == before + [c] + after && c !in before
  }

  ghost predicate FieldReads(text: string, field: Field) {
    match field
    case Keyed(key, value) =>
      exists before, after :: Cut(text, '=', before, after) && Padded(before, key) && Padded(after, value)
    case Bare(bare) => text == bare && '=' !in bare
  }

  ghost predicate FieldsRead(texts: seq<string>, fields: seq<Field>) {
    |texts| == |fields| && forall i :: 0 <= i < |fields| ==> FieldReads(texts[i], fields[i])
  }

  // ----- what the fields say -----

  /** The value of the last field under this key. */
  function LastValue(fields: seq<Field>, key: string): Option<string> {
    if fields == [] then None
    else
      var last := fields[|fields| - 1];
      if last.Keyed? && last.key == key then Some(last.value) else LastValue(fields[..|fields| - 1], key)
  }

  /** The value of the last field under this key that has one. */
  function LastPresent(fields: seq<Field>, key: string): Option<string> {
    if fields == [] then None
    else
      var last := fields[|fields| - 1];
      if last.Keyed? && last.key == key && last.value != "" then Some(last.value)
      else LastPresent(fields[..|fields| - 1], key)
  }

  /** The bare texts, in order. */
  function Bares(fields: seq<Field>): seq<string> {
    if fields == [] then []
    else
      var last := fields[|fields| - 1];
      Bares(fields[..|fields| - 1]) + if last.Bare? then [last.text] else []
  }

  function Given(value: Option<string>): string {
    if value.Some? then value.value else ""
  }

  /** A named text wins over the positional one, wherever it stands; an empty one does not. */
  function TextAt(fields: seq<Field>, key: string, position: nat): Option<string> {
    var named, bare := Given(LastValue(fields, key)), Bares(fields);
    if named != "" then Some(named) else if position < |bare| then NonEmpty(bare[position]) else None
  }

  function TurnsAt<N>(codec: Codec<N>, fields: seq<Field>): Option<N> {
    var named, bare := LastValue(fields, "maxTurns"), Bares(fields);
    if named.Some? && codec.parse(named.value).Some? then codec.parse(named.value)
    else if |bare| > 2 then codec.parse(bare[2]) else None
  }

  /** A revision is digits, and not zero. */
  function Revision(value: string): Option<string> {
    if IsDigits(value) && value != "0" then Some(value) else None
  }

  /** Under this name: the last value given to the option; no value, no option. */
  ghost predicate OptionSays(fields: seq<Field>, options: map<string, string>, name: string) {
    (if name in options then Some(options[name]) else None) ==
    if name == "" || name == "__proto__" then None else LastPresent(fields, OPTION + name)
  }

  ghost predicate OptionsSay(fields: seq<Field>, options: map<string, string>) {
    forall name :: OptionSays(fields, options, name)
  }

  /** The member that the head and the fields describe. */
  ghost predicate LineSays<N>(codec: Codec<N>, id: string, agent: string, fields: seq<Field>, m: Member<N>) {
    && m.id == id && m.agent == agent
    && m.role == TextAt(fields, "role", 0) && m.description == TextAt(fields, "description", 1)
    && m.maxTurns == TurnsAt(codec, fields)
    && m.runtimeRef == NonEmpty(Given(LastValue(fields, "runtime")))
    && m.runtimeProfileRevision == Revision(Given(LastValue(fields, "revision")))
    && OptionsSay(fields, m.runtimeOptions)
  }

  // ----- every text has a reading -----

  lemma CutReads(text: string, before: string, after: string)
    requires Cut(text, '=', before, after)
    ensures FieldReads(text, Keyed(Trim(before), Trim(after)))
  {
    TrimMeans(before, Trim(before));
    TrimMeans(after, Trim(after));
  }

  lemma FieldHasReading(text: string) returns (field: Field)
    ensures FieldReads(text, field)
  {
    var i := Find(text, '=');
    if i == |text| {
      field := Bare(text);
    } else {
      CutReads(text, text[..i], text[i + 1..]);
      field := Keyed(Trim(text[..i]), Trim(text[i + 1..]));
    }
  }

  lemma {:induction false} FieldsHaveReading(texts: seq<string>) returns (fields: seq<Field>)
    ensures FieldsRead(texts, fields)
  {
    fields := [];
    if texts != [] {
      var n := |texts| - 1;
      var front := FieldsHaveReading(texts[..n]);
      var last := FieldHasReading(texts[n]);
      fields := front + [last];
    }
  }

  // ----- the field loop gathers what they say -----

  lemma ReadKeyed<N>(codec: Codec<N>, f: Fields<N>, text: string, key: string, value: string)
    requires FieldReads(text, Keyed(key, value))
    ensures ReadField(codec, f, text) == SetField(codec, f, key, value)
  {
    var before, after :| Cut(text, '=', before, after) && Padded(before, key) && Padded(after, value);
    FindAfter(before, '=', after);
    assert text[..|before|] == before && text[|before| + 1..] == after;
    TrimMeans(before, key);
    TrimMeans(after, value);
  }

  /** What a field added last does to the reading of the fields. */
  lemma PushedField(fields: seq<Field>, field: Field, key: string)
    ensures LastValue(fields + [field], key) ==
            if field.Keyed? && field.key == key then Some(field.value) else LastValue(fields, key)
    ensures LastPresent(fields + [field], key) ==
            if field.Keyed? && field.key == key && field.value != "" then Some(field.value) else LastPresent(fields, key)
    ensures Bares(fields + [field]) == Bares(fields) + if field.Bare? then [field.text] else []
  {
    assert (fields + [field])[..|fields|] == fields;
  }

  lemma FixedKeysDiffer()
    ensures "role" != "description" && "role" != "maxTurns" && "role" != "runtime" && "role" != "revision"
    ensures "description" != "maxTurns" && "description" != "runtime" && "description" != "revision"
    ensures "maxTurns" != "runtime" && "maxTurns" != "revision" && "runtime" != "revision"
  {
    assert |"role"| == 4 && |"description"| == 11 && |"runtime"| == 7;
    assert |"maxTurns"| == 8 && |"revision"| == 8 && "maxTurns"[0] == 'm' && "revision"[0] == 'r';
  }

  lemma OptionKeyDiffers(name: string)
    ensures var key := OPTION + name;
            key != "role" && key != "description" && key != "maxTurns" && key != "runtime" && key != "revision"
  {
    assert (OPTION + name)[0] == 'o' && "role"[0] == 'r' && "description"[0] == 'd';
    assert "maxTurns"[0] == 'm' && "runtime"[0] == 'r' && "revision"[0] == 'r';
  }

  lemma OptionNameIs(key: string, name: string)
    ensures OptionName(key) == Some(name) <==> key == OPTION + name && name != "" && name != "__proto__"
  {
    var option := OPTION + name;
    assert option[..|OPTION|] == OPTION && option[|OPTION|..] == name;
    if OptionName(key).Some? { assert key == key[..|OPTION|] + key[|OPTION|..]; }
  }

  lemma FixedKeysAreNoOptions(key: string)
    requires key == "role" || key == "description" || key == "maxTurns" || key == "runtime" || key == "revision"
    ensures OptionName(key) == None
  {
    if OptionName(key).Some? {
      OptionNameIs(key, OptionName(key).value);
      OptionKeyDiffers(OptionName(key).value);
    }
  }

  lemma OptionsSet<N>(codec: Codec<N>, f: Fields<N>, key: string, value: string)
    ensures var name := OptionName(key);
            SetField(codec, f, key, value).options ==
            if name.Some? && value != "" then f.options[name.value := value] else f.options
    ensures SetField(codec, f, key, value).legacy == f.legacy
  {
    if key == "role" || key == "description" || key == "maxTurns" || key == "runtime" || key == "revision" {
      FixedKeysAreNoOptions(key);
    }
  }

  lemma OptionStep(fields: seq<Field>, options: map<string, string>, key: string, value: string, name: string)
    requires OptionSays(fields, options, name)
    ensures var given := OptionName(key);
            OptionSays(fields + [Keyed(key, value)],
                       if given.Some? && value != "" then options[given.value := value] else options, name)
  {
    PushedField(fields, Keyed(key, value), OPTION + name);
    OptionNameIs(key, name);
  }

  lemma OptionsStep<N>(codec: Codec<N>, fields: seq<Field>, f: Fields<N>, key: string, value: string)
    requires OptionsSay(fields, f.options)
    ensures OptionsSay(fields + [Keyed(key, value)], SetField(codec, f, key, value).options)
  {
    OptionsSet(codec, f, key, value);
    forall name ensures OptionSays(fields + [Keyed(key, value)], SetField(codec, f, key, value).options, name) {
      OptionStep(fields, f.options, key, value, name);
    }
  }

  /** The last value under each fixed key, as the field loop keeps it. */
  ghost predicate GathersFixed<N>(codec: Codec<N>, fields: seq<Field>, f: Fields<N>) {
    && f.role == Given(LastValue(fields, "role")) && f.description == Given(LastValue(fields, "description"))
    && f.maxTurns == (var v := LastValue(fields, "maxTurns"); if v.Some? then codec.parse(v.value) else None)
    && f.runtimeRef == NonEmpty(Given(LastValue(fields, "runtime")))
    && f.revision == Revision(Given(LastValue(fields, "revision")))
  }

  lemma FixedStep<N>(codec: Codec<N>, fields: seq<Field>, f: Fields<N>, key: string, value: string)
    requires GathersFixed(codec, fields, f)
    ensures GathersFixed(codec, fields + [Keyed(key, value)], SetField(codec, f, key, value))
  {
    var field := Keyed(key, value);
    FixedKeysDiffer();
    PushedField(fields, field, "role");
    PushedField(fields, field, "description");
    PushedField(fields, field, "maxTurns");
    PushedField(fields, field, "runtime");
    PushedField(fields, field, "revision");
  }

  ghost predicate Gathers<N>(codec: Codec<N>, fields: seq<Field>, f: Fields<N>) {
    && GathersFixed(codec, fields, f) && OptionsSay(fields, f.options) && f.legacy == Bares(fields)
  }

  lemma KeyedStep<N>(codec: Codec<N>, fields: seq<Field>, f: Fields<N>, key: string, value: string)
    requires Gathers(codec, fields, f)
    ensures Gathers(codec, fields + [Keyed(key, value)], SetField(codec, f, key, value))
  {
    FixedStep(codec, fields, f, key, value);
    OptionsStep(codec, fields, f, key, value);
    OptionsSet(codec, f, key, value);
    PushedField(fields, Keyed(key, value), key);
  }

  lemma FindAbsent(s: string, c: char)
    requires c !in s
    ensures Find(s, c) == |s|
  {
  }

  lemma BareStep<N>(codec: Codec<N>, fields: seq<Field>, f: Fields<N>, text: string)
    requires Gathers(codec, fields, f) && FieldReads(text, Bare(text))
    ensures Gathers(codec, fields + [Bare(text)], ReadField(codec, f, text))
  {
    FindAbsent(text, '=');
    PushedField(fields, Bare(text), "role");
    PushedField(fields, Bare(text), "description");
    PushedField(fields, Bare(text), "maxTurns");
    PushedField(fields, Bare(text), "runtime");
    PushedField(fields, Bare(text), "revision");
    forall name ensures OptionSays(fields + [Bare(text)], f.options, name) {
      assert OptionSays(fields, f.options, name);
      PushedField(fields, Bare(text), OPTION + name);
    }
  }

  lemma FieldStep<N>(codec: Codec<N>, fields: seq<Field>, f: Fields<N>, text: string, field: Field)
    requires Gathers(codec, fields, f) && FieldReads(text, field)
    ensures Gathers(codec, fields + [field], ReadField(codec, f, text))
  {
    match field
    case Keyed(key, value) =>
      ReadKeyed(codec, f, text, key, value);
      KeyedStep(codec, fields, f, key, value);
    case Bare(bare) =>
      BareStep(codec, fields, f, text);
  }

  lemma {:induction false} ReadFieldsPush<N>(codec: Codec<N>, f: Fields<N>, texts: seq<string>, text: string)
    ensures ReadFields(codec, f, texts + [text]) == ReadField(codec, ReadFields(codec, f, texts), text)
    decreases |texts|
  {
    if texts == [] {
      assert (texts + [text])[1..] == [];
    } else {
      assert (texts + [text])[1..] == texts[1..] + [text];
      ReadFieldsPush(codec, ReadField(codec, f, texts[0]), texts[1..], text);
    }
  }

  lemma NothingGathered<N>(codec: Codec<N>)
    ensures Gathers(codec, [], NoFields())
  {
    forall name ensures OptionSays([], map[], name) {}
  }

  lemma {:induction false} LoopGathers<N>(codec: Codec<N>, texts: seq<string>, fields: seq<Field>)
    requires FieldsRead(texts, fields)
    ensures Gathers(codec, fields, ReadFields(codec, NoFields(), texts))
    decreases |texts|
  {
    if texts == [] {
      NothingGathered(codec);
    } else {
      var n := |texts| - 1;
      assert texts == texts[..n] + [texts[n]] && fields == fields[..n] + [fields[n]];
      LoopGathers(codec, texts[..n], fields[..n]);
      FieldStep(codec, fields[..n], ReadFields(codec, NoFields(), texts[..n]), texts[n], fields[n]);
      ReadFieldsPush(codec, NoFields(), texts[..n], texts[n]);
    }
  }
}
