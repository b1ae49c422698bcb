/**
 The editable text of a team: one member a line, named fields between bars,
 and the older positional fields still readable. Numbers are read and shown by
 a codec, as JavaScript's `Number` and `String` do.
 */
module TeamText {
  import opened Sequences
  import opened Text
  import StringOrder

  /** `parse` is `Number(text)` when that is finite and positive; `show` is `String(number)`. */
  datatype Codec<!N> = Codec(parse: string -> Option<N>, show: N -> string)

  datatype Member<+N> = Member(
    id: string,
    agent: string,
    runtimeRef: Option<string>,
    runtimeOptions: map<string, string>,
    runtimeProfileRevision: Option<string>,
    role: Option<string>,
    description: Option<string>,
    maxTurns: Option<N>)

  /** What the field loop has gathered. */
  datatype Fields<+N> = Fields(
    role: string,
    description: string,
    maxTurns: Option<N>,
    runtimeRef: Option<string>,
    revision: Option<string>,
    options: map<string, string>,
    legacy: seq<string>)

  function NoFields<N>(): Fields<N> {
    Fields("", "", None, None, None, map[], [])
  }

  // ----- reading -----

  function NonEmpty(s: string): Option<string> {
    if s == "" then None else Some(s)
  }

  function OrText(a: string, b: string): string {
    if a != "" then a else b
  }

  predicate IsDigits(s: string) {
    s != "" && forall i :: 0 <= i < |s| ==> '0' <= s[i] <= '9'
  }

  const OPTION := "option."

  /** The option name in a key `option.<name>`; assigning `__proto__` on a plain object stores nothing. */
  function OptionName(key: string): Option<string> {
    if |key| > |OPTION| && key[..|OPTION|] == OPTION && key[|OPTION|..] != "__proto__" then Some(key[|OPTION|..])
    else None
  }

  function SetField<N>(codec: Codec<N>, f: Fields<N>, key: string, value: string): Fields<N> {
    if key == "role" then f.(role := value)
    else if key == "description" then f.(description := value)
    else if key == "maxTurns" then f.(maxTurns := codec.parse(value))
    else if key == "runtime" then f.(runtimeRef := NonEmpty(value))
    else if key == "revision" then
      f.(revision := if IsDigits(value) && value != "0" then Some(value) else None)
    else if OptionName(key).Some? && value != "" then f.(options := f.options[OptionName(key).value := value])
    else f
  }

  function ReadField<N>(codec: Codec<N>, f: Fields<N>, field: string): Fields<N> {
    var separator := Find(field, '=');
    if separator == |field| then f.(legacy := f.legacy + [field])
    else SetField(codec, f, Trim(field[..separator]), Trim(field[separator + 1..]))
  }

  function ReadFields<N>(codec: Codec<N>, f: Fields<N>, fields: seq<string>): Fields<N>
    decreases |fields|
  {
    if fields == [] then f else ReadFields(codec, ReadField(codec, f, fields[0]), fields[1..])
  }

  /** The parts of a head `id: agent`; without a colon both are the head. */
  function SplitHead(head: string): (string, string) {
    var colon := Find(head, ':');
    if colon == |head| then (head, head) else (head[..colon], head[colon + 1..])
  }

  function MakeMember<N>(codec: Codec<N>, head: string, f: Fields<N>): Member<N> {
    var (idPart, agentPart) := SplitHead(head);
    Member(
      Trim(idPart),
      Trim(OrText(agentPart, idPart)),
      f.runtimeRef,
      f.options,
      f.revision,
      NonEmpty(if |f.legacy| > 0 then OrText(f.role, f.legacy[0]) else f.role),
      NonEmpty(if |f.legacy| > 1 then OrText(f.description, f.legacy[1]) else f.description),
      if |f.legacy| > 2 && f.maxTurns.None? then codec.parse(f.legacy[2]) else f.maxTurns)
  }

  function ReadLine<N>(codec: Codec<N>, line: string): Member<N> {
    var parts := TrimAll(Split(line, '|'));
    MakeMember(codec, parts[0], ReadFields(codec, NoFields(), parts[1..]))
  }

  predicate Named<N>(m: Member<N>) {
    m.id != "" && m.agent != ""
  }

  function ReadLines<N>(codec: Codec<N>, lines: seq<string>): seq<Member<N>> {
    if lines == [] then []
    else
      var m := ReadLine(codec, lines[0]);
      (if Named(m) then [m] else []) + ReadLines(codec, lines[1..])
  }

  function ChopReturn(line: string): string {
    if line != "" && line[|line| - 1] == '\r' then line[..|line| - 1] else line
  }

  /** `split(/\r?\n/)`. */
  function SplitLines(text: string): (lines: seq<string>)
    ensures |lines| > 0
  {
    var pieces := Split(text, '\n');
    seq(|pieces|, i requires 0 <= i < |pieces| => if i < |pieces| - 1 then ChopReturn(pieces[i]) else pieces[i])
  }

  /** `parseTeamMembersText`. */
  function Parse<N>(codec: Codec<N>, text: string): seq<Member<N>> {
    ReadLines(codec, WithoutEmpty(TrimAll(SplitLines(text))))
  }

  // ----- writing -----

  function NamedField(name: string, value: string): string {
    if value == "" then "" else name + "=" + value
  }

  function OrEmpty(s: Option<string>): string {
    if s.Some? then s.value else ""
  }

  function ShowTurns<N>(codec: Codec<N>, turns: Option<N>): string {
    if turns.Some? then codec.show(turns.value) else ""
  }

  function OptionFields(options: map<string, string>, keys: seq<string>): seq<string>
    requires forall k :: k in keys ==> k in options
  {
    if keys == [] then []
    else [NamedField(OPTION + keys[0], options[keys[0]])] + OptionFields(options, keys[1..])
  }

  function FixedFields<N>(codec: Codec<N>, m: Member<N>): seq<string> {
    [ NamedField("role", OrEmpty(m.role)),
      NamedField("description", OrEmpty(m.description)),
      NamedField("maxTurns", ShowTurns(codec, m.maxTurns)),
      NamedField("runtime", OrEmpty(m.runtimeRef)),
      NamedField("revision", OrEmpty(m.runtimeProfileRevision)) ]
  }

  function Base<N>(m: Member<N>): string {
    m.id + ": " + m.agent
  }

  function AllFields<N>(codec: Codec<N>, m: Member<N>): seq<string> {
    FixedFields(codec, m) + OptionFields(m.runtimeOptions, StringOrder.Listing(m.runtimeOptions.Keys))
  }

  function WriteMember<N>(codec: Codec<N>, m: Member<N>): string {
    var tail := WithoutEmpty(AllFields(codec, m));
    if tail != [] then Base(m) + " | " + Join(tail, " | ") else Base(m)
  }

  function WriteMembers<N>(codec: Codec<N>, members: seq<Member<N>>): (lines: seq<string>)
    ensures |lines| == |members| && forall i :: 0 <= i < |lines| ==> lines[i] == WriteMember(codec, members[i])
  {
    seq(|members|, i requires 0 <= i < |members| => WriteMember(codec, members[i]))
  }

  /** `teamMembersText`. */
  function Print<N>(codec: Codec<N>, members: seq<Member<N>>): string {
    Join(WriteMembers(codec, members), "\n")
  }

  // ----- well-formed members -----

  /** A text that fits in one field. */
  ghost predicate Fits(s: string) {
    Trimmed(s) && '|' !in s && '\n' !in s
  }

  ghost predicate Clean(s: string) {
    s != "" && Fits(s)
  }

  ghost predicate OptionFits(key: string, value: string) {
    && key != "" && !IsSpace(key[|key| - 1]) && '=' !in key && '|' !in key && '\n' !in key && key != "__proto__"
    && Clean(value)
  }

  ghost predicate OptionsFit(options: map<string, string>) {
    forall k :: k in options ==> OptionFits(k, options[k])
  }

  ghost predicate RevisionFits(revision: Option<string>) {
    revision.Some? ==> IsDigits(revision.value) && revision.value != "0"
  }

  ghost predicate WellFormed<N>(m: Member<N>) {
    && Clean(m.id) && ':' !in m.id && Clean(m.agent)
    && (m.role.Some? ==> Clean(m.role.value))
    && (m.description.Some? ==> Clean(m.description.value))
    && (m.runtimeRef.Some? ==> Clean(m.runtimeRef.value))
    && RevisionFits(m.runtimeProfileRevision)
    && OptionsFit(m.runtimeOptions)
  }

  ghost predicate AllWellFormed<N>(members: seq<Member<N>>) {
    forall i :: 0 <= i < |members| ==> WellFormed(members[i])
  }

  /** What JavaScript promises of positive numbers: their text reads back, and fits in a field. */
  ghost predicate Lawful<N(!new)>(codec: Codec<N>) {
    forall n: N :: codec.parse(codec.show(n)) == Some(n) && Clean(codec.show(n))
  }

  // ----- everything read is well formed -----

  ghost predicate FieldsFit<N>(f: Fields<N>) {
    && Fits(f.role) && Fits(f.description)
    && (f.runtimeRef.Some? ==> Clean(f.runtimeRef.value))
    && RevisionFits(f.revision)
    && OptionsFit(f.options)
    && (forall i :: 0 <= i < |f.legacy| ==> Fits(f.legacy[i]))
  }

  lemma TrimmedPieceFits(piece: string, line: string)
    requires Within(piece, line) && '|' !in line && '\n' !in line
    ensures Fits(Trim(piece))
  {
    TrimFacts(piece);
  }

  lemma ReadFieldFits<N>(codec: Codec<N>, f: Fields<N>, field: string)
    requires FieldsFit(f) && Fits(field)
    ensures FieldsFit(ReadField(codec, f, field))
  {
    var separator := Find(field, '=');
    if separator < |field| {
      var key, value := Trim(field[..separator]), Trim(field[separator + 1..]);
      TrimmedPieceFits(field[..separator], field);
      TrimmedPieceFits(field[separator + 1..], field);
      TrimFacts(field[..separator]);
      SetFieldFits(codec, f, key, value);
    }
  }

  lemma OptionFieldFits(options: map<string, string>, key: string, value: string)
    requires OptionsFit(options) && Fits(key) && '=' !in key && Clean(value) && OptionName(key).Some?
    ensures OptionsFit(options[OptionName(key).value := value])
  {
    var name := OptionName(key).value;
    assert key[|key| - 1] == name[|name| - 1];
    assert OptionFits(name, value);
  }

  lemma TextFieldsFit<N>(f: Fields<N>, value: string)
    requires FieldsFit(f) && Fits(value)
    ensures FieldsFit(f.(role := value)) && FieldsFit(f.(description := value))
    ensures FieldsFit(f.(runtimeRef := NonEmpty(value)))
    ensures FieldsFit(f.(revision := if IsDigits(value) && value != "0" then Some(value) else None))
  {
  }

  lemma SetFieldFits<N>(codec: Codec<N>, f: Fields<N>, key: string, value: string)
    requires FieldsFit(f) && Fits(key) && '=' !in key && Fits(value)
    ensures FieldsFit(SetField(codec, f, key, value))
  {
    TextFieldsFit(f, value);
    if OptionName(key).Some? && value != "" {
      OptionFieldFits(f.options, key, value);
      assert FieldsFit(f.(options := f.options[OptionName(key).value := value]));
    }
    assert FieldsFit(f.(maxTurns := codec.parse(value)));
  }

  lemma {:induction false} ReadFieldsFits<N>(codec: Codec<N>, f: Fields<N>, fields: seq<string>)
    requires FieldsFit(f) && forall i :: 0 <= i < |fields| ==> Fits(fields[i])
    ensures FieldsFit(ReadFields(codec, f, fields))
    decreases |fields|
  {
    if fields != [] {
      ReadFieldFits(codec, f, fields[0]);
      ReadFieldsFits(codec, ReadField(codec, f, fields[0]), fields[1..]);
    }
  }

  lemma MakeMemberFits<N>(codec: Codec<N>, head: string, f: Fields<N>)
    requires Fits(head) && FieldsFit(f)
    ensures var m := MakeMember(codec, head, f); Named(m) ==> WellFormed(m)
  {
    var colon := Find(head, ':');
    TrimFacts(head[..colon]);
    TrimmedPieceFits(head[..colon], head);
    if colon < |head| {
      TrimmedPieceFits(head[colon + 1..], head);
    } else {
      assert head[..colon] == head;
    }
  }

  lemma ReadLineFits<N>(codec: Codec<N>, line: string)
    requires '\n' !in line
    ensures Named(ReadLine(codec, line)) ==> WellFormed(ReadLine(codec, line))
  {
    var pieces := Split(line, '|');
    var parts := TrimAll(pieces);
    SplitWithin(line, '|');
    forall i | 0 <= i < |parts| ensures Fits(parts[i]) {
      TrimFacts(pieces[i]);
    }
    ReadFieldsFits(codec, NoFields<N>(), parts[1..]);
    MakeMemberFits(codec, parts[0], ReadFields(codec, NoFields(), parts[1..]));
  }

  lemma {:induction false} ReadLinesFits<N>(codec: Codec<N>, lines: seq<string>)
    requires forall i :: 0 <= i < |lines| ==> '\n' !in lines[i]
    ensures AllWellFormed(ReadLines(codec, lines))
  {
    if lines != [] {
      ReadLineFits(codec, lines[0]);
      ReadLinesFits(codec, lines[1..]);
    }
  }

  /** Whatever the text, every member read from it is well formed. */
  lemma ParseGivesWellFormed<N>(codec: Codec<N>, text: string)
    ensures AllWellFormed(Parse(codec, text))
  {
    var lines := SplitLines(text);
    SplitWithin(text, '\n');
    forall i | 0 <= i < |lines| ensures '\n' !in TrimAll(lines)[i] {
      TrimFacts(lines[i]);
    }
    ReadLinesFits(codec, WithoutEmpty(TrimAll(lines)));
  }
}
