/** What a team text says, for every text: which members it gives, and each one's fields. */
module TeamLine {
  import opened Sequences
  import opened Text
  import opened TeamText
  import opened TeamFields
  import TeamParser

  /** `id: agent`; without a colon, or with nothing after it, the agent is the id. */
  ghost predicate HeadReads(head: string, id: string, agent: string) {
    || (':' !in head && Padded(head, id) && agent == id)
    || exists before, after ::
         Cut(head, ':', before, after) && Padded(before, id) && Padded(if after == "" then before else after, agent)
  }

  /** The line is cut at every bar, and each piece is a part with blanks around it. */
  ghost predicate Bars(line: string, pieces: seq<string>, parts: seq<string>) {
    && |pieces| == |parts| > 0 && Join(pieces, ['|']) == line
    && forall i :: 0 <= i < |parts| ==> '|' !in pieces[i] && Padded(pieces[i], parts[i])
  }

  /** A line, taken apart. */
  datatype Reading = Reading(pieces: seq<string>, parts: seq<string>, id: string, agent: string, fields: seq<Field>)

  ghost predicate LineReads(line: string, r: Reading) {
    && Bars(line, r.pieces, r.parts)
    && HeadReads(r.parts[0], r.id, r.agent)
    && FieldsRead(r.parts[1..], r.fields)
  }

  // ----- every line has a reading -----

  lemma CutHeadReads(head: string, before: string, after: string)
    requires Cut(head, ':', before, after)
    ensures HeadReads(head, Trim(before), Trim(if after == "" then before else after))
  {
    var second := if after == "" then before else after;
    TrimMeans(before, Trim(before));
    TrimMeans(second, Trim(second));
  }

  lemma HeadHasReading(head: string) returns (id: string, agent: string)
    ensures HeadReads(head, id, agent)
  {
    var i := Find(head, ':');
    if i == |head| {
      id, agent := Trim(head), Trim(head);
      TrimMeans(head, id);
    } else {
      var before, after := head[..i], head[i + 1..];
      CutHeadReads(head, before, after);
      id, agent := Trim(before), Trim(if after == "" then before else after);
    }
  }

  lemma SplitBars(line: string)
    ensures Bars(line, Split(line, '|'), TrimAll(Split(line, '|')))
  {
    var pieces := Split(line, '|');
    JoinSplit(line, '|');
    SplitWithin(line, '|');
    forall i | 0 <= i < |pieces| ensures Padded(pieces[i], Trim(pieces[i])) {
      TrimMeans(pieces[i], Trim(pieces[i]));
    }
  }

  lemma LineHasReading(line: string) returns (r: Reading)
    ensures LineReads(line, r)
  {
    SplitBars(line);
    var parts := TrimAll(Split(line, '|'));
    var id, agent := HeadHasReading(parts[0]);
    var fields := FieldsHaveReading(parts[1..]);
    r := Reading(Split(line, '|'), parts, id, agent, fields);
  }

  // ----- and one meaning -----

  lemma BarsAreSplit(line: string, pieces: seq<string>, parts: seq<string>)
    requires Bars(line, pieces, parts)
    ensures TrimAll(Split(line, '|')) == parts
  {
    SplitJoin(pieces, '|');
    forall i | 0 <= i < |parts| ensures Trim(pieces[i]) == parts[i] { TrimMeans(pieces[i], parts[i]); }
  }

  lemma HeadCut(head: string, before: string, after: string)
    requires Cut(head, ':', before, after)
    ensures SplitHead(head) == (before, after)
  {
    FindAfter(before, ':', after);
    assert head[..|before|] == before && head[|before| + 1..] == after;
  }

  lemma HeadSplits(head: string, id: string, agent: string)
    requires HeadReads(head, id, agent)
    ensures var (idPart, agentPart) := SplitHead(head); Trim(idPart) == id && Trim(OrText(agentPart, idPart)) == agent
  {
    if ':' !in head && Padded(head, id) && agent == id {
      TrimMeans(head, id);
    } else {
      var before, after :|
        Cut(head, ':', before, after) && Padded(before, id) && Padded(if after == "" then before else after, agent);
      HeadCut(head, before, after);
      TrimMeans(before, id);
      TrimMeans(if after == "" then before else after, agent);
    }
  }

  lemma ReadLineSays<N>(codec: Codec<N>, line: string, r: Reading)
    requires LineReads(line, r)
    ensures LineSays(codec, r.id, r.agent, r.fields, ReadLine(codec, line))
  {
    BarsAreSplit(line, r.pieces, r.parts);
    LoopGathers(codec, r.parts[1..], r.fields);
    HeadSplits(r.parts[0], r.id, r.agent);
  }

  // ----- whole texts -----

  lemma OneLine<N>(codec: Codec<N>, text: string)
    requires '\n' !in text
    ensures Parse(codec, text) == TeamParser.FromLine(codec, Trim(text))
  {
    var line := Trim(text);
    assert SplitLines(text) == [text] && TrimAll([text]) == [line];
    assert WithoutEmpty([line]) == if line == "" then [] else [line];
    assert ReadLines(codec, [line]) == if Named(ReadLine(codec, line)) then [ReadLine(codec, line)] else [];
  }

  /** The blank text reads as a line with no id. */
  lemma BlankHasNoId(line: string, r: Reading)
    requires LineReads(line, r) && line == ""
    ensures r.id == ""
  {
    BarsAreSplit(line, r.pieces, r.parts);
    HeadSplits(r.parts[0], r.id, r.agent);
  }

  /**
   A line gives one member if it has an id and an agent, and otherwise none. The member
   is what the head and the fields say: named fields, the last one winning; options by
   name; positional role, description and turns where no named one is given.
   */
  lemma LineMeans<N>(codec: Codec<N>, text: string, line: string, r: Reading)
    requires '\n' !in text && Padded(text, line) && LineReads(line, r)
    ensures var members := Parse(codec, text);
            if r.id != "" && r.agent != "" then
              |members| == 1 && LineSays(codec, r.id, r.agent, r.fields, members[0])
            else members == []
  {
    TrimMeans(text, line);
    OneLine(codec, text);
    ReadLineSays(codec, line, r);
    if line == "" { BlankHasNoId(line, r); }
  }

  lemma TextHasReading(text: string) returns (line: string, r: Reading)
    ensures Padded(text, line) && LineReads(line, r)
  {
    line := Trim(text);
    TrimMeans(text, line);
    r := LineHasReading(line);
  }

  lemma {:induction false} FromLinesConcat<N>(codec: Codec<N>, a: seq<string>, b: seq<string>)
    ensures TeamParser.FromLines(codec, a + b) == TeamParser.FromLines(codec, a) + TeamParser.FromLines(codec, b)
  {
    if a == [] {
      assert a + b == b;
    } else {
      assert (a + b)[0] == a[0] && (a + b)[1..] == a[1..] + b;
      FromLinesConcat(codec, a[1..], b);
    }
  }

  lemma {:induction false} FromLinesSame<N>(codec: Codec<N>, a: seq<string>, b: seq<string>)
    requires |a| == |b| && forall i :: 0 <= i < |a| ==> Trim(a[i]) == Trim(b[i])
    ensures TeamParser.FromLines(codec, a) == TeamParser.FromLines(codec, b)
  {
    if a != [] { FromLinesSame(codec, a[1..], b[1..]); }
  }

  lemma ReturnChopped(line: string)
    ensures Trim(ChopReturn(line)) == Trim(line)
  {
    var chopped := ChopReturn(line);
    if chopped != line {
      assert line == chopped + "\r";
      TrimMeans(chopped, Trim(chopped));
      var before, after :| Blank(before) && Blank(after) && chopped == before + Trim(chopped) + after;
      assert line == before + Trim(chopped) + (after + "\r");
      TrimPadded(before, Trim(chopped), after + "\r");
    }
  }

  lemma ParseByLine<N>(codec: Codec<N>, text: string)
    ensures Parse(codec, text) == TeamParser.FromLines(codec, Split(text, '\n'))
  {
    var pieces := Split(text, '\n');
    forall i | 0 <= i < |pieces| ensures Trim(SplitLines(text)[i]) == Trim(pieces[i]) { ReturnChopped(pieces[i]); }
    FromLinesSame(codec, SplitLines(text), pieces);
    TeamParser.FromLinesIsReadLines(codec, SplitLines(text));
  }

  lemma Regroup(first: string, c: char, rest: string, b: string)
    ensures first + [c] + rest + [c] + b == first + [c] + (rest + [c] + b)
  {
  }

  lemma {:induction false} SplitConcat(a: string, c: char, b: string)
    ensures Split(a + [c] + b, c) == Split(a, c) + Split(b, c)
    decreases |a|
  {
    if c in a {
      var first, rest := SplitStep(a, c);
      SplitConcat(rest, c, b);
      Regroup(first, c, rest, b);
      SplitFirst(first, c, rest + [c] + b);
      ConcatAssociates([first], Split(rest, c), Split(b, c));
    } else {
      SplitFirst(a, c, b);
    }
  }

  /** The members of a text are those of its lines, in order. */
  lemma ParseConcat<N>(codec: Codec<N>, a: string, b: string)
    ensures Parse(codec, a + "\n" + b) == Parse(codec, a) + Parse(codec, b)
  {
    assert a + "\n" + b == a + ['\n'] + b;
    SplitConcat(a, '\n', b);
    ParseByLine(codec, a + "\n" + b);
    ParseByLine(codec, a);
    ParseByLine(codec, b);
    FromLinesConcat(codec, Split(a, '\n'), Split(b, '\n'));
  }

  // ----- the older positional lines -----

  function AsBares(texts: seq<string>): (fields: seq<Field>)
    ensures |fields| == |texts| && forall i :: 0 <= i < |texts| ==> fields[i] == Bare(texts[i])
  {
    seq(|texts|, i requires 0 <= i < |texts| => Bare(texts[i]))
  }

  lemma {:induction false} OnlyBares(texts: seq<string>, key: string)
    ensures Bares(AsBares(texts)) == texts
    ensures LastValue(AsBares(texts), key) == None && LastPresent(AsBares(texts), key) == None
    decreases |texts|
  {
    if texts != [] {
      var front, last := texts[..|texts| - 1], texts[|texts| - 1];
      OnlyBares(front, key);
      assert AsBares(texts) == AsBares(front) + [Bare(last)] && texts == front + [last];
      PushedField(AsBares(front), Bare(last), key);
    }
  }

  /** The member of a positional line. */
  function Positional<N>(codec: Codec<N>, id: string, agent: string, texts: seq<string>): Member<N> {
    Member(id, agent, None, map[], None,
           if |texts| > 0 then Some(texts[0]) else None,
           if |texts| > 1 then Some(texts[1]) else None,
           if |texts| > 2 then codec.parse(texts[2]) else None)
  }

  lemma BaresSay<N>(codec: Codec<N>, id: string, agent: string, texts: seq<string>, m: Member<N>)
    requires LineSays(codec, id, agent, AsBares(texts), m) && forall i :: 0 <= i < |texts| ==> texts[i] != ""
    ensures m == Positional(codec, id, agent, texts)
  {
    OnlyBares(texts, "role");
    OnlyBares(texts, "description");
    OnlyBares(texts, "maxTurns");
    OnlyBares(texts, "runtime");
    OnlyBares(texts, "revision");
    forall name ensures name !in m.runtimeOptions {
      OnlyBares(texts, OPTION + name);
      assert OptionSays(AsBares(texts), m.runtimeOptions, name);
    }
    assert m.runtimeOptions == map[];
  }

  lemma PositionalPlain(id: string, agent: string, texts: seq<string>)
    requires Clean(id) && ':' !in id && Clean(agent)
    requires forall i :: 0 <= i < |texts| ==> Clean(texts[i]) && '=' !in texts[i]
    ensures var parts := [id + ": " + agent] + texts; forall i :: 0 <= i < |parts| ==> PlainPart(parts[i]) && '\n' !in parts[i]
  {
    var head := id + ": " + agent;
    assert head[0] == id[0] && head[|head| - 1] == agent[|agent| - 1];
  }

  lemma PlainLine(parts: seq<string>)
    requires parts != [] && forall i :: 0 <= i < |parts| ==> PlainPart(parts[i]) && '\n' !in parts[i]
    ensures var line := Join(parts, " | ");
            Trimmed(line) && '\n' !in line && Bars(line, Split(line, '|'), parts)
  {
    var line := Join(parts, " | ");
    JoinEnds(parts, " | ");
    JoinWithin(parts, " | ", '\n');
    SplitPadded("", parts);
    assert "" + line == line;
    SplitBars(line);
  }

  lemma HeadIs(id: string, agent: string)
    requires Clean(id) && ':' !in id && Clean(agent)
    ensures HeadReads(id + ": " + agent, id, agent)
  {
    var before, after := id, " " + agent;
    assert id + ": " + agent == before + [':'] + after;
    assert Cut(id + ": " + agent, ':', before, after);
    TrimFixed(id);
    TrimMeans(before, id);
    assert after == " " + agent + "";
    TrimPadded(" ", agent, "");
    TrimMeans(after, agent);
  }

  lemma BaresRead(texts: seq<string>)
    requires forall i :: 0 <= i < |texts| ==> Clean(texts[i]) && '=' !in texts[i]
    ensures FieldsRead(texts, AsBares(texts))
  {
  }

  /** How a positional line is taken apart. */
  ghost function PositionalReading(id: string, agent: string, texts: seq<string>): Reading {
    var parts := [id + ": " + agent] + texts;
    Reading(Split(Join(parts, " | "), '|'), parts, id, agent, AsBares(texts))
  }

  lemma PositionalReads(id: string, agent: string, texts: seq<string>)
    requires Clean(id) && ':' !in id && Clean(agent)
    requires forall i :: 0 <= i < |texts| ==> Clean(texts[i]) && '=' !in texts[i]
    ensures var line := Join([id + ": " + agent] + texts, " | ");
            '\n' !in line && Padded(line, line) && LineReads(line, PositionalReading(id, agent, texts))
  {
    var parts := [id + ": " + agent] + texts;
    var line := Join(parts, " | ");
    PositionalPlain(id, agent, texts);
    PlainLine(parts);
    HeadIs(id, agent);
    assert parts[1..] == texts;
    BaresRead(texts);
    TrimFixed(line);
    TrimMeans(line, line);
  }

  /** `id: agent | role | description | turns`, or as many of these as are written. */
  lemma PositionalLine<N>(codec: Codec<N>, id: string, agent: string, texts: seq<string>)
    requires Clean(id) && ':' !in id && Clean(agent)
    requires forall i :: 0 <= i < |texts| ==> Clean(texts[i]) && '=' !in texts[i]
    ensures Parse(codec, Join([id + ": " + agent] + texts, " | ")) == [Positional(codec, id, agent, texts)]
  {
    var line := Join([id + ": " + agent] + texts, " | ");
    PositionalReads(id, agent, texts);
    LineMeans(codec, line, line, PositionalReading(id, agent, texts));
    BaresSay(codec, id, agent, texts, Parse(codec, line)[0]);
  }

  // ----- a named field wins wherever it stands -----

  lemma {:induction false} LastOneWins(fields: seq<Field>, i: nat, key: string, value: string)
    requires i < |fields| && fields[i] == Keyed(key, value)
    requires forall j :: i < j < |fields| ==> !(fields[j].Keyed? && fields[j].key == key)
    ensures LastValue(fields, key) == Some(value)
  {
    if i < |fields| - 1 { LastOneWins(fields[..|fields| - 1], i, key, value); }
  }

  /** A non-empty named role or description, or a named number of turns, stands whatever else the line has. */
  lemma NamedWins<N>(codec: Codec<N>, text: string, line: string, r: Reading, i: nat)
    requires '\n' !in text && Padded(text, line) && LineReads(line, r) && r.id != "" && r.agent != ""
    requires i < |r.fields| && r.fields[i].Keyed? && r.fields[i].value != ""
    requires forall j :: i < j < |r.fields| ==> !(r.fields[j].Keyed? && r.fields[j].key == r.fields[i].key)
    ensures var members, key, value := Parse(codec, text), r.fields[i].key, r.fields[i].value;
            && |members| == 1
            && (key == "role" ==> members[0].role == Some(value))
            && (key == "description" ==> members[0].description == Some(value))
            && (key == "maxTurns" && codec.parse(value).Some? ==> members[0].maxTurns == codec.parse(value))
  {
    LineMeans(codec, text, line, r);
    LastOneWins(r.fields, i, r.fields[i].key, r.fields[i].value);
  }
}
