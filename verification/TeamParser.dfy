/** The reading loop of `parseTeamMembersText`, and decimal numbers as its codec. */
module TeamParser {
  import opened Sequences
  import opened Text
  import opened TeamText

  method GatherFields<N>(codec: Codec<N>, fields: seq<string>) returns (gathered: Fields<N>)
    ensures gathered == ReadFields(codec, NoFields(), fields)
  {
    var role, description := "", "";
    var maxTurns: Option<N>, runtimeRef, revision := None, None, None;
    var options: map<string, string> := map[];
    var legacy: seq<string> := [];
    for i := 0 to |fields|
      invariant ReadFields(codec, Fields(role, description, maxTurns, runtimeRef, revision, options, legacy), fields[i..])
        == ReadFields(codec, NoFields(), fields)
    {
      var field := fields[i];
      assert fields[i..][0] == field && fields[i..][1..] == fields[i + 1..];
      var separator := Find(field, '=');
      if separator == |field| {
        legacy := legacy + [field];
        continue;
      }
      var key, value := Trim(field[..separator]), Trim(field[separator + 1..]);
      if key == "role" {
        role := value;
      } else if key == "description" {
        description := value;
      } else if key == "maxTurns" {
        maxTurns := codec.parse(value);
      } else if key == "runtime" {
        runtimeRef := NonEmpty(value);
      } else if key == "revision" {
        revision := if IsDigits(value) && value != "0" then Some(value) else None;
      } else if OptionName(key).Some? && value != "" {
        options := options[OptionName(key).value := value];
      }
    }
    gathered := Fields(role, description, maxTurns, runtimeRef, revision, options, legacy);
  }

  /** The head split at its colon, and positional fields standing in for missing named ones. */
  method BuildMember<N>(codec: Codec<N>, head: string, fields: Fields<N>) returns (member: Member<N>)
    ensures member == MakeMember(codec, head, fields)
  {
    var idPart, agentPart := head, head;
    var colon := Find(head, ':');
    if colon < |head| {
      idPart, agentPart := head[..colon], head[colon + 1..];
    }
    var Fields(role, description, maxTurns, runtimeRef, revision, options, legacy) := fields;
    if |legacy| > 0 && role == "" {
      role := legacy[0];
    }
    if |legacy| > 1 && description == "" {
      description := legacy[1];
    }
    if |legacy| > 2 && maxTurns.None? {
      maxTurns := codec.parse(legacy[2]);
    }
    var agent := if agentPart != "" then agentPart else idPart;
    member := Member(Trim(idPart), Trim(agent), runtimeRef, options, revision,
                     NonEmpty(role), NonEmpty(description), maxTurns);
  }

  /** The member a trimmed line gives, if it gives one. */
  function FromLine<N>(codec: Codec<N>, line: string): seq<Member<N>> {
    if line != "" && Named(ReadLine(codec, line)) then [ReadLine(codec, line)] else []
  }

  method ReadMember<N>(codec: Codec<N>, line: string) returns (found: seq<Member<N>>)
    ensures found == FromLine(codec, line)
  {
    if line == "" {
      return [];
    }
    var parts := TrimAll(Split(line, '|'));
    var fields := GatherFields(codec, parts[1..]);
    var member := BuildMember(codec, parts[0], fields);
    assert member == ReadLine(codec, line);
    found := if Named(member) then [member] else [];
  }

  /** The members of a list of lines, line by line. */
  function FromLines<N>(codec: Codec<N>, lines: seq<string>): seq<Member<N>> {
    if lines == [] then [] else FromLine(codec, Trim(lines[0])) + FromLines(codec, lines[1..])
  }

  lemma PresentFirst(lines: seq<string>)
    requires lines != []
    ensures WithoutEmpty(TrimAll(lines)) ==
            (if Trim(lines[0]) == "" then [] else [Trim(lines[0])]) + WithoutEmpty(TrimAll(lines[1..]))
  {
    assert TrimAll(lines)[0] == Trim(lines[0]) && TrimAll(lines)[1..] == TrimAll(lines[1..]);
  }

  lemma ReadLinesFirst<N>(codec: Codec<N>, line: string, rest: seq<string>)
    requires line != ""
    ensures ReadLines(codec, [line] + rest) == FromLine(codec, line) + ReadLines(codec, rest)
  {
    assert ([line] + rest)[1..] == rest;
  }

  lemma {:induction false} FromLinesIsReadLines<N>(codec: Codec<N>, lines: seq<string>)
    ensures FromLines(codec, lines) == ReadLines(codec, WithoutEmpty(TrimAll(lines)))
  {
    if lines != [] {
      var line, rest := Trim(lines[0]), WithoutEmpty(TrimAll(lines[1..]));
      FromLinesIsReadLines(codec, lines[1..]);
      PresentFirst(lines);
      if line == "" {
        assert [] + rest == rest;
      } else {
        ReadLinesFirst(codec, line, rest);
      }
    }
  }

  method ReadAll<N>(codec: Codec<N>, lines: seq<string>) returns (members: seq<Member<N>>)
    ensures members == FromLines(codec, lines)
  {
    members := [];
    var rest := lines;
    while rest != []
      invariant members + FromLines(codec, rest) == FromLines(codec, lines)
      decreases |rest|
    {
      var found := ReadMember(codec, Trim(rest[0]));
      assert members + (found + FromLines(codec, rest[1..])) == (members + found) + FromLines(codec, rest[1..]);
      members := members + found;
      rest := rest[1..];
    }
  }

  method ParseTeamMembersText<N>(codec: Codec<N>, text: string) returns (members: seq<Member<N>>)
    ensures members == Parse(codec, text)
  {
    members := ReadAll(codec, SplitLines(text));
    FromLinesIsReadLines(codec, SplitLines(text));
  }

  // ----- decimal numbers -----

  type Positive = n: nat | n > 0 witness 1

  function DigitOf(d: nat): (c: char)
    requires d < 10
    ensures '0' <= c <= '9' && DigitValue(c) == d
  {
    ('0' as int + d) as char
  }

  function DigitValue(c: char): nat {
    if '0' <= c <= '9' then c as int - '0' as int else 0
  }

  function ShowDecimal(n: nat): string {
    if n < 10 then [DigitOf(n)] else ShowDecimal(n / 10) + [DigitOf(n % 10)]
  }

  function DecimalValue(s: string): nat {
    if s == "" then 0 else DecimalValue(s[..|s| - 1]) * 10 + DigitValue(s[|s| - 1])
  }

  function ReadDecimal(s: string): Option<Positive> {
    if IsDigits(s) && DecimalValue(s) > 0 then Some(DecimalValue(s)) else None
  }

  function DecimalCodec(): Codec<Positive> {
    Codec(s => ReadDecimal(s), (n: Positive) => ShowDecimal(n))
  }

  lemma {:induction false} DecimalRoundTrip(n: nat)
    ensures IsDigits(ShowDecimal(n)) && DecimalValue(ShowDecimal(n)) == n
  {
    if n < 10 {
      assert [DigitOf(n)][..0] == "";
    } else {
      DecimalRoundTrip(n / 10);
      var front := ShowDecimal(n / 10);
      assert (front + [DigitOf(n % 10)])[..|front|] == front;
    }
  }

  /** Decimal naturals meet the law the team format relies on. */
  lemma DecimalCodecLawful()
    ensures Lawful(DecimalCodec())
  {
    forall n: Positive
      ensures ReadDecimal(ShowDecimal(n)) == Some(n) && Clean(ShowDecimal(n))
    {
      DecimalRoundTrip(n);
      var s := ShowDecimal(n);
      assert forall c :: c in s ==> '0' <= c <= '9';
    }
  }
}
