/** The JavaScript string operations the text formats use. */
module Text {

  /** White space and line terminators, as `trim` removes them. */
  predicate IsSpace(c: char) {
    || '\t' <= c <= '\r'
    || c == ' '
    || c == '\U{00A0}'
    || c == '\U{1680}'
    || '\U{2000}' <= c <= '\U{200A}'
    || c == '\U{2028}' || c == '\U{2029}'
    || c == '\U{202F}' || c == '\U{205F}'
    || c == '\U{3000}'
    || c == '\U{FEFF}'
  }

  predicate Trimmed(s: string) {
    s == "" || (!IsSpace(s[0]) && !IsSpace(s[|s| - 1]))
  }

  function TrimStart(s: string): string {
    if s != "" && IsSpace(s[0]) then TrimStart(s[1..]) else s
  }

  function TrimEnd(s: string): string {
    if s != "" && IsSpace(s[|s| - 1]) then TrimEnd(s[..|s| - 1]) else s
  }

  function Trim(s: string): string {
    TrimEnd(TrimStart(s))
  }

  /** `endsWith`. */
  predicate EndsWith(s: string, suffix: string) {
    |suffix| <= |s| && s[|s| - |suffix|..] == suffix
  }

  /** `indexOf`, with `|s|` standing for "not found". */
  function Find(s: string, c: char): (i: nat)
    ensures i <= |s| && c !in s[..i]
    ensures i < |s| ==> s[i] == c
    ensures i == |s| <==> c !in s
  {
    if s == "" then 0
    else if s[0] == c then 0
    else
      var j := Find(s[1..], c);
      assert s == [s[0]] + s[1..];
      assert s[..j + 1] == [s[0]] + s[1..][..j];
      j + 1
  }

  /** `split(c)`. */
  function Split(s: string, c: char): (parts: seq<string>)
    ensures |parts| > 0
    decreases |s|
  {
    var i := Find(s, c);
    if i == |s| then [s] else [s[..i]] + Split(s[i + 1..], c)
  }

  function Join(parts: seq<string>, separator: string): string {
    if parts == [] then ""
    else if |parts| == 1 then parts[0]
    else parts[0] + separator + Join(parts[1..], separator)
  }

  function TrimAll(parts: seq<string>): (r: seq<string>)
    ensures |r| == |parts| && forall i :: 0 <= i < |r| ==> r[i] == Trim(parts[i])
  {
    seq(|parts|, i requires 0 <= i < |parts| => Trim(parts[i]))
  }

  function WithoutEmpty(parts: seq<string>): (r: seq<string>)
    ensures forall i :: 0 <= i < |r| ==> r[i] != "" && r[i] in parts
  {
    if parts == [] then []
    else (if parts[0] == "" then [] else [parts[0]]) + WithoutEmpty(parts[1..])
  }

  // ----- trimming -----

  /** `a` has no character that `s` does not have. */
  ghost predicate Within(a: string, s: string) {
    forall c :: c in a ==> c in s
  }

  lemma {:induction false} TrimStartFacts(s: string)
    ensures Within(TrimStart(s), s) && (TrimStart(s) != "" ==> !IsSpace(TrimStart(s)[0]))
  {
    if s != "" && IsSpace(s[0]) { TrimStartFacts(s[1..]); }
  }

  lemma {:induction false} TrimEndFacts(s: string)
    ensures Within(TrimEnd(s), s)
    ensures TrimEnd(s) != "" ==> !IsSpace(TrimEnd(s)[|TrimEnd(s)| - 1]) && TrimEnd(s)[0] == s[0]
  {
    if s != "" && IsSpace(s[|s| - 1]) { TrimEndFacts(s[..|s| - 1]); }
  }

  lemma TrimFacts(s: string)
    ensures Trimmed(Trim(s)) && Within(Trim(s), s)
  {
    TrimStartFacts(s);
    TrimEndFacts(TrimStart(s));
  }

  predicate Blank(s: string) {
    forall i :: 0 <= i < |s| ==> IsSpace(s[i])
  }

  lemma {:induction false} TrimStartPadded(before: string, s: string)
    requires Blank(before)
    ensures TrimStart(before + s) == TrimStart(s)
  {
    if before == "" {
      assert before + s == s;
    } else {
      assert (before + s)[0] == before[0] && (before + s)[1..] == before[1..] + s;
      TrimStartPadded(before[1..], s);
    }
  }

  lemma {:induction false} TrimEndPadded(s: string, after: string)
    requires Blank(after)
    ensures TrimEnd(s + after) == TrimEnd(s)
  {
    if after == "" {
      assert s + after == s;
    } else {
      var n := |after| - 1;
      assert (s + after)[|s| + n] == after[n] && (s + after)[..|s| + n] == s + after[..n];
      TrimEndPadded(s, after[..n]);
    }
  }

  /** Padding a trimmed text with blanks does not change what `trim` gives. */
  lemma TrimPadded(before: string, s: string, after: string)
    requires Trimmed(s) && Blank(before) && Blank(after)
    ensures Trim(before + s + after) == s
  {
    assert before + s + after == before + (s + after);
    TrimStartPadded(before, s + after);
    if s == "" {
      assert s + after == after + "";
      TrimStartPadded(after, "");
    } else {
      TrimEndPadded(s, after);
    }
  }

  lemma {:induction false} TrimStartCuts(s: string) returns (before: string)
    ensures Blank(before) && s == before + TrimStart(s)
  {
    before := "";
    if s != "" && IsSpace(s[0]) {
      var rest := TrimStartCuts(s[1..]);
      before := [s[0]] + rest;
    }
  }

  lemma {:induction false} TrimEndCuts(s: string) returns (after: string)
    ensures Blank(after) && s == TrimEnd(s) + after
  {
    after := "";
    if s != "" && IsSpace(s[|s| - 1]) {
      var rest := TrimEndCuts(s[..|s| - 1]);
      after := rest + [s[|s| - 1]];
    }
  }

  /** `raw` is `s`, which has no blanks at its ends, with blanks around it. */
  ghost predicate Padded(raw: string, s: string) {
    Trimmed(s) && exists before, after :: Blank(before) && Blank(after) && raw == before + s + after
  }

  lemma TrimMeans(raw: string, s: string)
    ensures Trim(raw) == s <==> Padded(raw, s)
  {
    var before := TrimStartCuts(raw);
    var after := TrimEndCuts(TrimStart(raw));
    assert raw == before + Trim(raw) + after;
    TrimFacts(raw);
    if Padded(raw, s) {
      var before, after :| Blank(before) && Blank(after) && raw == before + s + after;
      TrimPadded(before, s, after);
    }
  }

  lemma TrimFixed(s: string)
    requires Trimmed(s)
    ensures Trim(s) == s
  {
  }

  // ----- splitting and joining -----

  lemma {:induction false} SplitWithin(s: string, c: char)
    ensures forall i :: 0 <= i < |Split(s, c)| ==> Within(Split(s, c)[i], s) && c !in Split(s, c)[i]
    decreases |s|
  {
    var i := Find(s, c);
    if i < |s| { SplitWithin(s[i + 1..], c); }
  }

  lemma {:induction false} FindAfter(a: string, c: char, b: string)
    requires c !in a
    ensures Find(a + [c] + b, c) == |a|
  {
    var s := a + [c] + b;
    if a != "" {
      assert s[0] == a[0] && s[1..] == a[1..] + [c] + b;
      FindAfter(a[1..], c, b);
    }
  }

  /** Splitting at the first separator. */
  lemma SplitFirst(a: string, c: char, b: string)
    requires c !in a
    ensures Split(a + [c] + b, c) == [a] + Split(b, c)
  {
    FindAfter(a, c, b);
    var s := a + [c] + b;
    assert s[..|a|] == a && s[|a| + 1..] == b;
  }

  lemma {:induction false} SplitJoin(parts: seq<string>, c: char)
    requires parts != [] && forall i :: 0 <= i < |parts| ==> c !in parts[i]
    ensures Split(Join(parts, [c]), c) == parts
  {
    if |parts| > 1 {
      SplitJoin(parts[1..], c);
      SplitFirst(parts[0], c, Join(parts[1..], [c]));
      assert [parts[0]] + parts[1..] == parts;
    }
  }

  lemma JoinFirst(first: string, rest: seq<string>, separator: string)
    requires rest != []
    ensures Join([first] + rest, separator) == first + separator + Join(rest, separator)
  {
    assert ([first] + rest)[1..] == rest;
  }

  lemma SplitStep(s: string, c: char) returns (first: string, rest: string)
    requires c in s
    ensures s == first + [c] + rest && c !in first && Split(s, c) == [first] + Split(rest, c)
  {
    var i := Find(s, c);
    first, rest := s[..i], s[i + 1..];
  }

  lemma {:induction false} JoinSplit(s: string, c: char)
    ensures Join(Split(s, c), [c]) == s
    decreases |s|
  {
    if c in s {
      var first, rest := SplitStep(s, c);
      JoinSplit(rest, c);
      JoinFirst(first, Split(rest, c), [c]);
    }
  }

  ghost predicate PlainPart(p: string) {
    p != "" && Trimmed(p) && '|' !in p
  }

  lemma TrimAllCons(x: string, rest: seq<string>)
    ensures TrimAll([x] + rest) == [Trim(x)] + TrimAll(rest)
  {
  }

  lemma BarShape(lead: string, p: string, rest: string)
    ensures lead + (p + " | " + rest) == (lead + p + " ") + ['|'] + (" " + rest)
  {
    assert " | " == " " + ['|'] + " ";
    assert p + " | " + rest == p + " " + ['|'] + (" " + rest);
  }

  lemma SplitPiece(lead: string, p: string, rest: string)
    requires PlainPart(p) && (lead == "" || lead == " ")
    ensures TrimAll(Split(lead + (p + " | " + rest), '|')) == [p] + TrimAll(Split(" " + rest, '|'))
  {
    BarShape(lead, p, rest);
    SplitFirst(lead + p + " ", '|', " " + rest);
    TrimPadded(lead, p, " ");
    TrimAllCons(lead + p + " ", Split(" " + rest, '|'));
  }

  lemma SplitLast(lead: string, p: string)
    requires PlainPart(p) && (lead == "" || lead == " ")
    ensures TrimAll(Split(lead + p, '|')) == [p]
  {
    assert Split(lead + p, '|') == [lead + p];
    assert lead + p + "" == lead + p;
    TrimPadded(lead, p, "");
  }

  /** Parts joined by a padded bar come back after splitting at the bar and trimming. */
  lemma {:induction false} SplitPadded(lead: string, parts: seq<string>)
    requires parts != [] && (lead == "" || lead == " ")
    requires forall i :: 0 <= i < |parts| ==> PlainPart(parts[i])
    ensures TrimAll(Split(lead + Join(parts, " | "), '|')) == parts
    decreases |parts|
  {
    if |parts| == 1 {
      SplitLast(lead, parts[0]);
    } else {
      var rest := Join(parts[1..], " | ");
      assert Join(parts, " | ") == parts[0] + " | " + rest;
      SplitPiece(lead, parts[0], rest);
      SplitPadded(" ", parts[1..]);
      assert [parts[0]] + parts[1..] == parts;
    }
  }

  lemma {:induction false} WithoutEmptyFixed(parts: seq<string>)
    requires forall i :: 0 <= i < |parts| ==> parts[i] != ""
    ensures WithoutEmpty(parts) == parts
  {
    if parts != [] { WithoutEmptyFixed(parts[1..]); }
  }

  lemma {:induction false} JoinWithin(parts: seq<string>, separator: string, c: char)
    requires c !in separator && forall i :: 0 <= i < |parts| ==> c !in parts[i]
    ensures c !in Join(parts, separator)
  {
    if |parts| > 1 { JoinWithin(parts[1..], separator, c); }
  }

  /** A joined text starts as its first part does and ends as its last. */
  lemma {:induction false} JoinEnds(parts: seq<string>, separator: string)
    requires parts != [] && forall i :: 0 <= i < |parts| ==> parts[i] != ""
    ensures var text := Join(parts, separator);
            text != "" && text[0] == parts[0][0] && text[|text| - 1] == parts[|parts| - 1][|parts[|parts| - 1]| - 1]
  {
    if |parts| > 1 {
      JoinEnds(parts[1..], separator);
      var tail := Join(parts[1..], separator);
      var text := parts[0] + separator + tail;
      assert text[|text| - 1] == tail[|tail| - 1];
    }
  }

  // ----- components of a path -----

  ghost predicate ComponentAt(path: string, before: string, part: string, after: string) {
    && path == before + part + after
    && (before == "" || before[|before| - 1] == '/') && (after == "" || after[0] == '/')
  }

  /** `part` stands in the path between slashes or its ends. */
  ghost predicate HasComponent(path: string, part: string) {
    exists before, after :: ComponentAt(path, before, part, after)
  }

  lemma SlashWithin(path: string, before: string, part: string, after: string)
    requires ComponentAt(path, before, part, after)
    ensures before != "" || after != "" ==> '/' in path
  {
    assert forall i :: 0 <= i < |before| ==> path[i] == before[i];
    assert forall i :: 0 <= i < |after| ==> path[|before| + |part| + i] == after[i];
  }

  lemma LoneComponent(path: string, part: string)
    requires '/' !in path
    ensures HasComponent(path, part) <==> path == part
  {
    if path == part {
      assert ComponentAt(path, "", part, "");
    }
    if before, after :| ComponentAt(path, before, part, after) {
      SlashWithin(path, before, part, after);
    }
  }

  lemma LaterComponent(first: string, rest: string, part: string)
    requires HasComponent(rest, part)
    ensures HasComponent(first + ['/'] + rest, part)
  {
    var before, after :| ComponentAt(rest, before, part, after);
    assert ComponentAt(first + ['/'] + rest, first + ['/'] + before, part, after);
  }

  lemma FirstComponent(first: string, rest: string, part: string, before: string, after: string)
    requires '/' !in first && '/' !in part && ComponentAt(first + ['/'] + rest, before, part, after)
    ensures part == first || HasComponent(rest, part)
  {
    var path := first + ['/'] + rest;
    assert path[|first|] == '/' && path[|first| + 1..] == rest && path[..|first|] == first;
    assert forall i :: 0 <= i < |first| ==> path[i] != '/';
    if before == "" {
      assert forall i :: 0 <= i < |part| ==> path[i] == part[i];
      assert path[|part|] == after[0];
      assert part == path[..|part|];
    } else {
      assert path[|before| - 1] == before[|before| - 1];
      var tail := before[|first| + 1..];
      assert rest == tail + part + after;
      assert ComponentAt(rest, tail, part, after);
    }
  }

  lemma ComponentStep(first: string, rest: string, part: string)
    requires '/' !in first && '/' !in part
    ensures HasComponent(first + ['/'] + rest, part) <==> part == first || HasComponent(rest, part)
  {
    var path := first + ['/'] + rest;
    if part == first {
      assert path == "" + part + (['/'] + rest);
      assert ComponentAt(path, "", part, ['/'] + rest);
    }
    if HasComponent(rest, part) { LaterComponent(first, rest, part); }
    if before, after :| ComponentAt(path, before, part, after) {
      FirstComponent(first, rest, part, before, after);
    }
  }

  /** The pieces between the slashes are the components. */
  lemma {:induction false} ComponentIff(path: string, part: string)
    requires '/' !in part
    ensures part in Split(path, '/') <==> HasComponent(path, part)
    decreases |path|
  {
    if '/' !in path {
      LoneComponent(path, part);
    } else {
      var first, rest := SplitStep(path, '/');
      ComponentIff(rest, part);
      ComponentStep(first, rest, part);
    }
  }
}
