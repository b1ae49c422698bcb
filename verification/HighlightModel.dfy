/**
 Highlighting with a module-level recency cache (`highlightToHtml`), over any
 deterministic highlighting engine, and when callers cannot tell it is there.
 */
module HighlightModel {
  import opened Sequences
  import opened RecencyMap

  const CACHE_LIMIT: nat := 160

  datatype Request = Request(code: string, language: string)

  /** `hljs`: the registered languages, and the highlighter, `None` where it throws. */
  datatype Engine = Engine(known: string -> bool, highlight: Request -> Option<string>)

  type Cache = seq<Entry<string>>

  predicate Registered(known: string -> bool, language: string) {
    language != "" && known(language)
  }

  function Key(r: Request): string {
    r.language + ['\0'] + r.code
  }

  function EscapeChar(c: char): string {
    if c == '&' then "&amp;" else if c == '<' then "&lt;" else if c == '>' then "&gt;" else [c]
  }

  function EscapeHtml(value: string): string {
    if value == "" then "" else EscapeChar(value[0]) + EscapeHtml(value[1..])
  }

  /** Reference: what the call returns when there is no cache at all. */
  function Uncached(e: Engine, r: Request): string {
    if Registered(e.known, r.language) && e.highlight(r).Some? then e.highlight(r).value else EscapeHtml(r.code)
  }

  function Reply(e: Engine, cache: Cache, r: Request): string {
    if Registered(e.known, r.language) && Find(cache, Key(r)).Some? then Find(cache, Key(r)).value
    else Uncached(e, r)
  }

  function Step(e: Engine, cache: Cache, r: Request): Cache {
    if !Registered(e.known, r.language) then cache
    else if Find(cache, Key(r)).Some? then
      Delete(cache, Key(r)) + [Entry(Key(r), Find(cache, Key(r)).value)]
    else if e.highlight(r).Some? then LastN(cache + [Entry(Key(r), e.highlight(r).value)], CACHE_LIMIT)
    else cache
  }

  /** The cache after every request of a history, oldest first. */
  function Run(e: Engine, history: seq<Request>): Cache {
    if history == [] then []
    else Step(e, Run(e, history[..|history| - 1]), history[|history| - 1])
  }

  predicate Succeeds(e: Engine, r: Request) {
    Registered(e.known, r.language) && e.highlight(r).Some?
  }

  /** Reference: the successful requests of a history, keyed, with what the engine gives for them. */
  function Uses(e: Engine, history: seq<Request>): seq<Entry<string>> {
    if history == [] then []
    else
      var r := history[|history| - 1];
      Uses(e, history[..|history| - 1]) + if Succeeds(e, r) then [Entry(Key(r), e.highlight(r).value)] else []
  }

  /** No registered language extends another one past a NUL character. */
  ghost predicate Separable(known: string -> bool) {
    forall a, b :: Registered(known, a) && Registered(known, b) ==> !(a + ['\0'] <= b)
  }

  ghost predicate NulFree(known: string -> bool) {
    forall a :: Registered(known, a) ==> '\0' !in a
  }

  ghost predicate Invisible(e: Engine) {
    forall history, r :: Reply(e, Run(e, history), r) == Uncached(e, r)
  }

  lemma NulFreeSeparable(known: string -> bool)
    requires NulFree(known)
    ensures Separable(known)
  {
    forall a, b | Registered(known, a) && Registered(known, b) ensures !(a + ['\0'] <= b) {
      var prefix := a + ['\0'];
      assert prefix[|a|] == '\0';
    }
  }

  lemma KeyPrefix(p: Request, q: Request)
    requires Key(p) == Key(q)
    ensures |p.language| < |q.language| ==> p.language + ['\0'] <= q.language
  {
    var prefix := p.language + ['\0'];
    assert Key(q)[..|prefix|] == prefix;
  }

  /** The cache key determines the language and the code. */
  lemma KeyInjective(known: string -> bool, p: Request, q: Request)
    requires Separable(known) && Registered(known, p.language) && Registered(known, q.language)
    requires Key(p) == Key(q)
    ensures p == q
  {
    KeyPrefix(p, q);
    KeyPrefix(q, p);
    assert p.language == Key(p)[..|p.language|] == q.language;
    assert p.code == Key(p)[|p.language| + 1..] == q.code;
  }

  /** Every recorded use is a successful request of the history. */
  lemma {:induction false} UsesSound(e: Engine, history: seq<Request>, u: Entry<string>) returns (r: Request)
    requires u in Uses(e, history)
    ensures Succeeds(e, r) && u == Entry(Key(r), e.highlight(r).value)
  {
    var front, last := history[..|history| - 1], history[|history| - 1];
    if u in Uses(e, front) {
      r := UsesSound(e, front, u);
    } else {
      r := last;
    }
  }

  lemma FoundIsUse(e: Engine, history: seq<Request>, key: string)
    requires Find(Recent(Uses(e, history), CACHE_LIMIT), key).Some?
    ensures Entry(key, Find(Recent(Uses(e, history), CACHE_LIMIT), key).value) in Uses(e, history)
  {
    var uses := Uses(e, history);
    var u := Entry(key, Find(Recent(uses, CACHE_LIMIT), key).value);
    FindMeans(Recent(uses, CACHE_LIMIT), key);
    assert u in LastUses(uses);
    LastUseMeans(uses, u);
  }

  /** A hit returns what the engine gives for this very request. */
  lemma HitIsRight(e: Engine, history: seq<Request>, r: Request)
    requires Separable(e.known) && Registered(e.known, r.language)
    requires Find(Recent(Uses(e, history), CACHE_LIMIT), Key(r)).Some?
    ensures e.highlight(r) == Find(Recent(Uses(e, history), CACHE_LIMIT), Key(r))
  {
    FoundIsUse(e, history, Key(r));
    var u := Entry(Key(r), Find(Recent(Uses(e, history), CACHE_LIMIT), Key(r)).value);
    var q := UsesSound(e, history, u);
    KeyInjective(e.known, q, r);
  }

  lemma StepDistinct(e: Engine, cache: Cache, r: Request)
    requires Distinct(cache)
    ensures Distinct(Step(e, cache, r))
  {
    if Find(cache, Key(r)).Some? {
      TouchDistinct(cache, Entry(Key(r), Find(cache, Key(r)).value), CACHE_LIMIT);
    } else if e.highlight(r).Some? {
      TouchDistinct(cache, Entry(Key(r), e.highlight(r).value), CACHE_LIMIT);
      FindMeans(cache, Key(r));
      DeleteAbsent(cache, Key(r));
    }
  }

  lemma {:induction false} RunDistinct(e: Engine, history: seq<Request>)
    ensures Distinct(Run(e, history))
  {
    if history != [] {
      RunDistinct(e, history[..|history| - 1]);
      StepDistinct(e, Run(e, history[..|history| - 1]), history[|history| - 1]);
    }
  }

  /** The cache holds exactly the most recently used distinct successful requests. */
  lemma {:induction false} CacheIsRecentUses(e: Engine, history: seq<Request>)
    requires Separable(e.known)
    ensures Run(e, history) == Recent(Uses(e, history), CACHE_LIMIT)
  {
    if history != [] {
      var front, r := history[..|history| - 1], history[|history| - 1];
      CacheIsRecentUses(e, front);
      StepIsUse(e, front, r);
    }
  }

  lemma StepIsUse(e: Engine, front: seq<Request>, r: Request)
    requires Separable(e.known)
    ensures Step(e, Recent(Uses(e, front), CACHE_LIMIT), r) ==
            Recent(Uses(e, front) + if Succeeds(e, r) then [Entry(Key(r), e.highlight(r).value)] else [], CACHE_LIMIT)
  {
    var uses := Uses(e, front);
    var cache := Recent(uses, CACHE_LIMIT);
    FindMeans(cache, Key(r));
    if Registered(e.known, r.language) && Find(cache, Key(r)).Some? {
      HitIsRight(e, front, r);
      DeletePresent(cache, Key(r));
      TouchIsRecent(uses, Entry(Key(r), e.highlight(r).value), CACHE_LIMIT);
    } else if Succeeds(e, r) {
      DeleteAbsent(cache, Key(r));
      TouchIsRecent(uses, Entry(Key(r), e.highlight(r).value), CACHE_LIMIT);
    } else {
      assert uses + [] == uses;
    }
  }

  /** With separable language names no history of requests makes the cache visible. */
  lemma CacheIsInvisible(e: Engine, history: seq<Request>, r: Request)
    requires Separable(e.known)
    ensures Reply(e, Run(e, history), r) == Uncached(e, r)
  {
    CacheIsRecentUses(e, history);
    if Registered(e.known, r.language) && Find(Run(e, history), Key(r)).Some? {
      HitIsRight(e, history, r);
    }
  }

  /** Two registered names, one extending the other past a NUL, share a key, and one gets the other's markup. */
  lemma CollisionShows(known: string -> bool, a: string, b: string)
    requires Registered(known, a) && Registered(known, b) && a + ['\0'] <= b
    ensures !Invisible(Engine(known, (r: Request) => Some(r.language)))
  {
    var e := Engine(known, (r: Request) => Some(r.language));
    var rest := b[|a| + 1..];
    assert b == a + ['\0'] + rest;
    var p, q := Request(rest + ['\0'], a), Request("", b);
    assert Key(p) == Key(q);
    assert [p][..0] == [];
    var cache := [Entry(Key(p), a)];
    assert Run(e, []) == [];
    assert Run(e, [p]) == Step(e, [], p) == cache by {
      assert [p][|[p]| - 1] == p;
      assert [] + [Entry(Key(p), a)] == cache;
    }
    assert Reply(e, Run(e, [p]), q) == a != b == Uncached(e, q);
  }

  /** The cache is invisible whatever the highlighter does exactly when the registered names are separable. */
  lemma InvisibleIff(known: string -> bool)
    ensures (forall highlight :: Invisible(Engine(known, highlight))) <==> Separable(known)
  {
    if Separable(known) {
      forall highlight ensures Invisible(Engine(known, highlight)) {
        forall history, r
          ensures Reply(Engine(known, highlight), Run(Engine(known, highlight), history), r)
               == Uncached(Engine(known, highlight), r)
        {
          CacheIsInvisible(Engine(known, highlight), history, r);
        }
      }
    } else {
      var a, b :| Registered(known, a) && Registered(known, b) && a + ['\0'] <= b;
      CollisionShows(known, a, b);
    }
  }

  // ----- escaping -----

  /** Reference: the text a browser shows for a markup without tags. */
  function Shown(html: string): string {
    if html == "" then ""
    else if "&amp;" <= html then "&" + Shown(html[5..])
    else if "&lt;" <= html then "<" + Shown(html[4..])
    else if "&gt;" <= html then ">" + Shown(html[4..])
    else [html[0]] + Shown(html[1..])
  }

  /** An ampersand that is not the start of one of the three entities. */
  ghost predicate BareAmpersand(html: string, i: nat) {
    && i < |html| && html[i] == '&'
    && !("&amp;" <= html[i..]) && !("&lt;" <= html[i..]) && !("&gt;" <= html[i..])
  }

  lemma ShownFirst(c: char, rest: string)
    ensures Shown(EscapeChar(c) + rest) == [c] + Shown(rest)
  {
    var escaped := EscapeChar(c);
    assert (escaped + rest)[|escaped|..] == rest;
    assert (escaped + rest)[0] == escaped[0] && (escaped + rest)[1..] == escaped[1..] + rest;
    assert "&amp;"[1] == 'a' && "&lt;"[1] == 'l' && "&gt;"[1] == 'g';
  }

  lemma CharEscaped(c: char, rest: string)
    requires forall i :: !BareAmpersand(rest, i)
    ensures '<' !in EscapeChar(c) && '>' !in EscapeChar(c)
    ensures forall i :: !BareAmpersand(EscapeChar(c) + rest, i)
  {
    var escaped := EscapeChar(c);
    forall i: nat | i < |escaped + rest| ensures !BareAmpersand(escaped + rest, i) {
      if i >= |escaped| {
        assert (escaped + rest)[i..] == rest[i - |escaped|..];
        assert !BareAmpersand(rest, i - |escaped|);
      } else if i == 0 {
        assert (escaped + rest)[0..] == escaped + rest;
      }
    }
  }

  /** Escaped text has no tag and no bare ampersand, and shows as what was escaped. */
  lemma {:induction false} EscapeMeans(value: string)
    ensures Shown(EscapeHtml(value)) == value
    ensures '<' !in EscapeHtml(value) && '>' !in EscapeHtml(value)
    ensures forall i :: !BareAmpersand(EscapeHtml(value), i)
  {
    if value != "" {
      var rest := EscapeHtml(value[1..]);
      EscapeMeans(value[1..]);
      ShownFirst(value[0], rest);
      CharEscaped(value[0], rest);
    }
  }
}
