/** The module-level `htmlCache` and the function that uses it. */
module Highlight {
  import opened Sequences
  import opened RecencyMap
  import opened HighlightModel

  class Highlighter {
    const engine: Engine
    var htmlCache: Cache
    ghost var history: seq<Request>

    ghost predicate Valid()
      reads this
    {
      htmlCache == Run(engine, history)
    }

    constructor (engine: Engine)
      ensures Valid() && this.engine == engine && history == []
    {
      this.engine := engine;
      htmlCache := [];
      history := [];
    }

    /** The caller gets the uncached markup, and the cache is what the history says. */
    method HighlightToHtml(code: string, language: string) returns (html: string)
      requires Valid()
      modifies this
      ensures Valid() && history == old(history) + [Request(code, language)]
      ensures html == Reply(engine, Run(engine, old(history)), Request(code, language))
      ensures Separable(engine.known) ==> html == Uncached(engine, Request(code, language))
      ensures language == "" || !engine.known(language) ==> html == EscapeHtml(code)
      ensures Separable(engine.known) && language != "" && engine.known(language) ==>
        html == if engine.highlight(Request(code, language)).Some? then engine.highlight(Request(code, language)).value
                else EscapeHtml(code)
      ensures Separable(engine.known) ==> htmlCache == Recent(Uses(engine, history), CACHE_LIMIT)
    {
      var r := Request(code, language);
      RunDistinct(engine, history);
      html := Lookup(r);
      history := history + [r];
      assert history[..|history| - 1] == old(history);
      if Separable(engine.known) {
        CacheIsInvisible(engine, old(history), r);
        CacheIsRecentUses(engine, history);
      }
    }

    /** The body proper: hit, miss or fall back. */
    method Lookup(r: Request) returns (html: string)
      requires Distinct(htmlCache)
      modifies this`htmlCache
      ensures html == Reply(engine, old(htmlCache), r) && htmlCache == Step(engine, old(htmlCache), r)
    {
      if r.language == "" || !engine.known(r.language) {
        return EscapeHtml(r.code);
      }
      var key := Key(r);
      var cached := Find(htmlCache, key);
      if cached.Some? {
        htmlCache := Delete(htmlCache, key);
        htmlCache := htmlCache + [Entry(key, cached.value)];
        return cached.value;
      }
      var highlighted := engine.highlight(r);
      if highlighted.None? {
        return EscapeHtml(r.code);
      }
      html := highlighted.value;
      TouchDistinct(htmlCache, Entry(key, html), CACHE_LIMIT);
      FindMeans(htmlCache, key);
      DeleteAbsent(htmlCache, key);
      htmlCache := htmlCache + [Entry(key, html)];
      htmlCache := EvictOldest(htmlCache, CACHE_LIMIT);
    }
  }
}
