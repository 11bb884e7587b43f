/**
 * The `ElseSearch` session: whether it has a search-engine connection, its
 * debug flag, the index mapping it fetched and the keyword list it caches.
 * The engine's answers (the mapping, the search response) are parameters;
 * `None` stands for a `ConnectionError`.
 */
module Session {
  import opened PyValues
  import opened Vocabulary
  import opened Translator
  import opened Renderer

  /** The names one index contributes, for the indexes in `ks` already visited. */
  function WordsOf(m: Mapping, ks: set<string>): set<string> {
    set i, w | i in ks && i in m && w in IndexWords(i, m[i]) :: w
  }

  /** The names the types in `ts` of one index contribute. */
  function TypeWordsOf(types: map<string, Doc>, ts: set<string>): set<string> {
    set t, w | t in ts && t in types && w in TypeWords(t, types[t]) :: w
  }

  /** `add_properties(plist, doc)`: appends the name of every property under
      `d`, each followed by the names nested under it, to `plist`. */
  method AddProperties(plist: seq<string>, d: Doc) returns (r: seq<string>)
    ensures |r| >= |plist| && r[..|plist|] == plist
    ensures Elements(r) == Elements(plist) + PropertyNames(d)
    decreases d
  {
    var ps := d.properties;
    r := plist;
    var i := 0;
    while i < |ps|
      invariant 0 <= i <= |ps|
      invariant |r| >= |plist| && r[..|plist|] == plist
      invariant Elements(r) == Elements(plist) + NamesIn(ps[..i])
    {
      assert ps[..i + 1][..i] == ps[..i];
      assert ps[i] in ps;
      var before := r;
      var named := r + [ps[i].name];
      r := AddProperties(named, ps[i].doc);
      assert r[..|plist|] == plist by {
        assert r[..|named|] == named;
        assert r[..|plist|] == named[..|plist|] == before[..|plist|];
      }
      assert Elements(named) == Elements(before) + {ps[i].name};
      i := i + 1;
    }
    assert ps[..i] == ps;
  }

  /** The inner loop body of `get_keywords` for one document type. */
  method AddType(words: seq<string>, t: string, d: Doc) returns (r: seq<string>)
    ensures Elements(r) == Elements(words) + TypeWords(t, d)
  {
    r := words + [t];
    assert Elements(r) == Elements(words) + {t};
    if d.source.Some? {
      var source := d.source.value;
      if source.enabled.None? || Truthy(source.enabled.value) {
        assert Elements(r + ["_source"]) == Elements(r) + {"_source"};
        r := r + ["_source"];
      }
    }
    r := AddProperties(r, d);
  }

  lemma TypeWordsStep(types: map<string, Doc>, ts: set<string>, t: string)
    requires t in types
    ensures TypeWordsOf(types, ts + {t}) == TypeWordsOf(types, ts) + TypeWords(t, types[t])
  {
    forall w | w in TypeWords(t, types[t]) ensures w in TypeWordsOf(types, ts + {t}) {
    }
  }

  /** The outer loop body of `get_keywords` for one index. */
  method AddIndex(words: seq<string>, i: string, types: map<string, Doc>) returns (r: seq<string>)
    ensures Elements(r) == Elements(words) + IndexWords(i, types)
  {
    r := words + [i];
    assert Elements(r) == Elements(words) + {i};
    var left := types.Keys;
    ghost var done: set<string> := {};
    while left != {}
      invariant left + done == types.Keys && left !! done
      invariant Elements(r) == Elements(words) + {i} + TypeWordsOf(types, done)
      decreases left
    {
      var t :| t in left;
      r := AddType(r, t, types[t]);
      TypeWordsStep(types, done, t);
      left := left - {t};
      done := done + {t};
    }
    assert TypeWordsOf(types, done) == (set t, w | t in types && w in TypeWords(t, types[t]) :: w);
  }

  lemma WordsStep(m: Mapping, ks: set<string>, i: string)
    requires i in m
    ensures WordsOf(m, ks + {i}) == WordsOf(m, ks) + IndexWords(i, m[i])
  {
    forall w | w in IndexWords(i, m[i]) ensures w in WordsOf(m, ks + {i}) {
    }
  }

  class ElseSearch {
    var debug: bool
    /** Whether the session has an engine client (`self.es`). */
    var connected: bool
    var mapping: Option<Mapping>
    /** The cached keyword list; the empty list is the unset cache. */
    var keywords: seq<string>

    /** A non-empty cache is the keyword list of the mapping held. */
    ghost predicate Valid()
      reads this
    {
      keywords != [] ==> Present(mapping) && StrictlySorted(keywords) && Elements(keywords) == KeywordSet(mapping)
    }

    /** `ElseSearch(port, debug)`: a session with a port gets a client and
        fetches the mapping (`fetched`); without a client the session is
        always in debug mode. */
    constructor(port: string, debugFlag: bool, fetched: Option<Mapping>)
      ensures connected == (port != [])
      ensures debug == (debugFlag || port == [])
      ensures mapping == (if port != [] then fetched else None)
      ensures keywords == []
      ensures Valid()
    {
      debug := debugFlag || port == [];
      connected := port != [];
      mapping := if port != [] then fetched else None;
      keywords := [];
    }

    /** `get_mapping`: the mapping held when it is non-empty; otherwise the
        one fetched, which resets the keyword cache, unless the fetch failed. */
    method GetMapping(fetched: Option<Mapping>) returns (r: Option<Mapping>)
      requires Valid()
      requires Present(mapping) || connected
      modifies this`mapping, this`keywords
      ensures Valid()
      ensures old(Present(mapping)) ==> mapping == old(mapping) && keywords == old(keywords)
      ensures !old(Present(mapping)) && fetched.Some? ==> mapping == fetched && keywords == []
      ensures !old(Present(mapping)) && fetched.None? ==> mapping == old(mapping) && keywords == old(keywords)
      ensures r == mapping
    {
      if Present(mapping) {
        return mapping;
      }
      if fetched.Some? {
        mapping := fetched;
        keywords := [];
      }
      r := mapping;
    }

    /** `get_keywords`: the cached list when there is one; otherwise the
        sorted, duplicate-free words of the mapping, cached only when there
        is a mapping. */
    method GetKeywords() returns (r: seq<string>)
      requires Valid()
      modifies this`keywords
      ensures Valid()
      ensures StrictlySorted(r) && Elements(r) == KeywordSet(mapping)
      ensures old(keywords) != [] ==> r == old(keywords) && keywords == old(keywords)
      ensures old(keywords) == [] ==> keywords == (if Present(mapping) then r else [])
    {
      if keywords != [] {
        return keywords;
      }
      var words := BaseKeywords;
      if !Present(mapping) {
        r := SortedSet(words);
        return;
      }
      words := words + ["_score", "_all"];
      assert Elements(words) == Elements(BaseKeywords) + {"_score", "_all"};
      var m := mapping.value;
      var left := m.Keys;
      ghost var done: set<string> := {};
      while left != {}
        invariant left + done == m.Keys && left !! done
        invariant Elements(words) == Elements(BaseKeywords) + {"_score", "_all"} + WordsOf(m, done)
        decreases left
      {
        var i :| i in left;
        words := AddIndex(words, i, m[i]);
        WordsStep(m, done, i);
        left := left - {i};
        done := done + {i};
      }
      assert WordsOf(m, done) == MappingWords(m);
      r := SortedSet(words);
      keywords := r;
    }

    /** The translation and output of `search` for an already parsed request:
        the translation depends on the session's debug flag; a session
        without a client prints nothing, and neither does a failed request
        (`response` is `None`). */
    method Search(req: Request, explain: bool, validate: bool, response: Option<Response>)
      returns (t: Translation, out: Output)
      ensures t == Translate(req, explain, validate, debug)
      ensures out == (if connected && response.Some? then Render(response.value, t.body) else Lines([]))
    {
      t := Translate(req, explain, validate, debug);
      out := Lines([]);
      if connected && response.Some? {
        out := RenderResponse(response.value, t.body);
      }
    }
  }

  /** Asking twice gives the same list: whether computed or cached, the
      keyword list of a mapping is the one sorted listing of its words. */
  method KeywordsTwice(s: ElseSearch) returns (a: seq<string>, b: seq<string>)
    requires s.Valid()
    modifies s`keywords
    ensures a == b
    ensures Elements(BaseKeywords) <= Elements(a)
  {
    a := s.GetKeywords();
    b := s.GetKeywords();
    SortedListingUnique(a, b);
  }
}
