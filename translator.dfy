/**
 * The query translator of `ElseSearch.search`: a parsed ElseQL request
 * becomes the request body sent to the search engine, the URL path and the
 * URL parameters. The request's limit list loses its first element when it
 * holds an offset; the list left behind is part of the translation.
 */
module Translator {
  import opened PyValues

  /** A parsed request. `query` and `filter` hold the text of the parsed
      expressions; an empty list stands for an absent list clause, which the
      translator treats the same way (both are falsy). */
  datatype Request = Request(
    index: string,
    query: Option<string>,
    filter: Option<string>,
    facets: seq<string>,
    script: Option<(string, string)>,
    fields: seq<string>,
    order: seq<(string, string)>,
    limit: seq<int>)

  /** `{"query_string": {"query": q}}` or `{"match_all": {}}`. */
  datatype Clause = QueryString(query: string) | MatchAll

  /** `{"terms": {"field": f}}` */
  datatype TermsFacet = Terms(field: string)

  /** `{"script": s}` */
  datatype ScriptField = Script(script: string)

  /** The request body; `None` (or `false` for `explain`) is an absent key,
      and `query` is always present. */
  datatype Body = Body(
    query: Clause,
    explain: bool,
    filter: Option<Clause>,
    facets: Option<map<string, TermsFacet>>,
    scriptFields: Option<map<string, ScriptField>>,
    fields: Option<seq<string>>,
    sort: Option<seq<map<string, string>>>,
    from: Option<int>,
    size: Option<int>)

  /** `{pretty: True}` or `{pretty: True, explain: True}`. */
  datatype Params = Pretty | PrettyExplain

  datatype Translation = Translation(path: string, params: Option<Params>, body: Body, limit: seq<int>)

  /** What the limit clause puts in the body, and the limit list after
      `pop(0)`. */
  datatype LimitSplit = LimitSplit(from: Option<int>, size: Option<int>, rest: seq<int>)

  /** `index.replace(".", "/")` */
  function ReplaceDots(s: string): (r: string)
    ensures |r| == |s|
    ensures forall i :: 0 <= i < |s| ==> r[i] == (if s[i] == '.' then '/' else s[i])
    ensures '.' !in r
  {
    if s == [] then [] else [if s[0] == '.' then '/' else s[0]] + ReplaceDots(s[1..])
  }

  function Command(validate: bool): (c: string)
    ensures '.' !in c
  {
    if validate then
      var c := "/_validate/query";
      assert forall i :: 0 <= i < |c| ==> c[i] != '.';
      c
    else
      var c := "/search";
      assert forall i :: 0 <= i < |c| ==> c[i] != '.';
      c
  }

  function Path(index: string, validate: bool): (p: string)
    ensures |p| > |index| && p[..|index|] == ReplaceDots(index) && '.' !in p
    ensures p[|index|..] == (if validate then "/_validate/query" else "/search")
  {
    var r, c := ReplaceDots(index), Command(validate);
    assert (r + c)[..|r|] == r && (r + c)[|r|..] == c;
    assert forall x :: x in r + c ==> x in r || x in c;
    r + c
  }

  /** The projection sent to the engine: a lone `*` or `count(*)` sends none. */
  function Projection(fields: seq<string>): (p: Option<seq<string>>)
    ensures p.None? <==> (fields == [] || fields == ["*"] || fields == ["count(*)"])
    ensures p.Some? ==> p.value == fields
  {
    if fields == [] then None
    else if |fields| == 1 then
      if fields[0] == "*" || fields[0] == "count(*)" then None else Some([fields[0]])
    else Some(fields)
  }

  function Facets(facets: seq<string>): (m: Option<map<string, TermsFacet>>)
    ensures m.Some? <==> facets != []
    ensures m.Some? ==> m.value.Keys == (set f | f in facets) && forall f :: f in m.value ==> m.value[f] == Terms(f)
  {
    if facets == [] then None else Some(map f | f in facets :: Terms(f))
  }

  function Sort(order: seq<(string, string)>): (s: Option<seq<map<string, string>>>)
    ensures s.Some? <==> order != []
    ensures s.Some? ==>
              |s.value| == |order| &&
              forall i :: 0 <= i < |order| ==> s.value[i].Keys == {order[i].0} && s.value[i][order[i].0] == order[i].1
  {
    if order == [] then None
    else Some(seq(|order|, i requires 0 <= i < |order| => map[order[i].0 := order[i].1]))
  }

  /** The limit clause: with more than one element, `from` is popped off the
      front; `size` is then the first remaining element. Elements after the
      second are ignored. */
  function SplitLimit(limit: seq<int>): (r: LimitSplit)
    ensures r.from.Some? <==> |limit| > 1
    ensures r.from.Some? ==> [r.from.value] + r.rest == limit
    ensures r.from.None? ==> r.rest == limit
    ensures r.size.Some? <==> limit != []
    ensures r.size.Some? ==> r.size.value == r.rest[0]
  {
    if limit == [] then LimitSplit(None, None, limit)
    else if |limit| > 1 then LimitSplit(Some(limit[0]), Some(limit[1]), limit[1..])
    else LimitSplit(None, Some(limit[0]), limit)
  }

  /** The request body for `r`; `explain` is the flag of `search`. */
  function TranslateBody(r: Request, explain: bool): (b: Body)
    // The body always has a query: the free text when there is one, else match-all.
    ensures b.query == (if r.query.Some? then QueryString(r.query.value) else MatchAll)
    ensures b.explain == explain
    ensures b.filter == (if r.filter.Some? then Some(QueryString(r.filter.value)) else None)
    // One terms facet per distinct facet field, keyed by the field.
    ensures b.facets.Some? <==> r.facets != []
    ensures b.facets.Some? ==>
              b.facets.value.Keys == (set f | f in r.facets) &&
              forall f :: f in b.facets.value ==> b.facets.value[f] == Terms(f)
    ensures b.scriptFields ==
              (if r.script.Some? then Some(map[r.script.value.0 := Script(r.script.value.1)]) else None)
    // No projection for no fields, a lone `*` or a lone `count(*)`; otherwise the list as given.
    ensures b.fields.None? <==> (r.fields == [] || r.fields == ["*"] || r.fields == ["count(*)"])
    ensures b.fields.Some? ==> b.fields.value == r.fields
    // One single-key map per order pair, in order.
    ensures b.sort.Some? <==> r.order != []
    ensures b.sort.Some? ==>
              |b.sort.value| == |r.order| &&
              forall i :: 0 <= i < |r.order| ==>
                b.sort.value[i].Keys == {r.order[i].0} && b.sort.value[i][r.order[i].0] == r.order[i].1
    // Limit: one element is a size; two or more are an offset and a size.
    ensures b.from.Some? <==> |r.limit| > 1
    ensures b.size.Some? <==> r.limit != []
    ensures |r.limit| == 1 ==> b.size == Some(r.limit[0])
    ensures |r.limit| > 1 ==> b.from == Some(r.limit[0]) && b.size == Some(r.limit[1])
  {
    var lim := SplitLimit(r.limit);
    Body(
      if r.query.Some? then QueryString(r.query.value) else MatchAll,
      explain,
      if r.filter.Some? then Some(QueryString(r.filter.value)) else None,
      Facets(r.facets),
      if r.script.Some? then Some(map[r.script.value.0 := Script(r.script.value.1)]) else None,
      Projection(r.fields),
      Sort(r.order),
      lim.from,
      lim.size)
  }

  /** The body, path and parameters for `r`, with the `explain` and
      `validate` flags of `search` and the session's debug flag, and the
      request's limit list as `pop(0)` leaves it. */
  function Translate(r: Request, explain: bool, validate: bool, debug: bool): (t: Translation)
    ensures t.body == TranslateBody(r, explain)
    // The offset, when there is one, is popped off the limit list.
    ensures t.limit == (if |r.limit| > 1 then r.limit[1..] else r.limit)
    ensures t.body.from.Some? ==> [t.body.from.value] + t.limit == r.limit
    ensures t.body.size.Some? ==> t.body.size.value == t.limit[0]
    // Path: the index with its dots turned into slashes, then the endpoint.
    ensures |t.path| > |r.index| && t.path[..|r.index|] == ReplaceDots(r.index) && '.' !in t.path
    ensures t.path[|r.index|..] == (if validate then "/_validate/query" else "/search")
    // Parameters: pretty and explain when validating, pretty alone in debug mode.
    ensures t.params.Some? <==> (validate || debug)
    ensures t.params == Some(PrettyExplain) <==> validate
  {
    var params := if validate then Some(PrettyExplain) else if debug then Some(Pretty) else None;
    Translation(Path(r.index, validate), params, TranslateBody(r, explain), SplitLimit(r.limit).rest)
  }

  /** A request naming only an index translates to a bare match-all search. */
  lemma IndexOnly(index: string)
    ensures Translate(Request(index, None, None, [], None, [], [], []), false, false, false) ==
            Translation(ReplaceDots(index) + "/search", None,
                        Body(MatchAll, false, None, None, None, None, None, None, None), [])
  {
  }

  /** The sample paths: dotted indexes address nested resources. */
  lemma PathSamples(index: string)
    requires index == "logs.app"
    ensures Path(index, false) == "logs/app/search"
    ensures Path(index, true) == "logs/app/_validate/query"
  {
    var r := ReplaceDots(index);
    assert r == "logs/app" by {
      assert index[0] == 'l' && index[1] == 'o' && index[2] == 'g' && index[3] == 's' && index[4] == '.';
      assert index[5] == 'a' && index[6] == 'p' && index[7] == 'p';
      forall i | 0 <= i < 8 ensures r[i] == "logs/app"[i] {
      }
    }
    assert Path(index, false) == r + "/search";
    assert Path(index, true) == r + "/_validate/query";
    assert "logs/app" + "/search" == "logs/app/search";
    assert "logs/app" + "/_validate/query" == "logs/app/_validate/query";
  }
}
