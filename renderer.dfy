/**
 * The result renderer of `ElseSearch.search`: the lines printed for a
 * search-engine response. Shapes are checked in a fixed order (`valid`,
 * `error`, `_shards.failures`, `hits`, then `facets`); the first three end
 * the output. Every key the source reads with `[...]` may be missing: the
 * lookup then raises `KeyError`, and the output records that key and holds
 * what was printed before it.
 */
module Renderer {
  import opened PyValues
  import opened Csv
  import opened Translator

  // A decoded response; `None` is a missing key.

  datatype Explanation = Explanation(error: Option<string>)
  datatype ShardFailure = ShardFailure(reason: Option<string>)
  /** The `_shards` object; `failures` may be missing. */
  datatype Shards = Shards(failures: Option<seq<ShardFailure>>)

  /** One hit: its top-level scalar entries, its `fields` bucket if present,
      and its `_source` document (as key/value pairs in dictionary order) if
      present. */
  datatype Hit = Hit(top: map<string, Value>, fields: Option<map<string, Value>>, source: Option<seq<(string, Value)>>)
  /** The `hits` object: `total` and the list `hits`. */
  datatype Hits = Hits(total: Option<int>, hits: Option<seq<Hit>>)
  datatype Term = Term(term: Option<Value>, count: Option<int>)
  /** One entry of the `facets` object: its name and its `terms` list. */
  datatype Facet = Facet(name: string, terms: Option<seq<Term>>)

  datatype Response = Response(
    valid: Option<bool>,
    explanations: Option<seq<Explanation>>,
    error: Option<string>,
    shards: Option<Shards>,
    hits: Option<Hits>,
    facets: Option<seq<Facet>>)

  /** The printed lines and, when the output stopped on a `KeyError`, the
      missing key. A `print a, b` whose `b` raises has already written `a`:
      that text is then the last line, without its line break. */
  datatype Output = Output(lines: seq<string>, keyError: Option<string>)

  function Lines(l: seq<string>): Output {
    Output(l, None)
  }

  /** `a`, then `b` unless `a` stopped on a `KeyError`. */
  function Then(a: Output, b: Output): Output {
    if a.keyError.Some? then a else Output(a.lines + b.lines, b.keyError)
  }

  /** A `for` loop printing `f(p, x)` for each `x` of `xs`, stopping at the first `KeyError`. */
  function Each<P, T>(p: P, xs: seq<T>, f: (P, T) -> Output): Output {
    if xs == [] then Lines([]) else Then(Each(p, xs[..|xs| - 1], f), f(p, xs[|xs| - 1]))
  }

  // The printed forms of the response's parts.

  /** `print "ERROR:", e['error']` */
  function ExplanationLine(u: (), e: Explanation): Output {
    if e.error.None? then Output(["ERROR:"], Some("error")) else Lines(["ERROR: " + e.error.value])
  }

  function ValidReport(valid: bool, explanations: Option<seq<Explanation>>): Output {
    Then(Lines(["valid: " + Repr(Bool(valid))]),
         if explanations.Some? then Then(Lines([""]), Each((), explanations.value, ExplanationLine))
         else Lines([]))
  }

  /** `print "ERROR:", f['reason']` */
  function FailureLine(u: (), f: ShardFailure): Output {
    if f.reason.None? then Output(["ERROR:"], Some("reason")) else Lines(["ERROR: " + f.reason.value])
  }

  /** `hit.get(x) or hit['fields'].get(x)`: a falsy top-level value falls back
      to the `fields` bucket; `None` when that bucket is missing (`KeyError`). */
  function Projected(h: Hit, x: string): Option<Value> {
    if x in h.top && Truthy(h.top[x]) then Some(h.top[x])
    else if h.fields.None? then None
    else Some(if x in h.fields.value then h.fields.value[x] else Null)
  }

  /** The projected values of one hit, or `None` if one of them raised `KeyError`. */
  function Cells(h: Hit, xs: seq<string>): (c: Option<seq<Value>>)
    ensures c.None? <==> exists j :: 0 <= j < |xs| && Projected(h, xs[j]).None?
    ensures c.Some? ==> |c.value| == |xs| && forall j :: 0 <= j < |xs| ==> Projected(h, xs[j]) == Some(c.value[j])
  {
    if xs == [] then Some([])
    else
      var first := Projected(h, xs[0]);
      var rest := Cells(h, xs[1..]);
      if first.None? then None
      else if rest.None? then None
      else Some([first.value] + rest.value)
  }

  function ProjectedRow(fields: seq<string>, h: Hit): Output {
    var cells := Cells(h, fields);
    if cells.None? then Output([], Some("fields")) else Lines([CsvLine(cells.value)])
  }

  function SourceKeys(src: seq<(string, Value)>): (r: seq<Value>)
    ensures |r| == |src| && forall i :: 0 <= i < |src| ==> r[i] == Str(src[i].0)
  {
    seq(|src|, i requires 0 <= i < |src| => Str(src[i].0))
  }

  /** `[_csval(x) for x in source.values()]`, each of which `_csvline` encodes again. */
  function EncodedValues(src: seq<(string, Value)>): (r: seq<Value>)
    ensures |r| == |src| && forall i :: 0 <= i < |src| ==> r[i] == Str(Csval(src[i].1))
  {
    seq(|src|, i requires 0 <= i < |src| => Str(Csval(src[i].1)))
  }

  function SourceHeader(hs: seq<Hit>): Output {
    if hs == [] then Lines([])
    else if hs[0].source.None? then Output([], Some("_source"))
    else Lines([CsvLine(SourceKeys(hs[0].source.value))])
  }

  function SourceRow(u: (), h: Hit): Output {
    if h.source.None? then Output([], Some("_source")) else Lines([CsvLine(EncodedValues(h.source.value))])
  }

  /** `print ""` then `print "total: ", result['hits']['total']`. */
  function TotalLines(h: Hits): Output {
    if h.total.None? then Output(["", "total: "], Some("total"))
    else Lines(["", "total:  " + IntToStr(h.total.value)])
  }

  /** The header and rows of the hits; `result['hits']['hits']` is read after
      the header with a projection, and first without one. */
  function HitRows(h: Hits, projection: Option<seq<string>>): Output {
    if projection.Some? then
      Then(Lines([CsvLine(Strs(projection.value))]),
           if h.hits.None? then Output([], Some("hits")) else Each(projection.value, h.hits.value, ProjectedRow))
    else if h.hits.None? then Output([], Some("hits"))
    else Then(SourceHeader(h.hits.value), Each((), h.hits.value, SourceRow))
  }

  /** `t = _['term']`, `c = _['count']`, then `print "%s,%s" % (_csval(t), c)`. */
  function TermLine(u: (), t: Term): Output {
    if t.term.None? then Output([], Some("term"))
    else if t.count.None? then Output([], Some("count"))
    else Lines([Csval(t.term.value) + "," + IntToStr(t.count.value)])
  }

  function FacetBlock(u: (), f: Facet): Output {
    Then(Lines(["", Csval(Str(f.name)) + ",count"]),
         if f.terms.None? then Output([], Some("terms")) else Each((), f.terms.value, TermLine))
  }

  function HitsOutput(hits: Option<Hits>, projection: Option<seq<string>>): Output {
    if hits.Some? then Then(HitRows(hits.value, projection), TotalLines(hits.value)) else Lines([])
  }

  function FacetsOutput(facets: Option<seq<Facet>>): Output {
    if facets.Some? then Each((), facets.value, FacetBlock) else Lines([])
  }

  /** The output of `search` for response `res` to a request with body `body`. */
  function Render(res: Response, body: Body): Output {
    if res.valid.Some? then ValidReport(res.valid.value, res.explanations)
    else if res.error.Some? then Lines(["ERROR: " + res.error.value])
    else if res.shards.None? then Output([], Some("_shards"))
    else if res.shards.value.failures.Some? then Each((), res.shards.value.failures.value, FailureLine)
    else Then(HitsOutput(res.hits, body.fields), FacetsOutput(res.facets))
  }

  // The printing loops.

  lemma {:induction false} EachStops<P, T>(p: P, xs: seq<T>, f: (P, T) -> Output, i: nat)
    requires i <= |xs|
    requires Each(p, xs[..i], f).keyError.Some?
    ensures Each(p, xs, f) == Each(p, xs[..i], f)
    decreases |xs| - i
  {
    if i < |xs| {
      assert xs[..i + 1][..i] == xs[..i];
      EachStops(p, xs, f, i + 1);
    } else {
      assert xs[..i] == xs;
    }
  }

  /** Prints `f(p, x)` for each `x` of `xs` in turn, and stops at the first `KeyError`. */
  method EmitEach<P, T>(p: P, xs: seq<T>, f: (P, T) -> Output) returns (out: Output)
    ensures out == Each(p, xs, f)
  {
    var lines: seq<string> := [];
    var i := 0;
    while i < |xs|
      invariant 0 <= i <= |xs|
      invariant Each(p, xs[..i], f) == Lines(lines)
    {
      assert xs[..i + 1][..i] == xs[..i];
      var o := f(p, xs[i]);
      if o.keyError.Some? {
        EachStops(p, xs, f, i + 1);
        return Output(lines + o.lines, o.keyError);
      }
      lines := lines + o.lines;
      i := i + 1;
    }
    assert xs[..i] == xs;
    out := Lines(lines);
  }

  /** The rendering part of `search`, shape by shape, proved to print what `Render` says. */
  method RenderResponse(res: Response, body: Body) returns (out: Output)
    ensures out == Render(res, body)
  {
    if res.valid.Some? {
      out := Lines(["valid: " + Repr(Bool(res.valid.value))]);
      if res.explanations.Some? {
        var errors := EmitEach((), res.explanations.value, ExplanationLine);
        out := Then(out, Then(Lines([""]), errors));
      }
      return;
    }
    if res.error.Some? {
      return Lines(["ERROR: " + res.error.value]);
    }
    if res.shards.None? {
      return Output([], Some("_shards"));
    }
    if res.shards.value.failures.Some? {
      out := EmitEach((), res.shards.value.failures.value, FailureLine);
      return;
    }
    out := Lines([]);
    if res.hits.Some? {
      var h := res.hits.value;
      if body.fields.Some? {
        out := Lines([CsvLine(Strs(body.fields.value))]);
        if h.hits.None? {
          return Output(out.lines, Some("hits"));
        }
        var rows := EmitEach(body.fields.value, h.hits.value, ProjectedRow);
        out := Then(out, rows);
      } else {
        if h.hits.None? {
          return Output([], Some("hits"));
        }
        var rows := EmitEach((), h.hits.value, SourceRow);
        out := Then(SourceHeader(h.hits.value), rows);
      }
      if out.keyError.Some? {
        return;
      }
      out := Then(out, TotalLines(h));
      if out.keyError.Some? {
        return;
      }
    }
    if res.facets.Some? {
      var blocks := EmitEach((), res.facets.value, FacetBlock);
      out := Then(out, blocks);
    }
  }

  // What the output looks like, shape by shape.

  lemma {:induction false} EachNoError<P, T>(p: P, xs: seq<T>, f: (P, T) -> Output)
    requires forall k :: 0 <= k < |xs| ==> f(p, xs[k]).keyError.None?
    ensures Each(p, xs, f).keyError.None?
  {
    if xs != [] {
      var n := |xs| - 1;
      assert forall k :: 0 <= k < n ==> xs[..n][k] == xs[k];
      EachNoError(p, xs[..n], f);
    }
  }

  /** A loop whose every step prints one line and raises nothing prints
      one line per item, in order. */
  lemma {:induction false} EachOneLineEach<P, T>(p: P, xs: seq<T>, f: (P, T) -> Output)
    requires forall k :: 0 <= k < |xs| ==> f(p, xs[k]).keyError.None? && |f(p, xs[k]).lines| == 1
    ensures Each(p, xs, f).keyError.None?
    ensures |Each(p, xs, f).lines| == |xs|
    ensures forall k :: 0 <= k < |xs| ==> Each(p, xs, f).lines[k] == f(p, xs[k]).lines[0]
  {
    if xs != [] {
      var n := |xs| - 1;
      assert forall k :: 0 <= k < n ==> xs[..n][k] == xs[k];
      EachOneLineEach(p, xs[..n], f);
    }
  }

  /** A loop stops at its first `KeyError`, with what it printed before. */
  lemma EachStopsAtFirstError<P, T>(p: P, xs: seq<T>, f: (P, T) -> Output, k: nat)
    requires k < |xs| && f(p, xs[k]).keyError.Some?
    requires forall j :: 0 <= j < k ==> f(p, xs[j]).keyError.None?
    ensures Each(p, xs, f) == Then(Each(p, xs[..k], f), f(p, xs[k]))
    ensures Each(p, xs, f).keyError == f(p, xs[k]).keyError
  {
    assert forall j :: 0 <= j < k ==> xs[..k][j] == xs[j];
    EachNoError(p, xs[..k], f);
    assert xs[..k + 1][..k] == xs[..k];
    EachStops(p, xs, f, k + 1);
  }

  /** If some step of a loop raises, there is a first such step. */
  lemma {:induction false} FirstFailing<P, T>(p: P, xs: seq<T>, f: (P, T) -> Output) returns (k: nat)
    requires exists j :: 0 <= j < |xs| && f(p, xs[j]).keyError.Some?
    ensures k < |xs| && f(p, xs[k]).keyError.Some?
    ensures forall j :: 0 <= j < k ==> f(p, xs[j]).keyError.None?
  {
    if f(p, xs[0]).keyError.Some? {
      k := 0;
    } else {
      var j :| 0 <= j < |xs| && f(p, xs[j]).keyError.Some?;
      assert xs[1..][j - 1] == xs[j];
      var k' := FirstFailing(p, xs[1..], f);
      k := k' + 1;
      assert forall i :: 1 <= i < k ==> xs[i] == xs[1..][i - 1];
    }
  }

  /** A loop raises exactly when one of its steps does, and then with the
      key of one of its steps (the first that raises). */
  lemma EachErrorIff<P, T>(p: P, xs: seq<T>, f: (P, T) -> Output)
    ensures Each(p, xs, f).keyError.None? <==> forall k :: 0 <= k < |xs| ==> f(p, xs[k]).keyError.None?
    ensures Each(p, xs, f).keyError.Some? ==>
              exists k :: 0 <= k < |xs| && Each(p, xs, f).keyError == f(p, xs[k]).keyError
  {
    if forall k :: 0 <= k < |xs| ==> f(p, xs[k]).keyError.None? {
      EachNoError(p, xs, f);
    } else {
      var k := FirstFailing(p, xs, f);
      EachStopsAtFirstError(p, xs, f, k);
    }
  }

  /** `valid` comes first: `valid: <v>`, then a blank line and one `ERROR:`
      line per explanation when there are explanations. */
  lemma RenderValid(res: Response, body: Body)
    requires res.valid.Some?
    ensures Render(res, body).lines != []
    ensures Render(res, body).lines[0] == "valid: " + (if res.valid.value then "True" else "False")
    ensures res.explanations.None? ==> Render(res, body) == Lines([Render(res, body).lines[0]])
    ensures res.explanations.Some? && (forall k :: 0 <= k < |res.explanations.value| ==> res.explanations.value[k].error.Some?) ==>
              var out := Render(res, body);
              var es := res.explanations.value;
              out.keyError.None? && |out.lines| == |es| + 2 && out.lines[1] == "" &&
              forall k :: 2 <= k < |out.lines| ==> out.lines[k] == "ERROR: " + es[k - 2].error.value
    ensures res.explanations.Some? && (exists k :: 0 <= k < |res.explanations.value| && res.explanations.value[k].error.None?) ==>
              Render(res, body).keyError == Some("error")
  {
    if res.explanations.Some? {
      var es := res.explanations.value;
      if forall k :: 0 <= k < |es| ==> es[k].error.Some? {
        EachOneLineEach((), es, ExplanationLine);
      } else {
        EachErrorIff((), es, ExplanationLine);
      }
    }
  }

  /** Then `error`: one `ERROR:` line. Then `_shards`, which must exist:
      when it has `failures`, one `ERROR:` line per failure, even none, and
      nothing else; a failure without `reason` raises. */
  lemma RenderErrors(res: Response, body: Body)
    requires res.valid.None?
    ensures res.error.Some? ==> Render(res, body) == Lines(["ERROR: " + res.error.value])
    ensures res.error.None? && res.shards.None? ==> Render(res, body) == Output([], Some("_shards"))
    ensures res.error.None? && res.shards.Some? && res.shards.value.failures.Some? &&
            (forall k :: 0 <= k < |res.shards.value.failures.value| ==> res.shards.value.failures.value[k].reason.Some?) ==>
              var out := Render(res, body);
              var fs := res.shards.value.failures.value;
              out.keyError.None? && |out.lines| == |fs| &&
              forall k :: 0 <= k < |fs| ==> out.lines[k] == "ERROR: " + fs[k].reason.value
    ensures res.error.None? && res.shards.Some? && res.shards.value.failures.Some? &&
            (exists k :: 0 <= k < |res.shards.value.failures.value| && res.shards.value.failures.value[k].reason.None?) ==>
              Render(res, body).keyError == Some("reason")
  {
    if res.error.None? && res.shards.Some? && res.shards.value.failures.Some? {
      var fs := res.shards.value.failures.value;
      if forall k :: 0 <= k < |fs| ==> fs[k].reason.Some? {
        EachOneLineEach((), fs, FailureLine);
      } else {
        EachErrorIff((), fs, FailureLine);
      }
    }
  }

  /** The first matching shape decides the output: the keys checked after it
      are never looked at. */
  lemma RenderPrecedence(res: Response, body: Body, other: Response, otherBody: Body)
    ensures res.valid.Some? ==>
              Render(res, body) == Render(other.(valid := res.valid, explanations := res.explanations), otherBody)
    ensures res.valid.None? && res.error.Some? ==>
              Render(res, body) == Render(other.(valid := None, error := res.error), otherBody)
    ensures res.valid.None? && res.error.None? && res.shards.Some? && res.shards.value.failures.Some? ==>
              Render(res, body) == Render(other.(valid := None, error := None, shards := res.shards), otherBody)
  {
  }

  /** A facet entry the source can print in full: it has `terms`, and every
      term has `term` and `count`. */
  predicate CompleteFacet(f: Facet) {
    f.terms.Some? && forall k :: 0 <= k < |f.terms.value| ==> f.terms.value[k].term.Some? && f.terms.value[k].count.Some?
  }

  /** A facet block: a blank line and `<name>,count`, printed before `terms`
      is read; then `<term>,<count>` per term. It raises exactly when the
      entry is not complete. */
  lemma FacetBlockLines(f: Facet)
    ensures |FacetBlock((), f).lines| >= 2
    ensures FacetBlock((), f).lines[0] == "" && FacetBlock((), f).lines[1] == Csval(Str(f.name)) + ",count"
    ensures FacetBlock((), f).keyError.None? <==> CompleteFacet(f)
    ensures f.terms.None? ==> FacetBlock((), f) == Output(["", Csval(Str(f.name)) + ",count"], Some("terms"))
    ensures CompleteFacet(f) ==>
              |FacetBlock((), f).lines| == |f.terms.value| + 2 &&
              forall k :: 2 <= k < |f.terms.value| + 2 ==>
                FacetBlock((), f).lines[k] ==
                  Csval(f.terms.value[k - 2].term.value) + "," + IntToStr(f.terms.value[k - 2].count.value)
  {
    var o := FacetBlock((), f);
    if f.terms.Some? {
      var ts := f.terms.value;
      var e := Each((), ts, TermLine);
      EachErrorIff((), ts, TermLine);
      assert o.lines == ["", Csval(Str(f.name)) + ",count"] + e.lines;
      if CompleteFacet(f) {
        EachOneLineEach((), ts, TermLine);
        forall k | 2 <= k < |ts| + 2
          ensures o.lines[k] == Csval(ts[k - 2].term.value) + "," + IntToStr(ts[k - 2].count.value)
        {
          assert o.lines[k] == e.lines[k - 2] == TermLine((), ts[k - 2]).lines[0];
        }
      } else {
        var k :| 0 <= k < |ts| && !(ts[k].term.Some? && ts[k].count.Some?);
        assert TermLine((), ts[k]).keyError.Some?;
      }
    }
  }

  /** The facet blocks raise exactly when some facet entry is not complete. */
  lemma FacetsComplete(facets: Option<seq<Facet>>)
    ensures FacetsOutput(facets).keyError.None? <==>
              (facets.None? || forall k :: 0 <= k < |facets.value| ==> CompleteFacet(facets.value[k]))
  {
    if facets.Some? {
      forall k | 0 <= k < |facets.value|
        ensures FacetBlock((), facets.value[k]).keyError.None? <==> CompleteFacet(facets.value[k])
      {
        FacetBlockLines(facets.value[k]);
      }
      EachErrorIff((), facets.value, FacetBlock);
    }
  }

  /** The projected rows: one per hit, each reading back as the texts of the
      hit's projected values, when no projection raises `KeyError`. */
  lemma ProjectedRows(fields: seq<string>, hs: seq<Hit>)
    requires fields != []
    requires forall k :: 0 <= k < |hs| ==> Cells(hs[k], fields).Some?
    ensures Each(fields, hs, ProjectedRow).keyError.None?
    ensures |Each(fields, hs, ProjectedRow).lines| == |hs|
    ensures forall k :: 0 <= k < |hs| ==> Each(fields, hs, ProjectedRow).lines[k] == CsvLine(Cells(hs[k], fields).value)
    ensures forall k :: 0 <= k < |hs| ==>
              |ParseRow(Each(fields, hs, ProjectedRow).lines[k])| == |fields| &&
              forall j :: 0 <= j < |fields| ==>
                Projected(hs[k], fields[j]) == Some(Cells(hs[k], fields).value[j]) &&
                ParseRow(Each(fields, hs, ProjectedRow).lines[k])[j] == Text(Cells(hs[k], fields).value[j])
  {
    EachOneLineEach(fields, hs, ProjectedRow);
    var rows := Each(fields, hs, ProjectedRow);
    forall k | 0 <= k < |hs|
      ensures rows.lines[k] == CsvLine(Cells(hs[k], fields).value)
      ensures |ParseRow(rows.lines[k])| == |fields|
      ensures forall j :: 0 <= j < |fields| ==> ParseRow(rows.lines[k])[j] == Text(Cells(hs[k], fields).value[j])
    {
      assert rows.lines[k] == ProjectedRow(fields, hs[k]).lines[0];
      RowRoundTrip(Cells(hs[k], fields).value);
    }
  }

  /** A projected value that falls back to a missing `fields` bucket stops
      the rows with `KeyError: 'fields'`. */
  lemma ProjectedRowsMissingFields(fields: seq<string>, hs: seq<Hit>)
    requires exists k :: 0 <= k < |hs| && Cells(hs[k], fields).None?
    ensures Each(fields, hs, ProjectedRow).keyError == Some("fields")
  {
    EachErrorIff(fields, hs, ProjectedRow);
  }

  /** The hits part with a projection: a header of the field names, the rows,
      a blank line and the total, or `total: ` and `KeyError` when `total` is
      missing. */
  lemma HitsProjected(h: Hits, fields: seq<string>)
    requires fields != [] && h.hits.Some?
    requires forall k :: 0 <= k < |h.hits.value| ==> Cells(h.hits.value[k], fields).Some?
    ensures var out := HitsOutput(Some(h), Some(fields));
            var n := |h.hits.value|;
            |out.lines| == n + 3 &&
            ParseRow(out.lines[0]) == fields &&
            out.lines[1..n + 1] == Each(fields, h.hits.value, ProjectedRow).lines &&
            out.lines[n + 1] == "" &&
            (h.total.Some? ==> out.keyError.None? && out.lines[n + 2] == "total:  " + IntToStr(h.total.value)) &&
            (h.total.None? ==> out.keyError == Some("total") && out.lines[n + 2] == "total: ")
  {
    ProjectedRows(fields, h.hits.value);
    var rows := Each(fields, h.hits.value, ProjectedRow);
    var out := HitsOutput(Some(h), Some(fields));
    var total := TotalLines(h);
    var header := CsvLine(Strs(fields));
    assert out == Output([header] + rows.lines + total.lines, total.keyError);
    var n := |h.hits.value|;
    assert |total.lines| == 2;
    assert out.lines[0] == header;
    assert out.lines[n + 1] == total.lines[0] && out.lines[n + 2] == total.lines[1];
    HeaderReadsBack(fields);
  }

  /** The header of field names reads back as the names. */
  lemma HeaderReadsBack(fields: seq<string>)
    requires fields != []
    ensures ParseRow(CsvLine(Strs(fields))) == fields
  {
    RowRoundTrip(Strs(fields));
  }

  /** A `hits` object without its `hits` list raises `KeyError` after the
      header with a projection, and before anything without one. */
  lemma HitsMissingList(h: Hits, projection: Option<seq<string>>)
    requires h.hits.None?
    ensures projection.Some? ==> HitsOutput(Some(h), projection) == Output([CsvLine(Strs(projection.value))], Some("hits"))
    ensures projection.None? ==> HitsOutput(Some(h), projection) == Output([], Some("hits"))
  {
  }

  /** With no `valid`, `error` or shard failures, the hits part (when there
      is one) and then the facet blocks. */
  lemma RenderHits(res: Response, body: Body)
    requires res.valid.None? && res.error.None? && res.shards.Some? && res.shards.value.failures.None?
    ensures HitsOutput(res.hits, body.fields).keyError.Some? ==> Render(res, body) == HitsOutput(res.hits, body.fields)
    ensures HitsOutput(res.hits, body.fields).keyError.None? ==>
              Render(res, body) ==
                Output(HitsOutput(res.hits, body.fields).lines + FacetsOutput(res.facets).lines, FacetsOutput(res.facets).keyError)
    ensures res.hits.None? ==> Render(res, body) == FacetsOutput(res.facets)
  {
  }

  /** Hits with a projection: a header of the field names, one row per hit
      whose cells read back as the texts of the hit's values (top-level when
      truthy, else from `fields`), a blank line, the total, then the facet
      blocks. */
  lemma RenderProjectedHits(res: Response, body: Body)
    requires res.valid.None? && res.error.None? && res.shards.Some? && res.shards.value.failures.None?
    requires res.hits.Some? && res.hits.value.hits.Some? && res.hits.value.total.Some?
    requires body.fields.Some? && body.fields.value != []
    requires forall k :: 0 <= k < |res.hits.value.hits.value| ==> Cells(res.hits.value.hits.value[k], body.fields.value).Some?
    ensures var out := Render(res, body);
            var n := |res.hits.value.hits.value|;
            |out.lines| >= n + 3 &&
            ParseRow(out.lines[0]) == body.fields.value &&
            out.lines[1..n + 1] == Each(body.fields.value, res.hits.value.hits.value, ProjectedRow).lines &&
            out.lines[n + 1] == "" && out.lines[n + 2] == "total:  " + IntToStr(res.hits.value.total.value) &&
            out.lines[n + 3..] == FacetsOutput(res.facets).lines &&
            out.keyError == FacetsOutput(res.facets).keyError
  {
    HitsProjected(res.hits.value, body.fields.value);
    RenderHits(res, body);
    var hits := HitsOutput(res.hits, body.fields);
    var out := Render(res, body);
    var n := |res.hits.value.hits.value|;
    assert out.lines[..n + 3] == hits.lines;
    assert out.lines[1..n + 1] == hits.lines[1..n + 1];
    assert out.lines[n + 1] == hits.lines[n + 1] && out.lines[n + 2] == hits.lines[n + 2];
  }

  /** The `_source` rows: one per hit, of its values each encoded twice, so
      that a row reads back as the once-encoded fields, not as the values. */
  lemma SourceRows(hs: seq<Hit>)
    requires forall k :: 0 <= k < |hs| ==> hs[k].source.Some?
    ensures Each((), hs, SourceRow).keyError.None?
    ensures |Each((), hs, SourceRow).lines| == |hs|
    ensures forall k :: 0 <= k < |hs| ==> Each((), hs, SourceRow).lines[k] == CsvLine(EncodedValues(hs[k].source.value))
    ensures forall k :: 0 <= k < |hs| && hs[k].source.value != [] ==>
              |ParseRow(Each((), hs, SourceRow).lines[k])| == |hs[k].source.value| &&
              forall j :: 0 <= j < |hs[k].source.value| ==>
                ParseRow(Each((), hs, SourceRow).lines[k])[j] == Csval(hs[k].source.value[j].1)
  {
    EachOneLineEach((), hs, SourceRow);
    var rows := Each((), hs, SourceRow);
    forall k | 0 <= k < |hs|
      ensures rows.lines[k] == CsvLine(EncodedValues(hs[k].source.value))
      ensures hs[k].source.value != [] ==>
                |ParseRow(rows.lines[k])| == |hs[k].source.value| &&
                forall j :: 0 <= j < |hs[k].source.value| ==> ParseRow(rows.lines[k])[j] == Csval(hs[k].source.value[j].1)
    {
      assert rows.lines[k] == SourceRow((), hs[k]).lines[0];
      var src := hs[k].source.value;
      if src != [] {
        RowRoundTrip(EncodedValues(src));
        forall j | 0 <= j < |src| ensures Text(EncodedValues(src)[j]) == Csval(src[j].1) {
        }
      }
    }
  }

  /** A hit without `_source` stops the rows with `KeyError: '_source'`. */
  lemma SourceRowsMissingSource(hs: seq<Hit>)
    requires exists k :: 0 <= k < |hs| && hs[k].source.None?
    ensures Each((), hs, SourceRow).keyError == Some("_source")
  {
    EachErrorIff((), hs, SourceRow);
  }

  /** The hits part without a projection: when there is a hit, a header of
      the first hit's `_source` keys; then the rows, a blank line and the
      total, or `total: ` and `KeyError` when `total` is missing. */
  lemma HitsFromSource(h: Hits)
    requires h.hits.Some?
    requires forall k :: 0 <= k < |h.hits.value| ==> h.hits.value[k].source.Some?
    ensures var out := HitsOutput(Some(h), None);
            var hs := h.hits.value;
            var m := if hs == [] then 0 else 1;
            |out.lines| == m + |hs| + 2 &&
            (hs != [] && hs[0].source.value != [] ==>
               |ParseRow(out.lines[0])| == |hs[0].source.value| &&
               forall j :: 0 <= j < |hs[0].source.value| ==> ParseRow(out.lines[0])[j] == hs[0].source.value[j].0) &&
            out.lines[m..m + |hs|] == Each((), hs, SourceRow).lines &&
            out.lines[m + |hs|] == "" &&
            (h.total.Some? ==> out.keyError.None? && out.lines[m + |hs| + 1] == "total:  " + IntToStr(h.total.value)) &&
            (h.total.None? ==> out.keyError == Some("total") && out.lines[m + |hs| + 1] == "total: ")
  {
    var hs := h.hits.value;
    var m := if hs == [] then 0 else 1;
    SourceRows(hs);
    var rows := Each((), hs, SourceRow);
    var header := SourceHeader(hs);
    assert |header.lines| == m && header.keyError.None?;
    var out := HitsOutput(Some(h), None);
    var total := TotalLines(h);
    assert out == Output(header.lines + rows.lines + total.lines, total.keyError);
    if hs != [] && hs[0].source.value != [] {
      RowRoundTrip(SourceKeys(hs[0].source.value));
      assert out.lines[0] == header.lines[0];
    }
  }

  /** Hits without a projection, followed by the facet blocks. */
  lemma RenderSourceHits(res: Response, body: Body)
    requires res.valid.None? && res.error.None? && res.shards.Some? && res.shards.value.failures.None?
    requires res.hits.Some? && res.hits.value.hits.Some? && res.hits.value.total.Some? && body.fields.None?
    requires forall k :: 0 <= k < |res.hits.value.hits.value| ==> res.hits.value.hits.value[k].source.Some?
    ensures var out := Render(res, body);
            var hs := res.hits.value.hits.value;
            var m := if hs == [] then 0 else 1;
            |out.lines| >= m + |hs| + 2 &&
            out.lines[..m + |hs| + 2] == HitsOutput(res.hits, None).lines &&
            out.lines[m..m + |hs|] == Each((), hs, SourceRow).lines &&
            out.lines[m + |hs|] == "" && out.lines[m + |hs| + 1] == "total:  " + IntToStr(res.hits.value.total.value) &&
            out.lines[m + |hs| + 2..] == FacetsOutput(res.facets).lines &&
            out.keyError == FacetsOutput(res.facets).keyError
  {
    HitsFromSource(res.hits.value);
    RenderHits(res, body);
    var hs := res.hits.value.hits.value;
    var m := if hs == [] then 0 else 1;
    var hits := HitsOutput(res.hits, body.fields);
    var out := Render(res, body);
    assert out.lines[..m + |hs| + 2] == hits.lines;
    assert out.lines[m..m + |hs|] == hits.lines[m..m + |hs|];
    assert out.lines[m + |hs|] == hits.lines[m + |hs|] && out.lines[m + |hs| + 1] == hits.lines[m + |hs| + 1];
  }

  // Two sample responses.

  /** A failed validation with one explanation. */
  lemma ValidSample(body: Body)
    ensures Render(Response(Some(false), Some([Explanation(Some("bad syntax"))]), None, None, None, None), body) ==
            Lines(["valid: False", "", "ERROR: bad syntax"])
  {
    var es := [Explanation(Some("bad syntax"))];
    assert es[..0] == [];
    assert "ERROR: " + "bad syntax" == "ERROR: bad syntax";
    assert Each((), es, ExplanationLine) == Then(Lines([]), Lines(["ERROR: bad syntax"]));
    assert "valid: " + Repr(Bool(false)) == "valid: False";
  }

  /** Two hits with their `_source` documents and no projection. */
  lemma SourceSample(body: Body)
    requires body.fields.None?
    ensures Render(Response(None, None, None, Some(Shards(None)),
                            Some(Hits(Some(2), Some([Hit(map[], None, Some([("a", Int(1)), ("b", Int(2))])),
                                                     Hit(map[], None, Some([("a", Int(3)), ("b", Int(4))]))]))),
                            None), body) ==
            Lines(["a,b", "1,2", "3,4", "", "total:  2"])
  {
    var h1 := Hit(map[], None, Some([("a", Int(1)), ("b", Int(2))]));
    var h2 := Hit(map[], None, Some([("a", Int(3)), ("b", Int(4))]));
    var hs := [h1, h2];
    assert IsAlnum("1") && IsAlnum("2") && IsAlnum("3") && IsAlnum("4") && IsAlnum("a") && IsAlnum("b");
    assert CsvLine(SourceKeys(h1.source.value)) == "a,b";
    assert CsvLine(EncodedValues(h1.source.value)) == "1,2";
    assert CsvLine(EncodedValues(h2.source.value)) == "3,4";
    assert hs[..1] == [h1] && [h1][..0] == [];
    assert Each((), [h1], SourceRow) == Then(Lines([]), Lines(["1,2"]));
    assert Each((), hs, SourceRow) == Then(Each((), [h1], SourceRow), Lines(["3,4"]));
    assert Each((), hs, SourceRow) == Lines(["1,2", "3,4"]);
    var h := Hits(Some(2), Some(hs));
    assert SourceHeader(hs) == Lines(["a,b"]);
    assert HitRows(h, None) == Lines(["a,b", "1,2", "3,4"]);
    assert "total:  " + IntToStr(2) == "total:  2";
    assert TotalLines(h) == Lines(["", "total:  2"]);
    assert HitsOutput(Some(h), None) == Lines(["a,b", "1,2", "3,4", "", "total:  2"]);
  }
}
