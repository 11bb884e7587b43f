# elseql search core in Dafny

elseql is a small SQL-like query language for a search engine.
`elseql/search.py` holds its core, and this project models that core:

- **CSV encoder** (module `Csv`). `_csval` turns a scalar into one CSV field.
  `_csvline` joins fields with commas. A small CSV reader sits beside the encoder as its partner.
- **Query translator** (module `Translator`). It covers the part of `ElseSearch.search` that turns a parsed
  request into the request body, the URL path and the URL parameters. It also covers
  the `pop(0)` that removes the offset from the request's limit list.
- **Keyword vocabulary** (module `Vocabulary`). This is the set `get_keywords` computes: the language's keywords,
  `_score`, `_all`, index names, document types, property names at every depth,
  and `_source` when enabled. It is listed in Python's string order, with no duplicates.
- **Result renderer** (module `Renderer`). It gives the lines `search` prints for a search-engine
  response. The response shapes are checked in a fixed order: `valid`, `error`,
  `_shards.failures`, `hits`, then `facets`. When the source would raise `KeyError`, the output
  ends with the missing key and keeps the lines printed before it.
- **The session** (module `Session`, class `ElseSearch`). It holds the debug flag, the engine client, the mapping
  it fetched and the cached keyword list. `get_mapping`, `get_keywords` (with its nested
  `add_properties` walk) and `search` are imperative methods, each proved against the functions above.
- **Python scalars** (module `PyValues`). This module covers truthiness, `str()` of ints and bools, and `isalnum`.

The search engine's answers are parameters of the methods: the mapping `get_mapping` receives
and the response `search` receives. `None` stands for a `ConnectionError`.

### How `search.py` behaves at its edges

- **Limits longer than two** are not rejected. Only the first two elements are used: one becomes
  `from` and one becomes `size`.
- **Shard failures:** when `_shards` has a `failures` key, `search` prints one line per failure and
  then stops. This holds even when the list is empty.
- **`_shards` must exist:** a response with hits but no `_shards` raises `KeyError` at
  search.py:195 before printing any row (`Renderer.RenderErrors`). `Renderer.SourceSample`
  therefore gives its response an empty `_shards` object.
- **Projected fields:** the lookup falls back to `fields` whenever the top-level value is falsy, not
  only when it is absent. A missing `fields` bucket then raises `KeyError`.
- **An invalid query with one explanation** prints three lines, with a blank line after
  `valid: False` (`Renderer.ValidSample`).
- **Missing keys:** every `[...]` lookup of the renderer may raise `KeyError`: `_shards`, the `error`
  of an explanation, the `reason` of a failure, `hits` and `total` of the hits object, a hit's
  `fields` or `_source`, and a facet's `terms` or a term's `term` and `count`. A `print a, b`
  whose `b` raises has already written `a`, so `ERROR:` and `total: ` are left on the output.
- **Double encoding:** rows without a projection encode every value twice (`_csvline` of `_csval`s).
  The model reproduces this: such a row reads back as the once-encoded fields, not as the
  values (`Csv.DoubleEncoding`, `Renderer.SourceRows`).

## Model

| member | source | states |
|---|---|---|
| PyValues.Truthy | elseql/search.py:17 | the definition of `not v`: `None`, `False`, `0` and `''` are falsy (used by `Csv.Csval`, `Renderer.Projected` and `Session.AddType`) |
| PyValues.IsAlnum | elseql/search.py:23 | the definition of `isalnum` on ASCII: non-empty, only letters and digits (used by `Csv.Csval`) |
| PyValues.Repr | elseql/search.py:21 | the definition of `str` of a scalar: `None`, `True`/`False`, the digits of an int, a string itself (its int case is `PyValues.IntToStr`) |
| PyValues.NatToStr | elseql/search.py:21 | decimal digits of a natural number, non-empty, no leading zero |
| PyValues.IntToStr | elseql/search.py:21 | `str(i)`: a minus sign exactly for negative `i`, then only digits |
| PyValues.NatToStrRoundTrip | elseql/search.py:21 | the digits of `n` read back as `n` |
| PyValues.IntToStrRoundTrip | elseql/search.py:216 | `str` of an int is unambiguous: it reads back to the same int (totals and counts) |
| Csv.Csval | elseql/search.py:16-26 | empty exactly for falsy values; starts with a quote exactly for truthy non-alphanumeric strings; any comma is inside quotes |
| Csv.Escape | elseql/search.py:26 | doubling quotes never shortens the text |
| Csv.EscapeConcat | elseql/search.py:26 | quote doubling works piece by piece over concatenation |
| Csv.EscapeNoQuote | elseql/search.py:26 | text without quotes is unchanged by quote doubling |
| Csv.CsvLine | elseql/search.py:28-29 | the definition of `_csvline`: the fields of the values joined by commas; `Csv.RowRoundTrip` and `Csv.ThreeFields` state its properties |
| Csv.ReadQuotedEscape | elseql/search.py:26 | the reader undoes the quote doubling and finds the closing quote |
| Csv.ReadPlainOf | elseql/search.py:23-24 | an unquoted field without commas reads back verbatim up to the separator |
| Csv.FieldRoundTrip | elseql/search.py:16-26 | every encoded field reads back to the printed text of its value (empty for falsy values) |
| Csv.RowRoundTrip | elseql/search.py:28-29 | a row of one or more values reads back field by field, in order, to the texts of the values |
| Csv.ThreeFields | elseql/search.py:28-29 | a three-value row is the three fields joined by two commas, with no trailing separator |
| Csv.CsvalAlnumSample | elseql/search.py:23-24 | `abc123` is written unquoted |
| Csv.CsvalQuotedSample | elseql/search.py:26 | `a"b` is written `"a""b"` |
| Csv.EscapeQuotesSample | elseql/search.py:26 | the quotes of `he said "hi"` are doubled |
| Csv.CsvalQuotesSample | elseql/search.py:26 | `he said "hi"` is written `"he said ""hi"""` |
| Csv.CsvalScalarSamples | elseql/search.py:17-21 | `42` and `-7` print as digits; `0`, `False`, `None` and `''` give the empty field; `True` gives `True` |
| Csv.DoubleEncoding | elseql/search.py:213 | encoding a field twice changes it unless it is empty or alphanumeric; the reader recovers the once-encoded field |
| Translator.ReplaceDots | elseql/search.py:158 | same length, every `.` replaced by `/`, every other character kept, no `.` left |
| Translator.Command | elseql/search.py:157 | the command suffix holds no `.`, so the path's dots all come from the index |
| Translator.Path | elseql/search.py:157-158 | the index with dots as slashes, then `/_validate/query` when validating or `/search` otherwise; no `.` anywhere |
| Translator.Projection | elseql/search.py:134-146 | no `fields` key exactly for no fields, a lone `*` or a lone `count(*)`; otherwise the list verbatim |
| Translator.Facets | elseql/search.py:127-129 | a facets key exactly when there are facets, keyed by the distinct facet fields, each a terms facet on itself |
| Translator.Sort | elseql/search.py:148-149 | a sort key exactly when there is an order; one single-key map per pair, same length and order |
| Translator.SplitLimit | elseql/search.py:151-155 | `from` exactly when the limit has two or more elements and is then the popped head; `size` exactly when the limit is non-empty and is the first remaining element |
| Translator.TranslateBody | elseql/search.py:116-155 | the body has a `query` always (query string iff a query is given, else match-all) and each optional key iff its input is truthy, with the values above |
| Translator.Translate | elseql/search.py:116-162 | body, path and params; the limit list loses exactly its head when it has an offset; params are pretty+explain iff validating, pretty alone iff only debugging |
| Translator.IndexOnly | elseql/search.py:116-119 | a request with only an index translates to a bare match-all search with no optional keys |
| Translator.PathSamples | elseql/search.py:157-158 | `logs.app` addresses `logs/app/search` and `logs/app/_validate/query` |
| Vocabulary.PropertyNames | elseql/search.py:77-83 | the definition of the names `add_properties` collects under a document; `Vocabulary.PropertyNamesAtAnyDepth` states what it holds |
| Vocabulary.NamesIn | elseql/search.py:81-83 | the definition of the names collected from a property list; `Vocabulary.NamesInHas` and `Vocabulary.NamesInMember` state its properties |
| Vocabulary.KeywordSet | elseql/search.py:71-104 | the definition of the keyword set: the base keywords, plus with a mapping `_score`, `_all` and every mapping word; `Vocabulary.MappingNamesAreKeywords`, `Vocabulary.SourceKeyword` and `Vocabulary.NoMappingKeywords` state its properties |
| Vocabulary.NamesInHas | elseql/search.py:81-83 | every listed property's name and nested names are collected |
| Vocabulary.NamesInMember | elseql/search.py:81-83 | every collected name comes from some listed property or from under it |
| Vocabulary.NameHasPath | elseql/search.py:77-83 | every collected name ends a chain of nested properties |
| Vocabulary.PathEndIsName | elseql/search.py:77-83 | the end of every chain of nested properties is collected |
| Vocabulary.PropertyNamesAtAnyDepth | elseql/search.py:77-83 | a name is collected iff it ends some chain of nested properties, at any depth |
| Vocabulary.MappingNamesAreKeywords | elseql/search.py:71-102 | with a mapping: the base keywords, `_score`, `_all`, every index, every type and every nested property name are keywords |
| Vocabulary.SourceKeyword | elseql/search.py:97-100 | `_source` is a keyword iff some type has an enabled `_source` entry (a missing `enabled` counts as enabled) or some name is itself `_source` |
| Vocabulary.NoMappingKeywords | elseql/search.py:74-75 | without a non-empty mapping only the base keywords are offered |
| Vocabulary.LessIrreflexive | elseql/search.py:104 | Python string order is irreflexive |
| Vocabulary.LessTransitive | elseql/search.py:104 | Python string order is transitive |
| Vocabulary.LessTotal | elseql/search.py:104 | Python string order is total on distinct strings |
| Vocabulary.LessAsymmetric | elseql/search.py:104 | Python string order is asymmetric |
| Vocabulary.Insert | elseql/search.py:104 | inserting into a strictly sorted list keeps it strictly sorted, and its elements become the list's elements plus `x` |
| Vocabulary.SortedSet | elseql/search.py:104 | `sorted(set(xs))` is strictly sorted with exactly the elements of `xs` |
| Vocabulary.SortedListingUnique | elseql/search.py:104 | two strictly sorted lists with the same elements are equal |
| Renderer.Cells | elseql/search.py:207 | the projected values of a hit, or none exactly when some lookup falls back to a missing `fields` bucket |
| Renderer.Projected | elseql/search.py:207 | the definition of `_.get(x) or _['fields'].get(x)`: a truthy top-level value, else the `fields` value or `None`, and a missing `fields` bucket is a `KeyError`; `Renderer.Cells` states its use |
| Renderer.Render | elseql/search.py:184-226 | the definition of the printed output of a response; `Renderer.RenderResponse` is proved to print it and the lemmas below state its cases |
| Renderer.EachStops | elseql/search.py:188 | a printing loop that stopped on a `KeyError` prints nothing more |
| Renderer.EmitEach | elseql/search.py:188 | the printing loop prints what each step prints, in order, up to and including the first `KeyError` |
| Renderer.RenderResponse | elseql/search.py:184-226 | the rendering statements print exactly what `Render` describes |
| Renderer.EachNoError | elseql/search.py:197 | a loop none of whose steps fails does not fail |
| Renderer.EachOneLineEach | elseql/search.py:197 | a loop whose every step prints one line prints one line per item, in order |
| Renderer.EachStopsAtFirstError | elseql/search.py:188 | a loop stops at its first failing step, having printed what came before |
| Renderer.FirstFailing | elseql/search.py:188 | if some step of a printing loop raises, there is a first one |
| Renderer.EachErrorIff | elseql/search.py:188 | a printing loop raises iff one of its steps does, and then with the key of one of its steps |
| Renderer.RenderValid | elseql/search.py:184-189 | `valid: <v>` first; with explanations, a blank line and one `ERROR:` line per explanation, or `KeyError` on one without `error` |
| Renderer.RenderErrors | elseql/search.py:191-198 | an `error` gives one `ERROR:` line; a missing `_shards` raises `KeyError`; a `failures` list gives one `ERROR:` line per failure and nothing else, or `KeyError: 'reason'` when a failure lacks `reason` |
| Renderer.RenderPrecedence | elseql/search.py:184-198 | once `valid`, `error` or `failures` matches, nothing checked later affects the output |
| Renderer.FacetBlockLines | elseql/search.py:219-226 | a facet block: a blank line and `<name>,count`, then `<term>,<count>` per term; it raises iff `terms` is missing or a term lacks `term` or `count`, and a missing `terms` raises after the two header lines |
| Renderer.FacetsComplete | elseql/search.py:218-226 | the facet blocks raise iff some facet lacks `terms` or has a term without `term` or `count` |
| Renderer.ProjectedRows | elseql/search.py:206-207 | one row per hit, reading back as the texts of the projected values |
| Renderer.HitsProjected | elseql/search.py:200-216 | with a projection: the header reads back as the field names, then the rows, a blank line and `total:  <n>`, or `total: ` and `KeyError: 'total'` when `total` is missing |
| Renderer.HeaderReadsBack | elseql/search.py:204 | the header of field names reads back as the names |
| Renderer.ProjectedRowsMissingFields | elseql/search.py:206-207 | a projected value that falls back to a missing `fields` bucket stops the rows with `KeyError: 'fields'` |
| Renderer.HitsMissingList | elseql/search.py:204-209 | a hits object without its `hits` list raises `KeyError: 'hits'` after the header with a projection, before anything without one |
| Renderer.RenderHits | elseql/search.py:200-226 | without the earlier shapes: the hits part, then the facet blocks unless the hits part raised |
| Renderer.RenderProjectedHits | elseql/search.py:200-226 | with a projection: header, rows, blank line, total, then the facet blocks and their `KeyError` if any |
| Renderer.SourceRows | elseql/search.py:212-213 | one row per hit of its `_source` values, reading back as each value's CSV field |
| Renderer.SourceRowsMissingSource | elseql/search.py:212-213 | a hit without `_source` stops the rows with `KeyError: '_source'` |
| Renderer.HitsFromSource | elseql/search.py:208-216 | without a projection: a header reading back as the first hit's `_source` keys only when there is a hit, the rows, a blank line and the total, or `total: ` and `KeyError: 'total'` when `total` is missing |
| Renderer.RenderSourceHits | elseql/search.py:208-226 | without a projection: the hits part, then the facet blocks and their `KeyError` if any |
| Renderer.ValidSample | elseql/search.py:184-189 | an invalid query with one explanation prints `valid: False`, a blank line, `ERROR: bad syntax` |
| Renderer.SourceSample | elseql/search.py:200-216 | two `_source` hits print `a,b`, `1,2`, `3,4`, a blank line and `total:  2` |
| Session.AddProperties | elseql/search.py:77-83 | only appends to the list, and adds exactly the property names under the document at every depth |
| Session.AddType | elseql/search.py:93-102 | adds the type name, `_source` when enabled, and the type's property names |
| Session.TypeWordsStep | elseql/search.py:92-102 | visiting one more type adds exactly that type's words |
| Session.AddIndex | elseql/search.py:88-102 | adds the index name and the words of each of its types, visited in any order |
| Session.WordsStep | elseql/search.py:87-102 | visiting one more index adds exactly that index's words |
| Session.ElseSearch.constructor | elseql/search.py:33-52 | a port gives a client and the fetched mapping; no client forces debug mode; the cache starts unset |
| Session.ElseSearch.GetMapping | elseql/search.py:54-65 | a non-empty mapping is kept; otherwise a fetched one replaces it and resets the keyword cache; a failed fetch changes nothing |
| Session.ElseSearch.GetKeywords | elseql/search.py:67-105 | a strictly sorted list of exactly the keyword set of the mapping; a set cache is returned as is; the result is cached only when there is a mapping |
| Session.ElseSearch.Search | elseql/search.py:116-226 | the translation under the session's debug flag, then the rendered response when there is a client and a response |
| Session.KeywordsTwice | elseql/search.py:67-105 | asking for the keywords twice gives the same list, which always holds the base keywords |

## Left out

- **Parsing:** `ElseParser.parse` and the caret report of `ElseParserException` (lines 108-114). The
  parser module is not part of this model, so the parsed request is an input. So is `str()` of its query
  and filter expressions, which are given as text.
- **The engine client and the network:** `rawes.Elastic`, `requests`, and the printed messages of every
  `ConnectionError` path. The engine's answers are parameters, and `None` stands for a failed call.
- **Debug output:** the `pprint` echo of the request and the response, and the `DebugPrinter` class. They are
  console output only. Their one effect on the request, `{pretty: True}` params in debug mode,
  is modelled in `Translator.Translate`.
- **Response values:** floats, lists and nested objects. Values are the scalars `None`, bool, int
  and string. `str()` is modelled for those only.
- **PyValues.IsAlnum:** `isalnum` is modelled on ASCII letters and digits only. Values decoded from
  JSON are `unicode`, whose `isalnum` also accepts non-ASCII letters and digits: `_csval(u'café')`
  is `café` unquoted in the source but `"café"` quoted in `Csv.Csval`. No Unicode handling is modelled.
- **Dictionary order:** the order of `_source` keys/values, of the facets in a response, and of a mapping's
  properties is taken as given, as sequences of pairs. The order of the mapping's indexes and
  types is left to the loops' arbitrary choice. `sorted(set(...))` makes the keyword list
  independent of it.
- **Renderer.SourceRows:** rows are not compared with the header. A hit whose `_source` keys
  differ from the first hit's is printed under the wrong header, as in the source.
- **`count(*)`:** it is only a sentinel that sends no projection. The source has no count-only mode to
  model.
- **Session.ElseSearch.Search:** its return value is not modelled. The only return value other
  than `None` is `1`, which comes from the parse-error path, and that path is left out with parsing.
- **The `explanations` loop:** it prints `e['error']` as a string. Non-string errors are not modelled.
