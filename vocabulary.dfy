/**
 * The keyword vocabulary of `ElseSearch.get_keywords`: the language's
 * keywords together with the names found in an index mapping (indexes,
 * document types, properties at every depth, `_source` when enabled),
 * deduplicated and sorted as Python sorts strings.
 */
module Vocabulary {
  import opened PyValues

  /** A document type's `_source` entry; `enabled` may be missing. */
  datatype Source = Source(enabled: Option<Value>)

  /** Metadata of a document type or of a property: an optional `_source`
      entry and a `properties` tree, given as name/metadata pairs. A missing
      `properties` key is the empty sequence. */
  datatype Doc = Doc(source: Option<Source>, properties: seq<Prop>)
  datatype Prop = Prop(name: string, doc: Doc)

  /** index name -> document type -> metadata */
  type Mapping = map<string, map<string, Doc>>

  const BaseKeywords: seq<string> :=
    ["facets", "filter", "script", "from", "where", "in", "between", "like", "order by", "limit", "and", "or", "not"]

  function Elements(s: seq<string>): set<string> {
    set x | x in s
  }

  /** `if self.mapping:` an absent or empty mapping is falsy. */
  predicate Present(m: Option<Mapping>) {
    m.Some? && m.value != map[]
  }

  /** `_source` is enabled by default: only an `enabled` that is falsy disables it. */
  predicate SourceEnabled(d: Doc) {
    d.source.Some? && (d.source.value.enabled.None? || Truthy(d.source.value.enabled.value))
  }

  /** The names `add_properties` collects under `d`, at every depth. */
  function PropertyNames(d: Doc): set<string>
    decreases d, 1
  {
    NamesIn(d.properties)
  }

  function NamesIn(ps: seq<Prop>): set<string>
    decreases ps, 0
  {
    if ps == [] then {}
    else NamesIn(ps[..|ps| - 1]) + {ps[|ps| - 1].name} + PropertyNames(ps[|ps| - 1].doc)
  }

  /** What one document type adds: its name, `_source` when enabled, its property names. */
  function TypeWords(t: string, d: Doc): set<string> {
    {t} + (if SourceEnabled(d) then {"_source"} else {}) + PropertyNames(d)
  }

  /** What one index adds: its name and what each of its types adds. */
  function IndexWords(i: string, types: map<string, Doc>): set<string> {
    {i} + (set t, w | t in types && w in TypeWords(t, types[t]) :: w)
  }

  function MappingWords(m: Mapping): set<string> {
    set i, w | i in m && w in IndexWords(i, m[i]) :: w
  }

  /** The set of words `get_keywords` returns, sorted, for mapping `m`. */
  function KeywordSet(m: Option<Mapping>): set<string> {
    Elements(BaseKeywords) + (if Present(m) then {"_score", "_all"} + MappingWords(m.value) else {})
  }

  /** Reference definition of nesting: `path` is a chain of property names,
      each a property of the previous one's metadata, starting under `d`. */
  ghost predicate HasPath(d: Doc, path: seq<string>)
    decreases d
  {
    |path| >= 1 &&
    exists k :: 0 <= k < |d.properties| && d.properties[k].name == path[0] &&
      (|path| == 1 || HasPath(d.properties[k].doc, path[1..]))
  }

  lemma {:induction false} NamesInHas(ps: seq<Prop>, k: int)
    requires 0 <= k < |ps|
    ensures ps[k].name in NamesIn(ps) && PropertyNames(ps[k].doc) <= NamesIn(ps)
    decreases |ps|
  {
    if k < |ps| - 1 {
      NamesInHas(ps[..|ps| - 1], k);
    }
  }

  lemma {:induction false} NamesInMember(ps: seq<Prop>, n: string)
    requires n in NamesIn(ps)
    ensures exists k :: 0 <= k < |ps| && (ps[k].name == n || n in PropertyNames(ps[k].doc))
    decreases |ps|
  {
    var last := |ps| - 1;
    if !(ps[last].name == n || n in PropertyNames(ps[last].doc)) {
      NamesInMember(ps[..last], n);
      var k :| 0 <= k < last && (ps[..last][k].name == n || n in PropertyNames(ps[..last][k].doc));
      assert ps[..last][k] == ps[k];
    }
  }

  lemma {:induction false} NameHasPath(d: Doc, n: string) returns (path: seq<string>)
    requires n in PropertyNames(d)
    ensures HasPath(d, path) && path[|path| - 1] == n
    decreases d
  {
    var ps := d.properties;
    NamesInMember(ps, n);
    var k :| 0 <= k < |ps| && (ps[k].name == n || n in PropertyNames(ps[k].doc));
    if ps[k].name == n {
      path := [n];
    } else {
      var sub := NameHasPath(ps[k].doc, n);
      path := [ps[k].name] + sub;
      assert path[1..] == sub;
    }
  }

  lemma {:induction false} PathEndIsName(d: Doc, path: seq<string>)
    requires HasPath(d, path)
    ensures path[|path| - 1] in PropertyNames(d)
    decreases d
  {
    var ps := d.properties;
    var k :| 0 <= k < |ps| && ps[k].name == path[0] && (|path| == 1 || HasPath(ps[k].doc, path[1..]));
    NamesInHas(ps, k);
    if |path| > 1 {
      PathEndIsName(ps[k].doc, path[1..]);
    }
  }

  /** `add_properties` collects exactly the names at the end of some chain
      of nested properties, at any depth. */
  lemma PropertyNamesAtAnyDepth(d: Doc, n: string)
    ensures n in PropertyNames(d) <==> exists path :: HasPath(d, path) && path[|path| - 1] == n
  {
    if n in PropertyNames(d) {
      var path := NameHasPath(d, n);
    }
    if exists path :: HasPath(d, path) && path[|path| - 1] == n {
      var path :| HasPath(d, path) && path[|path| - 1] == n;
      PathEndIsName(d, path);
    }
  }

  /** With a mapping, every index name, type name and property name at any
      depth is a keyword, and so are `_score` and `_all`; the language's
      keywords are always there. */
  lemma MappingNamesAreKeywords(m: Mapping)
    requires m != map[]
    ensures Elements(BaseKeywords) <= KeywordSet(Some(m))
    ensures "_score" in KeywordSet(Some(m)) && "_all" in KeywordSet(Some(m))
    ensures forall i :: i in m ==> i in KeywordSet(Some(m))
    ensures forall i, t :: i in m && t in m[i] ==> t in KeywordSet(Some(m))
    ensures forall i, t, path :: i in m && t in m[i] && HasPath(m[i][t], path) ==>
              path[|path| - 1] in KeywordSet(Some(m))
  {
    forall i, t, path | i in m && t in m[i] && HasPath(m[i][t], path)
      ensures path[|path| - 1] in KeywordSet(Some(m))
    {
      PropertyNamesAtAnyDepth(m[i][t], path[|path| - 1]);
      assert path[|path| - 1] in TypeWords(t, m[i][t]);
      assert path[|path| - 1] in IndexWords(i, m[i]);
    }
    forall i, t | i in m && t in m[i] ensures t in KeywordSet(Some(m)) {
      assert t in TypeWords(t, m[i][t]);
      assert t in IndexWords(i, m[i]);
    }
    forall i | i in m ensures i in KeywordSet(Some(m)) {
      assert i in IndexWords(i, m[i]);
    }
  }

  /** `_source` is a keyword exactly when some type's `_source` entry is
      enabled, unless some index, type or property is itself named `_source`. */
  lemma SourceKeyword(m: Mapping)
    requires m != map[]
    ensures "_source" in KeywordSet(Some(m)) <==>
              (exists i, t :: i in m && t in m[i] && SourceEnabled(m[i][t])) ||
              "_source" in m ||
              (exists i, t :: i in m && t in m[i] && (t == "_source" || "_source" in PropertyNames(m[i][t])))
  {
    assert "_source" !in Elements(BaseKeywords);
    if "_source" in KeywordSet(Some(m)) {
      assert "_source" in MappingWords(m);
      var i :| i in m && "_source" in IndexWords(i, m[i]);
      if i != "_source" {
        var t :| t in m[i] && "_source" in TypeWords(t, m[i][t]);
      }
    }
    if exists i, t :: i in m && t in m[i] && SourceEnabled(m[i][t]) {
      var i, t :| i in m && t in m[i] && SourceEnabled(m[i][t]);
      assert "_source" in TypeWords(t, m[i][t]);
      assert "_source" in IndexWords(i, m[i]);
    }
    if exists i, t :: i in m && t in m[i] && (t == "_source" || "_source" in PropertyNames(m[i][t])) {
      var i, t :| i in m && t in m[i] && (t == "_source" || "_source" in PropertyNames(m[i][t]));
      assert "_source" in TypeWords(t, m[i][t]);
      assert "_source" in IndexWords(i, m[i]);
    }
    if "_source" in m {
      assert "_source" in IndexWords("_source", m["_source"]);
    }
  }

  /** Without a usable mapping (none, or an empty one) only the language's
      keywords are offered. */
  lemma NoMappingKeywords(m: Option<Mapping>)
    requires !Present(m)
    ensures KeywordSet(m) == Elements(BaseKeywords)
    ensures "_score" !in KeywordSet(m) && "_source" !in KeywordSet(m)
  {
  }

  // Python's ordering of strings and `sorted(set(...))`.

  /** `a < b` on Python strings: lexicographic by character, a proper prefix first. */
  predicate Less(a: string, b: string) {
    if a == [] then b != []
    else if b == [] then false
    else if a[0] == b[0] then Less(a[1..], b[1..])
    else a[0] < b[0]
  }

  lemma {:induction false} LessIrreflexive(a: string)
    ensures !Less(a, a)
  {
    if a != [] { LessIrreflexive(a[1..]); }
  }

  lemma {:induction false} LessTransitive(a: string, b: string, c: string)
    requires Less(a, b) && Less(b, c)
    ensures Less(a, c)
  {
    if a != [] && b != [] && c != [] && a[0] == b[0] && b[0] == c[0] {
      LessTransitive(a[1..], b[1..], c[1..]);
    }
  }

  lemma {:induction false} LessTotal(a: string, b: string)
    requires a != b
    ensures Less(a, b) || Less(b, a)
  {
    if a != [] && b != [] && a[0] == b[0] {
      assert a == [a[0]] + a[1..] && b == [b[0]] + b[1..];
      LessTotal(a[1..], b[1..]);
    }
  }

  lemma LessAsymmetric(a: string, b: string)
    requires Less(a, b)
    ensures !Less(b, a)
  {
    if Less(b, a) {
      LessTransitive(a, b, a);
      LessIrreflexive(a);
    }
  }

  predicate StrictlySorted(s: seq<string>) {
    forall i, j :: 0 <= i < j < |s| ==> Less(s[i], s[j])
  }

  /** Inserts `x` into a strictly sorted list, unless it is already there. */
  function Insert(x: string, s: seq<string>): (r: seq<string>)
    requires StrictlySorted(s)
    ensures StrictlySorted(r)
    ensures Elements(r) == Elements(s) + {x}
  {
    if s == [] then [x]
    else if x == s[0] then s
    else if Less(x, s[0]) then
      assert forall j :: 0 <= j < |s| ==> Less(x, s[j]) by {
        forall j | 0 < j < |s| ensures Less(x, s[j]) { LessTransitive(x, s[0], s[j]); }
      }
      [x] + s
    else
      LessTotal(x, s[0]);
      var t := Insert(x, s[1..]);
      assert forall y :: y in t ==> Less(s[0], y) by {
        forall y | y in t ensures Less(s[0], y) {
          if y != x {
            assert y in Elements(t);
            assert y in Elements(s[1..]);
            var j :| 0 <= j < |s[1..]| && s[1..][j] == y;
            assert s[j + 1] == y;
          }
        }
      }
      var r := [s[0]] + t;
      assert forall j :: 0 < j < |r| ==> r[j] == t[j - 1] && r[j] in t;
      assert Elements(s) == {s[0]} + Elements(s[1..]) by {
        assert s == [s[0]] + s[1..];
      }
      assert Elements(r) == {s[0]} + Elements(t);
      r
  }

  /** `sorted(set(xs))` */
  function SortedSet(xs: seq<string>): (r: seq<string>)
    ensures StrictlySorted(r)
    ensures Elements(r) == Elements(xs)
  {
    if xs == [] then []
    else
      assert Elements(xs) == Elements(xs[..|xs| - 1]) + {xs[|xs| - 1]} by {
        assert xs == xs[..|xs| - 1] + [xs[|xs| - 1]];
      }
      Insert(xs[|xs| - 1], SortedSet(xs[..|xs| - 1]))
  }

  lemma ElementsOfEmpty(s: seq<string>)
    ensures Elements(s) == {} <==> s == []
  {
    if s != [] { assert s[0] in Elements(s); }
  }

  /** A set has exactly one strictly sorted listing: whoever builds it, the
      keyword list of a mapping is always the same sequence. */
  lemma {:induction false} SortedListingUnique(a: seq<string>, b: seq<string>)
    requires StrictlySorted(a) && StrictlySorted(b)
    requires Elements(a) == Elements(b)
    ensures a == b
  {
    if a != [] && b != [] {
      // The first element of each is the least element of the common set.
      assert a[0] in Elements(b) && b[0] in Elements(a);
      if a[0] != b[0] {
        var i :| 0 <= i < |b| && b[i] == a[0];
        var j :| 0 <= j < |a| && a[j] == b[0];
        assert Less(b[0], a[0]) by { assert i > 0; }
        assert Less(a[0], b[0]) by { assert j > 0; }
        LessAsymmetric(a[0], b[0]);
      }
      assert Elements(a[1..]) == Elements(b[1..]) by {
        forall y | y in Elements(a[1..]) ensures y in Elements(b[1..]) {
          var k :| 0 <= k < |a[1..]| && a[1..][k] == y;
          assert Less(a[0], y);
          LessIrreflexive(y);
          assert y in Elements(b);
        }
        forall y | y in Elements(b[1..]) ensures y in Elements(a[1..]) {
          var k :| 0 <= k < |b[1..]| && b[1..][k] == y;
          assert Less(b[0], y);
          LessIrreflexive(y);
          assert y in Elements(a);
        }
      }
      SortedListingUnique(a[1..], b[1..]);
      assert a == [a[0]] + a[1..] && b == [b[0]] + b[1..];
    } else {
      // One listing is empty, so the common set is empty, and so is the other.
      ElementsOfEmpty(a);
      ElementsOfEmpty(b);
    }
  }
}
