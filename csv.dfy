/**
 * The CSV encoder of elseql: `_csval` turns one scalar into a field and
 * `_csvline` joins fields with commas. A small CSV reader is defined beside
 * it as the encoder's partner: every row the encoder writes reads back to
 * the printed text of its values.
 */
module Csv {
  import opened PyValues

  /** Every `"` doubled, nothing else changed. */
  function Escape(s: string): (r: string)
    ensures |r| >= |s|
  {
    if s == [] then [] else (if s[0] == '"' then "\"\"" else [s[0]]) + Escape(s[1..])
  }

  /** `_csval(v)`: falsy values give the empty field, other non-strings their
      `str()`, alphanumeric strings themselves, any other string is quoted
      with its quotes doubled. */
  function Csval(v: Value): (r: string)
    ensures r == [] <==> !Truthy(v)
    ensures (r != [] && r[0] == '"') <==> (v.Str? && Truthy(v) && !IsAlnum(v.s))
    ensures ',' in r ==> r[0] == '"'
  {
    if !Truthy(v) then ""
    else if !v.Str? then Repr(v)
    else if IsAlnum(v.s) then v.s
    else "\"" + Escape(v.s) + "\""
  }

  /** `_csvline(l)`: the fields of `l`, in order, separated by `,`. */
  function CsvLine(l: seq<Value>): string {
    if |l| == 0 then ""
    else if |l| == 1 then Csval(l[0])
    else Csval(l[0]) + "," + CsvLine(l[1..])
  }

  /** The strings of `l` as values, for rows of names. */
  function Strs(l: seq<string>): (r: seq<Value>)
    ensures |r| == |l| && forall i :: 0 <= i < |l| ==> r[i] == Str(l[i])
  {
    seq(|l|, i requires 0 <= i < |l| => Str(l[i]))
  }

  /** The text a reader recovers from a field: what Python prints for a
      truthy value, and nothing for a falsy one. */
  function Text(v: Value): string {
    if Truthy(v) then Repr(v) else ""
  }

  // A CSV reader for the rows written above.

  /** Reads the inside of a quoted field, just after its opening quote: `""`
      stands for one `"`, a lone `"` closes the field. Returns the text and
      what follows the closing quote. */
  function ReadQuoted(s: string): (p: (string, string))
    ensures |p.1| <= |s|
  {
    if s == [] then ([], [])
    else if s[0] == '"' then
      if |s| > 1 && s[1] == '"' then
        var q := ReadQuoted(s[2..]); (['"'] + q.0, q.1)
      else ([], s[1..])
    else
      var q := ReadQuoted(s[1..]); ([s[0]] + q.0, q.1)
  }

  /** Reads an unquoted field: everything up to the next `,`. */
  function ReadPlain(s: string): (p: (string, string))
    ensures |p.1| <= |s|
  {
    if s == [] || s[0] == ',' then ([], s)
    else var q := ReadPlain(s[1..]); ([s[0]] + q.0, q.1)
  }

  function ReadField(s: string): (p: (string, string))
    ensures |p.1| <= |s|
  {
    if s != [] && s[0] == '"' then ReadQuoted(s[1..]) else ReadPlain(s)
  }

  /** Splits a row into its fields; the character after each field (the
      `,` in a well-formed row) is skipped. */
  function ParseRow(s: string): (r: seq<string>)
    ensures |r| >= 1
    decreases |s|
  {
    var p := ReadField(s);
    if p.1 == [] then [p.0] else [p.0] + ParseRow(p.1[1..])
  }

  lemma {:induction false} ReadQuotedEscape(s: string, t: string)
    requires t == [] || t[0] == ','
    ensures ReadQuoted(Escape(s) + "\"" + t) == (s, t)
  {
    if s != [] {
      var rest := Escape(s[1..]) + "\"" + t;
      ReadQuotedEscape(s[1..], t);
      if s[0] == '"' {
        assert Escape(s) + "\"" + t == "\"\"" + rest;
        assert ("\"\"" + rest)[2..] == rest;
        assert ['"'] + s[1..] == s;
      } else {
        assert Escape(s) + "\"" + t == [s[0]] + rest;
        assert ([s[0]] + rest)[1..] == rest;
        assert [s[0]] + s[1..] == s;
      }
    } else {
      assert Escape(s) + "\"" + t == "\"" + t;
    }
  }

  lemma {:induction false} ReadPlainOf(f: string, t: string)
    requires ',' !in f
    requires t == [] || t[0] == ','
    ensures ReadPlain(f + t) == (f, t)
  {
    if f != [] {
      assert (f + t)[1..] == f[1..] + t;
      assert f[0] in f && (f + t)[0] == f[0];
      assert forall c :: c in f[1..] ==> c in f;
      ReadPlainOf(f[1..], t);
      assert [f[0]] + f[1..] == f;
    } else {
      assert f + t == t;
    }
  }

  /** One encoded field, followed by a separator or the end of the row,
      reads back to the text of its value. */
  lemma FieldRoundTrip(v: Value, t: string)
    requires t == [] || t[0] == ','
    ensures ReadField(Csval(v) + t) == (Text(v), t)
  {
    var f := Csval(v);
    if f != [] && f[0] == '"' {
      assert (f + t)[1..] == Escape(v.s) + "\"" + t;
      ReadQuotedEscape(v.s, t);
    } else {
      ReadPlainOf(f, t);
    }
  }

  /** `_csvline` round trip: a row of one or more fields reads back, field
      by field and in order, to the texts of the values. */
  lemma {:induction false} RowRoundTrip(l: seq<Value>)
    requires |l| >= 1
    ensures |ParseRow(CsvLine(l))| == |l|
    ensures forall i :: 0 <= i < |l| ==> ParseRow(CsvLine(l))[i] == Text(l[i])
  {
    if |l| == 1 {
      FieldRoundTrip(l[0], []);
      assert Csval(l[0]) + [] == Csval(l[0]);
    } else {
      var rest := CsvLine(l[1..]);
      FieldRoundTrip(l[0], "," + rest);
      assert CsvLine(l) == Csval(l[0]) + ("," + rest);
      assert ("," + rest)[1..] == rest;
      RowRoundTrip(l[1..]);
      var r := ParseRow(CsvLine(l));
      assert r == [Text(l[0])] + ParseRow(rest);
      forall i | 0 < i < |l| ensures r[i] == Text(l[i]) {
        assert r[i] == ParseRow(rest)[i - 1];
        assert l[1..][i - 1] == l[i];
      }
    }
  }

  /** `_csval` of an alphanumeric sample is the sample itself. */
  lemma CsvalAlnumSample()
    ensures Csval(Str("abc123")) == "abc123"
  {
    var s := "abc123";
    assert IsAlnumChar(s[0]) && IsAlnumChar(s[1]) && IsAlnumChar(s[2]);
    assert IsAlnumChar(s[3]) && IsAlnumChar(s[4]) && IsAlnumChar(s[5]);
    assert IsAlnum(s);
  }

  /** `_csval` of a sample with a quote in it quotes it and doubles the quote. */
  lemma CsvalQuotedSample()
    ensures Csval(Str("a\"b")) == "\"a\"\"b\""
  {
    var s := "a\"b";
    assert !IsAlnumChar(s[1]);
    assert Escape(s[2..]) == "b";
    assert Escape(s[1..]) == "\"\"b";
    assert Escape(s) == "a\"\"b";
  }

  /** `_csval` of ints and bools: `0` and `False` print as the empty field
      because they are falsy, like `None` and `''`. */
  lemma CsvalScalarSamples()
    ensures Csval(Int(42)) == "42" && Csval(Int(-7)) == "-7"
    ensures Csval(Int(0)) == "" && Csval(Bool(false)) == "" && Csval(Null) == "" && Csval(Str("")) == ""
    ensures Csval(Bool(true)) == "True"
  {
    assert NatToStr(42) == NatToStr(4) + [DigitChar(2)];
  }

  /** Encoding an encoded field again leaves it alone when it was empty or
      alphanumeric, and otherwise quotes it a second time; in both cases the
      reader recovers the once-encoded text, not the value. */
  lemma DoubleEncoding(v: Value)
    ensures Csval(Str(Csval(v))) == Csval(v) <==> (Csval(v) == [] || IsAlnum(Csval(v)))
    ensures ReadField(Csval(Str(Csval(v))) + "") == (Csval(v), "")
  {
    FieldRoundTrip(Str(Csval(v)), "");
  }

  /** Escaping works piece by piece. */
  lemma {:induction false} EscapeConcat(a: string, b: string)
    ensures Escape(a + b) == Escape(a) + Escape(b)
  {
    if a != [] {
      assert (a + b)[1..] == a[1..] + b;
      EscapeConcat(a[1..], b);
    } else {
      assert a + b == b;
    }
  }

  /** Text without quotes is left alone. */
  lemma {:induction false} EscapeNoQuote(s: string)
    requires '"' !in s
    ensures Escape(s) == s
  {
    if s != [] {
      assert s[0] in s;
      assert forall c :: c in s[1..] ==> c in s;
      EscapeNoQuote(s[1..]);
    }
  }

  lemma EscapeQuotesSample(s: string)
    requires s == "he said \"hi\""
    ensures Escape(s) == "he said " + "\"\"" + "hi" + "\"\""
  {
    var a, q, h := "he said ", "\"", "hi";
    assert s == a + q + h + q;
    assert Escape(q) == "\"\"";
    EscapeNoQuote(a);
    EscapeNoQuote(h);
    EscapeConcat(a + q + h, q);
    EscapeConcat(a + q, h);
    EscapeConcat(a, q);
  }

  /** A string with quotes in it is quoted, its quotes doubled. */
  lemma CsvalQuotesSample(s: string)
    requires s == "he said \"hi\""
    ensures Csval(Str(s)) == "\"he said \"\"hi\"\"\""
  {
    assert !IsAlnumChar(s[2]);
    EscapeQuotesSample(s);
    assert "\"" + ("he said " + "\"\"" + "hi" + "\"\"") + "\"" == "\"he said \"\"hi\"\"\"";
  }

  /** A row of three fields is the three fields joined by commas. */
  lemma ThreeFields(a: Value, b: Value, c: Value)
    ensures CsvLine([a, b, c]) == Csval(a) + "," + Csval(b) + "," + Csval(c)
  {
    var fa, fb, fc := Csval(a), Csval(b), Csval(c);
    assert [a, b, c][1..] == [b, c] && [b, c][1..] == [c];
    assert CsvLine([c]) == fc;
    assert CsvLine([b, c]) == fb + "," + fc;
    assert CsvLine([a, b, c]) == fa + "," + (fb + "," + fc);
    assert fa + "," + (fb + "," + fc) == fa + "," + fb + "," + fc;
  }
}
