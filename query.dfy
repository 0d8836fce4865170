/**
 * The query parser of router/query.ts: each declared key is read from the request's query
 * parameters and handed to its own token parser, in declaration order.
 */
module QueryParsers {
  import opened MaybeAlgebra
  import opened ResultAlgebra
  import opened Values
  import opened TokenParsers
  import opened Routes

  /** One entry of the declaration object: a key and the parser for its value. */
  datatype Field = Field(key: string, parser: Parser)

  /**
   * `searchParams.get(key) || undefined`: the parameter's value, absent when the key is missing
   * and also when its value is the empty string.
   */
  function Lookup(query: map<string, string>, key: string): (t: Token)
    ensures t.Some? <==> key in query && query[key] != ""
    ensures t.Some? ==> t.value == query[key]
  {
    if key in query && query[key] != "" then Some(query[key]) else None
  }

  /** What a field's parser makes of the request's query. */
  function FieldResult(f: Field, query: map<string, string>): Outcome {
    f.parser(Lookup(query, f.key))
  }

  /** The error a failing field produces: the key and the value seen, wrapping the parser's error. */
  function FieldError(f: Field, query: map<string, string>): Error
    requires FieldResult(f, query).Err?
  {
    Error("can not match query parameter " + f.key + ": " + Show(Lookup(query, f.key)),
          Some(FieldResult(f, query).error))
  }

  /** The declared keys. */
  function Keys(fs: seq<Field>): set<string> {
    set i | 0 <= i < |fs| :: fs[i].key
  }

  /** No key is declared twice, as in an object literal. */
  predicate DistinctKeys(fs: seq<Field>) {
    forall i, j :: 0 <= i < j < |fs| ==> fs[i].key != fs[j].key
  }

  /**
   * The record the loop of `query` builds: it succeeds iff every field parses, with exactly the
   * declared keys; otherwise it fails with the first failing field's error.
   */
  function Match(fs: seq<Field>, query: map<string, string>): (r: Result<Error, map<string, Value>>)
    ensures r.Ok? <==> forall i :: 0 <= i < |fs| ==> FieldResult(fs[i], query).Ok?
    ensures r.Err? ==> exists k :: (0 <= k < |fs| && FieldResult(fs[k], query).Err? &&
      (forall j :: 0 <= j < k ==> FieldResult(fs[j], query).Ok?) && r.error == FieldError(fs[k], query))
    decreases |fs|
  {
    if |fs| == 0 then Ok(map[])
    else
      var pre := fs[..|fs| - 1];
      var last := fs[|fs| - 1];
      var prev := Match(pre, query);
      assert forall i :: 0 <= i < |pre| ==> pre[i] == fs[i];
      if prev.Err? then prev
      else if FieldResult(last, query).Ok? then Ok(prev.value[last.key := FieldResult(last, query).value])
      else Err(FieldError(last, query))
  }

  /** The route's outcome: the record as a value, or the first field's error. */
  function QueryResult(fs: seq<Field>, query: map<string, string>): Result<Error, Value> {
    ResultAlgebra.Map((m: map<string, Value>) => Record(m), Match(fs, query))
  }

  /** `query(parser)` as a route: reads only the request's query. */
  function Query<C>(fs: seq<Field>): Route<C> {
    (req: Request, ctx: C) => QueryResult(fs, req.query)
  }

  /** Once the fields before index `i` match and field `i` fails, the whole query fails with its error. */
  lemma {:induction false} MatchStopsAt(fs: seq<Field>, query: map<string, string>, i: nat)
    requires i < |fs| && Match(fs[..i], query).Ok? && FieldResult(fs[i], query).Err?
    ensures Match(fs, query) == Err(FieldError(fs[i], query))
  {
    var r := Match(fs, query);
    assert forall j :: 0 <= j < i ==> fs[..i][j] == fs[j];
    var k :| 0 <= k < |fs| && FieldResult(fs[k], query).Err? &&
             (forall j :: 0 <= j < k ==> FieldResult(fs[j], query).Ok?) && r.error == FieldError(fs[k], query);
    assert k == i;
  }

  /**
   * The loop of `query`: fields in declaration order, each value stored under its key, and the
   * first failing field returned at once.
   */
  method RunQuery(fs: seq<Field>, query: map<string, string>) returns (r: Result<Error, Value>)
    ensures r == QueryResult(fs, query)
  {
    var result: map<string, Value> := map[];
    for i := 0 to |fs|
      invariant Match(fs[..i], query) == Ok(result)
    {
      var field := fs[i];
      var fieldValue := Lookup(query, field.key);
      var fieldResult := field.parser(fieldValue);
      if fieldResult.Ok? {
        assert fs[..i + 1][..i] == fs[..i];
        result := result[field.key := fieldResult.value];
      } else {
        MatchStopsAt(fs, query, i);
        return Err(Error("can not match query parameter " + field.key + ": " + Show(fieldValue), Some(fieldResult.error)));
      }
    }
    assert fs[..|fs|] == fs;
    return Ok(Record(result));
  }

  /** A successful match holds exactly the declared keys. */
  lemma {:induction false} MatchKeys(fs: seq<Field>, query: map<string, string>)
    requires Match(fs, query).Ok?
    ensures Match(fs, query).value.Keys == Keys(fs)
    decreases |fs|
  {
    if |fs| > 0 {
      var pre := fs[..|fs| - 1];
      assert forall i :: 0 <= i < |pre| ==> pre[i] == fs[i];
      assert Keys(fs) == Keys(pre) + {fs[|fs| - 1].key};
      MatchKeys(pre, query);
    }
  }

  /** With distinct keys, a successful match maps every key to its own parser's value. */
  lemma {:induction false} MatchValues(fs: seq<Field>, query: map<string, string>)
    requires DistinctKeys(fs)
    requires Match(fs, query).Ok?
    ensures forall i :: 0 <= i < |fs| ==>
      fs[i].key in Match(fs, query).value && Match(fs, query).value[fs[i].key] == FieldResult(fs[i], query).value
    decreases |fs|
  {
    if |fs| > 0 {
      var pre := fs[..|fs| - 1];
      var last := fs[|fs| - 1];
      assert forall i :: 0 <= i < |pre| ==> pre[i] == fs[i];
      var prev := Match(pre, query);
      MatchValues(pre, query);
      var m := Match(fs, query).value;
      assert m == prev.value[last.key := FieldResult(last, query).value];
      forall i | 0 <= i < |fs|
        ensures fs[i].key in m && m[fs[i].key] == FieldResult(fs[i], query).value
      {
        if i < |pre| {
          assert fs[i].key != last.key;
          assert pre[i].key in prev.value;
        }
      }
    }
  }

  /** Later fields do not matter once a field has failed: they are never evaluated. */
  lemma {:induction false} MatchIgnoresLaterFields(fs: seq<Field>, more: seq<Field>, query: map<string, string>)
    requires Match(fs, query).Err?
    ensures Match(fs + more, query) == Match(fs, query)
  {
    var k :| 0 <= k < |fs| && FieldResult(fs[k], query).Err? &&
             (forall j :: 0 <= j < k ==> FieldResult(fs[j], query).Ok?) && Match(fs, query).error == FieldError(fs[k], query);
    var all := fs + more;
    assert all[..k] == fs[..k] && all[k] == fs[k];
    assert forall j :: 0 <= j < k ==> fs[..k][j] == fs[j];
    assert Match(fs[..k], query).Ok?;
    MatchStopsAt(all, query, k);
    MatchStopsAt(fs, query, k);
  }

  /** An empty declaration matches any query with the empty record. */
  lemma QueryEmpty(query: map<string, string>)
    ensures QueryResult([], query) == Ok(Record(map[]))
  {
  }

  /** A parameter given with an empty value reaches its parser as absent, like a missing one. */
  lemma EmptyValueIsAbsent(query: map<string, string>, key: string)
    requires key in query && query[key] == ""
    ensures Lookup(query, key) == Lookup(query - {key}, key) == None
  {
  }
}

/** The two cases of router/query_test.ts, stated about the model. */
module QueryExamples {
  import opened MaybeAlgebra
  import opened ResultAlgebra
  import opened Values
  import opened Numerals
  import opened TokenParsers
  import opened QueryParsers

  /** The declaration `{ a: integer, b: equal("b") }`. */
  function Declared(): seq<Field> {
    [Field("a", Integer), Field("b", Equal("b"))]
  }

  /** `?a=100&b=b` matches with the record `{ a: 100, b: "b" }`. */
  lemma BothParametersGiven()
    ensures QueryResult(Declared(), map["a" := "100", "b" := "b"]) == Ok(Record(map["a" := Num(100), "b" := Str("b")]))
  {
    var q := map["a" := "100", "b" := "b"];
    var fs := Declared();
    IntegerReadsRenderedNumeral(100);
    assert Render(100) == "100";
    assert Lookup(q, "a") == Some("100");
    assert Lookup(q, "b") == Some("b");
    assert fs[..1][..0] == [];
    var first: map<string, Value> := map["a" := Num(100)];
    assert Match(fs[..1], q) == Ok(first);
    assert fs[..1] == fs[..|fs| - 1];
    assert first["b" := Str("b")] == map["a" := Num(100), "b" := Str("b")];
  }

  /** With `?a=100`, field `a` matches. */
  lemma FirstFieldMatches()
    ensures Match(Declared()[..1], map["a" := "100"]).Ok?
  {
    var fs := Declared();
    IntegerReadsRenderedNumeral(100);
    assert Render(100) == "100";
    assert Lookup(map["a" := "100"], "a") == Some("100");
    assert fs[..1][..0] == [];
  }

  /** With `?a=100`, field `b` sees no value and fails, naming that value "undefined". */
  lemma SecondFieldFails()
    ensures FieldResult(Declared()[1], map["a" := "100"]).Err?
    ensures FieldError(Declared()[1], map["a" := "100"]) ==
      Error("can not match query parameter " + "b" + ": " + "undefined",
            Some(Error("expected " + "b" + ", but found " + "undefined", None)))
  {
    assert Lookup(map["a" := "100"], "b") == None;
  }

  /** `?a=100` fails on `b`, which reaches its parser as absent. */
  lemma SecondParameterMissing()
    ensures QueryResult(Declared(), map["a" := "100"]) ==
      Err(Error("can not match query parameter " + "b" + ": " + "undefined",
                Some(Error("expected " + "b" + ", but found " + "undefined", None))))
  {
    FirstFieldMatches();
    SecondFieldFails();
    MatchStopsAt(Declared(), map["a" := "100"], 1);
  }
}
