/** The filter-expression builder (`buildRequestBody`): each field of the
    template's `query` object becomes one clause `field<op>"value"`, the
    operator being inferred from a prefix of the value, and the clauses
    replace the `query` object by the single string `{clause,clause,...}`.
    Every other property of the template is carried over as it was. */
module RequestBuilder {
  import opened Wrappers
  import opened Strings
  import opened Json

  /** The comparison operators of the filter micro-syntax. */
  datatype Op = NotEqual | NotMatch | Match | Equal

  function OpText(op: Op): string
  {
    match op
    case NotEqual => "!="
    case NotMatch => "!~"
    case Match => "=~"
    case Equal => "="
  }

  /** The operator a raw filter value asks for, and the value left once its
      operator prefix is removed. The tests run in a fixed order and the
      first that matches wins. The value either keeps its text or loses
      exactly the text of the operator chosen. */
  function InferOperator(v: string): (r: (Op, string))
    ensures r.1 == v || OpText(r.0) + r.1 == v
  {
    if StartsWith(v, "!=") then (NotEqual, v[2..])
    else if StartsWith(v, "!~") then (NotMatch, v[2..])
    else if StartsWith(v, "=~") then (Match, v[2..])
    else if StartsWith(v, "=") then (Equal, v[1..])
    else if '|' in v then (Match, v)
    else (Equal, v)
  }

  /** The explicit operator prefixes, in the order they are tried. */
  const ExplicitPrefixes: seq<(string, Op)> :=
    [("!=", NotEqual), ("!~", NotMatch), ("=~", Match), ("=", Equal)]

  /** The first rule of `rules` whose prefix starts `v`. */
  function FirstPrefix(v: string, rules: seq<(string, Op)>): (r: Option<(string, Op)>)
    ensures r.Some? ==> r.value in rules && StartsWith(v, r.value.0)
    ensures r.None? ==> forall i :: 0 <= i < |rules| ==> !StartsWith(v, rules[i].0)
  {
    if |rules| == 0 then None
    else if StartsWith(v, rules[0].0) then Some(rules[0])
    else FirstPrefix(v, rules[1..])
  }

  /** Operator inference read off the prefix table: the first explicit
      prefix that matches decides and is removed; with none, a `|` means
      alternation and anything else means equality. */
  function InferFromTable(v: string): (Op, string)
  {
    match FirstPrefix(v, ExplicitPrefixes)
    case Some((p, op)) => (op, v[|p|..])
    case None => if '|' in v then (Match, v) else (Equal, v)
  }

  /** The if-chain of the builder is first-match over the prefix table. */
  lemma InferOperatorIsFirstMatch(v: string)
    ensures InferOperator(v) == InferFromTable(v)
  {
    var rules := ExplicitPrefixes;
    assert rules[1..][1..][1..][1..] == [];
    if !StartsWith(v, "!=") {
      assert FirstPrefix(v, rules) == FirstPrefix(v, rules[1..]);
      if !StartsWith(v, "!~") {
        assert FirstPrefix(v, rules[1..]) == FirstPrefix(v, rules[1..][1..]);
        if !StartsWith(v, "=~") {
          assert FirstPrefix(v, rules[1..][1..]) == FirstPrefix(v, rules[1..][1..][1..]);
        }
      }
    }
  }

  /** The consequences of the order of the tests where prefixes overlap. */
  lemma OperatorPrecedence(v: string)
    // the value is stripped exactly when it starts with an explicit operator
    ensures InferOperator(v).1 != v <==> StartsWith(v, "!=") || StartsWith(v, "!~") || StartsWith(v, "=")
    // `!=` is tested first, so `!=~x` means "not equal to ~x"
    ensures StartsWith(v, "!=~") ==> InferOperator(v) == (NotEqual, v[2..])
    // `=~` is tested before `=`, so it is never read as equality
    ensures StartsWith(v, "=~") ==> InferOperator(v) == (Match, v[2..])
    // an explicit `=` beats the `|` rule
    ensures StartsWith(v, "=") && !StartsWith(v, "=~") ==> InferOperator(v) == (Equal, v[1..])
    // `|` selects alternation only for a value without an explicit operator
    ensures InferOperator(v) == (Match, v) <==>
      !StartsWith(v, "!=") && !StartsWith(v, "!~") && !StartsWith(v, "=") && '|' in v
    ensures InferOperator(v) == (Equal, v) <==>
      !StartsWith(v, "!=") && !StartsWith(v, "!~") && !StartsWith(v, "=") && '|' !in v
  {
    if StartsWith(v, "!=~") {
      assert v[..3][..2] == v[..2];
    }
    if StartsWith(v, "=") {
      assert v[..1][0] == '=';
      DiffersAt(v, "!=", 0);
      DiffersAt(v, "!~", 0);
    }
  }

  /** One clause of the filter expression; no quote inside the value is escaped. */
  function Clause(key: string, raw: string): (r: string)
    // an explicit operator prefix moves out of the quotes
    ensures FirstPrefix(raw, ExplicitPrefixes).Some? ==>
      var p := FirstPrefix(raw, ExplicitPrefixes).value.0;
      r == key + p + "\"" + raw[|p|..] + "\""
    // otherwise the whole value is quoted, after `=~` when it holds a `|`
    ensures FirstPrefix(raw, ExplicitPrefixes).None? ==>
      r == key + (if '|' in raw then "=~" else "=") + "\"" + raw + "\""
  {
    InferOperatorIsFirstMatch(raw);
    var (op, value) := InferOperator(raw);
    key + OpText(op) + "\"" + value + "\""
  }

  /** The clauses of fields whose values are all strings, in field order. */
  function Clauses(entries: seq<(string, string)>): (r: seq<string>)
    ensures |r| == |entries|
  {
    seq(|entries|, i requires 0 <= i < |entries| => Clause(entries[i].0, entries[i].1))
  }

  /** The filter expression that replaces the `query` object. */
  function FilterExpression(entries: seq<(string, string)>): (r: string)
    ensures |r| >= 2 && r[0] == '{' && r[|r| - 1] == '}'
    ensures |entries| == 0 ==> r == "{}"
    ensures |entries| == 1 ==> r == "{" + Clause(entries[0].0, entries[0].1) + "}"
  {
    "{" + Join(Clauses(entries), ",") + "}"
  }

  /** The (key, value) pairs `for (const key in query)` visits, in order.
      An absent, `null`, boolean or numeric `query` visits nothing; an array
      or a string visits its indices. */
  function QueryEntries(query: Option<Json>): (r: seq<(string, Json)>)
    // an object visits its own properties in order
    ensures query.Some? && query.value.JObj? ==> r == query.value.fields
    // an array visits "0", "1", ... with its elements
    ensures query.Some? && query.value.JArr? ==>
      |r| == |query.value.elems| && forall i :: 0 <= i < |r| ==> r[i] == (NatText(i), query.value.elems[i])
    // a string visits "0", "1", ... with its one-character strings
    ensures query.Some? && query.value.JStr? ==>
      |r| == |query.value.s| && forall i :: 0 <= i < |r| ==> r[i] == (NatText(i), JStr([query.value.s[i]]))
    // nothing else has enumerable properties
    ensures query.None? || query.value.JNull? || query.value.JBool? || query.value.JNum? ==> r == []
  {
    match query
    case None => []
    case Some(JObj(fs)) => fs
    case Some(JArr(es)) => seq(|es|, i requires 0 <= i < |es| => (NatText(i), es[i]))
    case Some(JStr(s)) => seq(|s|, i requires 0 <= i < |s| => (NatText(i), JStr([s[i]])))
    case Some(_) => []
  }

  /** `value.startsWith` throws on a query value that is not a string. */
  datatype BuildError = QueryValueNotString(key: string)

  /** The query fields as strings, or the error the builder throws at the
      first field whose value is not a string. */
  function StringEntries(entries: seq<(string, Json)>): (r: Result<seq<(string, string)>, BuildError>)
    ensures r.Ok? <==> forall i :: 0 <= i < |entries| ==> entries[i].1.JStr?
    ensures r.Ok? ==> |r.value| == |entries|
    ensures r.Ok? ==> forall i :: 0 <= i < |entries| ==> r.value[i] == (entries[i].0, entries[i].1.s)
    ensures r.Err? ==> exists i :: (0 <= i < |entries| && !entries[i].1.JStr? && r.error == QueryValueNotString(entries[i].0)
      && forall j :: 0 <= j < i ==> entries[j].1.JStr?)
  {
    if |entries| == 0 then Ok([])
    else if !entries[0].1.JStr? then Err(QueryValueNotString(entries[0].0))
    else
      match StringEntries(entries[1..])
      case Err(e) => Err(e)
      case Ok(rest) => Ok([(entries[0].0, entries[0].1.s)] + rest)
  }

  /** The request body built from a parsed template object. */
  function BuiltBody(template: Fields): (r: Result<Fields, BuildError>)
    ensures r.Ok? ==> forall k :: k != "query" ==> Lookup(r.value, k) == Lookup(template, k)
  {
    match StringEntries(QueryEntries(Lookup(template, "query")))
    case Err(e) => Err(e)
    case Ok(entries) => Ok(SetField(template, "query", JStr(FilterExpression(entries))))
  }

  /** `buildRequestBody`: walks the query fields, rebinding the operator and
      the value per field and collecting the clauses, then spreads the
      template with the joined `query`. */
  method BuildRequestBody(template: Fields) returns (r: Result<Fields, BuildError>)
    ensures r == BuiltBody(template)
  {
    var entries := QueryEntries(Lookup(template, "query"));
    var queryParts: seq<string> := [];
    var i := 0;
    while i < |entries|
      invariant 0 <= i <= |entries|
      invariant forall j :: 0 <= j < i ==> entries[j].1.JStr?
      invariant queryParts == seq(i, j requires 0 <= j < i => Clause(entries[j].0, entries[j].1.s))
    {
      var (key, raw) := entries[i];
      if !raw.JStr? {
        return Err(QueryValueNotString(key));
      }
      var value := raw.s;
      var operator := Equal;
      if StartsWith(value, "!=") {
        operator := NotEqual;
        value := value[2..];
      } else if StartsWith(value, "!~") {
        operator := NotMatch;
        value := value[2..];
      } else if StartsWith(value, "=~") {
        operator := Match;
        value := value[2..];
      } else if StartsWith(value, "=") {
        value := value[1..];
      } else if '|' in value {
        operator := Match;
      }
      queryParts := queryParts + [key + OpText(operator) + "\"" + value + "\""];
      i := i + 1;
    }
    var ps := StringEntries(entries).value;
    assert queryParts == Clauses(ps);
    r := Ok(SetField(template, "query", JStr("{" + Join(queryParts, ",") + "}")));
  }

  /** A built body holds the filter expression under `query`, keeps every
      other property with its value, and keeps the order of properties
      (appending `query` when the template had none). */
  lemma BuiltBodyShape(template: Fields, body: Fields)
    requires BuiltBody(template) == Ok(body)
    ensures StringEntries(QueryEntries(Lookup(template, "query"))).Ok?
    ensures Lookup(body, "query") ==
      Some(JStr(FilterExpression(StringEntries(QueryEntries(Lookup(template, "query"))).value)))
    ensures Lookup(template, "query").Some? ==> |body| == |template|
    ensures Lookup(template, "query").Some? ==>
      forall i :: 0 <= i < |template| ==> body[i].0 == template[i].0 && (template[i].0 != "query" ==> body[i] == template[i])
    ensures Lookup(template, "query").None? ==> body == template + [("query", JStr("{}"))]
  {
    var entries := StringEntries(QueryEntries(Lookup(template, "query"))).value;
    assert body == SetField(template, "query", JStr(FilterExpression(entries)));
    if Lookup(template, "query").None? {
      assert QueryEntries(Lookup(template, "query")) == [];
      assert entries == [];
      assert Clauses(entries) == [];
      assert FilterExpression(entries) == "{}";
    }
  }

  /** Operator-inference examples for the negated operators; `!=` is tried
      before anything else, so `!=~x` means "not equal to `~x`". */
  lemma ClauseExamples()
    ensures Clause("f", "!=x") == "f!=\"x\""
    ensures Clause("f", "!~x") == "f!~\"x\""
    ensures Clause("f", "!=~x") == "f!=\"~x\""
  {
    assert StartsWith("!=x", "!=");
    assert StartsWith("!~x", "!~");
    DiffersAt("!~x", "!=", 1);
    assert StartsWith("!=~x", "!=");
  }

  /** Operator-inference examples for `=~` and `=`; an explicit `=` wins
      over the `|` rule. */
  lemma ClauseEqualityExamples()
    ensures Clause("f", "=~x") == "f=~\"x\""
    ensures Clause("f", "=x") == "f=\"x\""
    ensures Clause("f", "=a|b") == "f=\"a|b\""
  {
    assert StartsWith("=~x", "=~");
    DiffersAt("=~x", "!=", 0);
    DiffersAt("=~x", "!~", 0);
    assert StartsWith("=x", "=");
    DiffersAt("=x", "=~", 1);
    DiffersAt("=x", "!=", 0);
    DiffersAt("=x", "!~", 0);
    assert StartsWith("=a|b", "=");
    DiffersAt("=a|b", "=~", 1);
    DiffersAt("=a|b", "!=", 0);
    DiffersAt("=a|b", "!~", 0);
  }

  /** Operator-inference examples without an explicit operator. */
  lemma ClauseDefaultExamples()
    ensures Clause("f", "a|b") == "f=~\"a|b\""
    ensures Clause("f", "plain") == "f=\"plain\""
  {
    assert '|' in "a|b";
    DiffersAt("a|b", "!=", 0);
    DiffersAt("a|b", "!~", 0);
    DiffersAt("a|b", "=~", 0);
    DiffersAt("a|b", "=", 0);
    DiffersAt("plain", "!=", 0);
    DiffersAt("plain", "!~", 0);
    DiffersAt("plain", "=~", 0);
    DiffersAt("plain", "=", 0);
  }

  /** Fields keep their order in the expression; an empty query gives `{}`. */
  lemma FilterExpressionExamples()
    ensures FilterExpression([]) == "{}"
    ensures FilterExpression([("A", "1"), ("B", "2")]) == "{A=\"1\",B=\"2\"}"
  {
    var ps := [("A", "1"), ("B", "2")];
    assert Clause("A", "1") == "A=\"1\"" by {
      DiffersAt("1", "=", 0);
      assert '|' !in "1";
    }
    assert Clause("B", "2") == "B=\"2\"" by {
      DiffersAt("2", "=", 0);
      assert '|' !in "2";
    }
    assert Clauses(ps) == ["A=\"1\"", "B=\"2\""];
    assert Clauses(ps)[1..] == ["B=\"2\""];
  }
}
