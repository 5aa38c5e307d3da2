/** The drill-down orchestrator (`performDrillDown`) and the count summary
    (`printCountSummary`). Step 1's aggregation response is an input; the
    orchestrator extracts its bucket keys, drops exempt addresses, stops
    when nothing is left, caps the list, injects it into the second
    template, builds the second request body and decides from that body
    whether it is a count query or an events query. Sending the requests
    and printing are not modelled: the outcome says what would be sent. */
module DrillDown {
  import opened Wrappers
  import opened Strings
  import opened Json
  import opened RequestBuilder
  import opened TemplatePopulator
  import opened BucketExtractor
  import opened ExemptionFilter

  /** The configuration the orchestrator reads: every entry, for template
      substitution, and the typed readings of `EXEMPT_SUBNETS` and
      `MAX_DRILLDOWN_VALUES`. */
  datatype Config = Config(
    entries: map<string, Json>,
    exemptSubnets: Option<seq<string>>,
    maxDrilldownValues: Option<int>)

  /** `config.MAX_DRILLDOWN_VALUES || 10`. */
  function DrilldownLimit(config: Config): (limit: int)
    ensures limit != 0
    // a configured non-zero value is the limit
    ensures config.maxDrilldownValues.Some? && config.maxDrilldownValues.value != 0 ==>
      limit == config.maxDrilldownValues.value
    // absent or 0 (falsy) falls back to ten
    ensures config.maxDrilldownValues.None? || config.maxDrilldownValues == Some(0) ==> limit == 10
  {
    match config.maxDrilldownValues
    case Some(n) => if n != 0 then n else 10
    case None => 10
  }

  /** The cap on the drill-down values: `values.slice(0, limit)` when there
      are more than `limit` of them. */
  function Truncate(values: seq<string>, limit: int): (r: seq<string>)
    // whatever the limit, the leading values are kept in order
    ensures r <= values
    // a positive limit keeps exactly the first min(n, limit) values
    ensures limit > 0 ==> |r| == (if |values| < limit then |values| else limit)
    // a negative limit drops that many values from the end, keeping at least none
    ensures limit < 0 ==> r == values[..if |values| + limit > 0 then |values| + limit else 0]
  {
    if |values| > limit then SliceTo(values, limit) else values
  }

  /** The quoted placeholder the drill-down values replace. */
  const DrilldownToken: string := "\"{DRILLDOWN_VALUES}\""

  /** `populatedTemplate.replace(/"\{DRILLDOWN_VALUES\}"/g, ...)`: every quoted
      placeholder becomes the values joined with `|`, quoted. */
  function InjectValues(populated: string, values: seq<string>): string
  {
    ReplaceAll(populated, DrilldownToken, "\"" + Join(values, "|") + "\"")
  }

  /** The second template as sent to the builder's parser: general
      substitution first, then the drill-down values. */
  function Step2Template(template: string, window: TimeWindow, config: Config, values: seq<string>): string
  {
    InjectValues(PopulateTemplate(template, window, config.entries), values)
  }

  /** `finalBody.aggs && Object.keys(finalBody.aggs).length > 0`: an `aggs`
      that is absent or falsy, or has no keys, means an events query. */
  predicate IsCountQuery(body: Fields)
    ensures IsCountQuery(body) ==> Lookup(body, "aggs").Some? && Truthy(Lookup(body, "aggs").value)
    ensures Lookup(body, "aggs").Some? && Lookup(body, "aggs").value.JObj? ==>
      (IsCountQuery(body) <==> |Lookup(body, "aggs").value.fields| > 0)
  {
    match Lookup(body, "aggs")
    case Some(JObj(fs)) => |fs| > 0
    case Some(JArr(es)) => |es| > 0
    case Some(JStr(s)) => |s| > 0
    case _ => false
  }

  /** Which endpoint the second request goes to. */
  datatype Mode = CountQuery | EventsQuery

  /** What step 2 sends: the values drilled into, the populated template,
      the built body and the endpoint. */
  datatype Step2 = Step2(values: seq<string>, populated: string, body: Fields, mode: Mode)

  /** A run ends early, with nothing to drill into, or goes on to step 2. */
  datatype Outcome = NothingToDrill | DrillInto(step2: Step2)

  /** The errors that abort a run. */
  datatype DrillDownError =
    | ExemptionError(filterError: FilterError)
    | TemplateParseError
    | MalformedQuery(buildError: BuildError)

  /** The values that survive the exemption filter. */
  function Survivors(step1: AggResponse, config: Config, lib: Ipv4Library): Result<seq<string>, FilterError>
  {
    FilterExemptValues(ExtractBucketKeys(step1), config.exemptSubnets, lib)
  }

  /** `performDrillDown` from the moment step 1's response is in. `parse`
      stands for `JSON.parse` of the populated second template; `None` is
      a parse failure. */
  method PerformDrillDown(
    step1: AggResponse, template: string, window: TimeWindow, config: Config,
    lib: Ipv4Library, parse: string -> Option<Fields>)
    returns (r: Result<Outcome, DrillDownError>)
    // an exempt subnet the library rejects aborts the run
    ensures Survivors(step1, config, lib).Err? ==> r == Err(ExemptionError(Survivors(step1, config, lib).error))
    // the run stops after filtering exactly when no value is left
    ensures r == Ok(NothingToDrill) <==> Survivors(step1, config, lib) == Ok([])
    // step 2 drills into the capped survivors, through the second template
    ensures r.Ok? && r.value.DrillInto? ==>
      var s := r.value.step2;
      && Survivors(step1, config, lib).Ok?
      && s.values == Truncate(Survivors(step1, config, lib).value, DrilldownLimit(config))
      && s.populated == Step2Template(template, window, config, s.values)
      && parse(s.populated).Some?
      && BuiltBody(parse(s.populated).value) == Ok(s.body)
      // the endpoint is chosen by the second template's own `aggs`
      && (s.mode == CountQuery <==> IsCountQuery(parse(s.populated).value))
    // with survivors, a template that parses and a body that builds, the run reaches step 2
    ensures Survivors(step1, config, lib).Ok? && Survivors(step1, config, lib).value != [] ==>
      var populated := Step2Template(template, window, config,
        Truncate(Survivors(step1, config, lib).value, DrilldownLimit(config)));
      parse(populated).Some? && BuiltBody(parse(populated).value).Ok? ==> r.Ok? && r.value.DrillInto?
    // a template that does not parse, or a query value that is not a string, aborts
    ensures Survivors(step1, config, lib).Ok? && Survivors(step1, config, lib).value != [] ==>
      var populated := Step2Template(template, window, config,
        Truncate(Survivors(step1, config, lib).value, DrilldownLimit(config)));
      && (parse(populated).None? <==> r == Err(TemplateParseError))
      && (parse(populated).Some? && BuiltBody(parse(populated).value).Err? ==>
            r == Err(MalformedQuery(BuiltBody(parse(populated).value).error)))
  {
    var drillDownValues := ExtractBucketKeys(step1);
    var filtered := FilterExemptValues(drillDownValues, config.exemptSubnets, lib);
    if filtered.Err? {
      return Err(ExemptionError(filtered.error));
    }
    drillDownValues := filtered.value;
    if |drillDownValues| == 0 {
      return Ok(NothingToDrill);
    }
    var limit := if config.maxDrilldownValues.Some? && config.maxDrilldownValues.value != 0
      then config.maxDrilldownValues.value else 10;
    if |drillDownValues| > limit {
      drillDownValues := SliceTo(drillDownValues, limit);
    }
    var populatedTemplate := PopulateTemplate(template, window, config.entries);
    populatedTemplate := ReplaceAll(populatedTemplate, DrilldownToken, "\"" + Join(drillDownValues, "|") + "\"");
    var finalTemplateObject := parse(populatedTemplate);
    if finalTemplateObject.None? {
      return Err(TemplateParseError);
    }
    var built := BuildRequestBody(finalTemplateObject.value);
    if built.Err? {
      return Err(MalformedQuery(built.error));
    }
    var finalBody := built.value;
    BuildKeepsAggs(finalTemplateObject.value);
    var isCountQuery := IsCountQuery(finalBody);
    r := Ok(DrillInto(Step2(drillDownValues, populatedTemplate, finalBody,
      if isCountQuery then CountQuery else EventsQuery)));
  }

  /** The builder leaves `aggs` alone, so a template and its body agree on
      the count-versus-events decision. */
  lemma BuildKeepsAggs(template: Fields)
    requires BuiltBody(template).Ok?
    ensures IsCountQuery(BuiltBody(template).value) <==> IsCountQuery(template)
  {
    assert Lookup(BuiltBody(template).value, "aggs") == Lookup(template, "aggs");
  }

  /** The values drilled into are step 1's bucket keys, some left out, the
      rest in response order. */
  lemma DrilledValuesFollowStep1(step1: AggResponse, config: Config, lib: Ipv4Library)
    requires Survivors(step1, config, lib).Ok?
    ensures IsSubsequence(Truncate(Survivors(step1, config, lib).value, DrilldownLimit(config)), ExtractBucketKeys(step1))
  {
    var survivors := Survivors(step1, config, lib).value;
    var capped := Truncate(survivors, DrilldownLimit(config));
    FilterKeepsOrder(ExtractBucketKeys(step1), config.exemptSubnets, lib);
    SubsequencePrefix(survivors, |capped|, ExtractBucketKeys(step1));
    assert survivors[..|capped|] == capped;
  }

  /** With the default limit, the values drilled into are the first ten
      survivors, or all of them when there are fewer. */
  lemma DefaultLimitKeepsTopTen(values: seq<string>, config: Config)
    requires config.maxDrilldownValues.None? || config.maxDrilldownValues == Some(0)
    ensures Truncate(values, DrilldownLimit(config)) == values[..if |values| < 10 then |values| else 10]
  {
  }

  /** Truncation example: fifteen survivors and a limit of ten leave the
      first ten, in order. */
  lemma TruncationExample(values: seq<string>)
    requires |values| == 15
    ensures Truncate(values, 10) == values[..10]
  {
  }

  /** The joined text starts as the first part followed by the separator
      does, unless that part stands alone and is empty. */
  lemma {:induction false} JoinStartsWithFirst(values: seq<string>, sep: string)
    requires |values| > 0 && (|values[0]| > 0 || (|values| > 1 && |sep| > 0))
    ensures |Join(values, sep)| > 0 && Join(values, sep)[0] == (values[0] + sep)[0]
  {
    if |values| > 1 {
      assert Join(values, sep) == values[0] + sep + Join(values[1..], sep);
    }
  }

  /** What the builder makes of the injected values: several values read as
      an alternation (`=~`), a single value without `|` as an equality, as
      long as the first value does not start with an operator character. */
  lemma InjectedValuesOperator(values: seq<string>)
    requires |values| > 0
    requires |values[0]| == 0 || (values[0][0] != '!' && values[0][0] != '=')
    ensures |values| >= 2 ==> InferOperator(Join(values, "|")) == (Match, Join(values, "|"))
    ensures |values| == 1 && '|' !in values[0] ==> InferOperator(Join(values, "|")) == (Equal, values[0])
  {
    var j := Join(values, "|");
    JoinContainsSeparator(values, '|');
    if |values[0]| > 0 || |values| > 1 {
      JoinStartsWithFirst(values, "|");
      DiffersAt(j, "!=", 0);
      DiffersAt(j, "!~", 0);
      DiffersAt(j, "=", 0);
      DiffersAt(j, "=~", 0);
    }
  }

  /** General substitution leaves the quoted placeholder as written, unless
      the context itself has a truthy `DRILLDOWN_VALUES`, and carries on
      after it. */
  lemma PopulateKeepsDrilldownToken(rest: string, ctx: map<string, Json>)
    requires !Resolves(ctx, "DRILLDOWN_VALUES")
    ensures Populate(DrilldownToken + rest, ctx) == DrilldownToken + Populate(rest, ctx)
  {
    var w := "DRILLDOWN_VALUES";
    var open := "{" + w + "}";
    assert IsWord(w);
    assert DrilldownToken == ['"'] + open + ['"'];
    var tail := ['"'] + rest;
    var mid := open + tail;
    assert DrilldownToken + rest == ['"'] + mid;
    PopulateLiteral('"', mid, ctx);
    PopulatePlaceholder(w, tail, ctx);
    PopulateLiteral('"', rest, ctx);
    calc {
      Populate(DrilldownToken + rest, ctx);
      ['"'] + Populate(mid, ctx);
      ['"'] + (open + Populate(tail, ctx));
      ['"'] + (open + (['"'] + Populate(rest, ctx)));
      { ConcatAssoc(['"'], open, ['"'], Populate(rest, ctx)); }
      DrilldownToken + Populate(rest, ctx);
    }
  }

  lemma ConcatAssoc(x: string, y: string, z: string, t: string)
    ensures x + (y + (z + t)) == x + y + z + t
  {
  }

  /** The quoted placeholder, wherever it sits in the second template,
      becomes `"` + the values joined with `|` + `"`: the text before it is
      populated as usual, and the first occurrence of the placeholder after
      population is the one written in the template. */
  lemma QuotedPlaceholderReceivesValues(
    a: string, b: string, window: TimeWindow, config: Config, values: seq<string>)
    requires !Resolves(Replacements(config.entries, window), "DRILLDOWN_VALUES")
    requires forall i :: 0 <= i < |PopulateTemplate(a, window, config.entries)| ==>
      !StartsWith((PopulateTemplate(a, window, config.entries) + DrilldownToken)[i..], DrilldownToken)
    ensures Step2Template(a + DrilldownToken + b, window, config, values) ==
      PopulateTemplate(a, window, config.entries) + "\"" + Join(values, "|") + "\"" +
      Step2Template(b, window, config, values)
  {
    var ctx := Replacements(config.entries, window);
    var p := PopulateTemplate(a, window, config.entries);
    assert p == Populate(a, ctx);
    forall i | 0 <= i < |p|
      ensures !StartsWith((p + DrilldownToken)[i..], DrilldownToken)
    {
    }
    PopulateAroundToken(a, b, ctx);
    InjectValuesFirst(p, Populate(b, ctx), values);
  }

  lemma PopulateAroundToken(a: string, b: string, ctx: map<string, Json>)
    requires !Resolves(ctx, "DRILLDOWN_VALUES")
    ensures Populate(a + DrilldownToken + b, ctx) == Populate(a, ctx) + DrilldownToken + Populate(b, ctx)
  {
    assert a + DrilldownToken + b == a + (DrilldownToken + b);
    assert StartsOutsideToken(DrilldownToken + b);
    PopulateSplit(a, DrilldownToken + b, ctx);
    PopulateKeepsDrilldownToken(b, ctx);
  }

  /** The first quoted placeholder receives the values. */
  lemma InjectValuesFirst(p: string, q: string, values: seq<string>)
    requires forall i :: 0 <= i < |p| ==> !StartsWith((p + DrilldownToken)[i..], DrilldownToken)
    ensures InjectValues(p + DrilldownToken + q, values) ==
      p + "\"" + Join(values, "|") + "\"" + InjectValues(q, values)
  {
    ReplaceAllFirstOccurrence(p, q, DrilldownToken, "\"" + Join(values, "|") + "\"");
  }

  // The count summary

  /** One line of the per-action breakdown. */
  datatype Breakdown = Breakdown(rows: seq<(string, nat)>, unmitigated: nat, mitigated: nat)

  /** What `printCountSummary` reports: `total_hits || 0` and, when the
      response has buckets, the breakdown and the mitigation split. */
  datatype CountSummary = CountSummary(totalHits: nat, breakdown: Option<Breakdown>)

  /** `unmitigatedActions.includes(action)`. */
  predicate IsUnmitigated(action: string)
  {
    action == "allow" || action == "report"
  }

  /** The sum of the counts of the buckets that are (or are not) unmitigated. */
  function ActionTotal(buckets: seq<Bucket>, unmitigated: bool): nat
  {
    if |buckets| == 0 then 0
    else
      var last := buckets[|buckets| - 1];
      ActionTotal(buckets[..|buckets| - 1], unmitigated) +
        (if IsUnmitigated(last.key) == unmitigated then last.count else 0)
  }

  /** The sum of all bucket counts. */
  function TotalCount(buckets: seq<Bucket>): nat
  {
    if |buckets| == 0 then 0 else TotalCount(buckets[..|buckets| - 1]) + buckets[|buckets| - 1].count
  }

  /** Every bucket falls on exactly one side of the split. */
  lemma {:induction false} SplitIsTotal(buckets: seq<Bucket>)
    ensures ActionTotal(buckets, true) + ActionTotal(buckets, false) == TotalCount(buckets)
  {
    if |buckets| > 0 {
      SplitIsTotal(buckets[..|buckets| - 1]);
    }
  }

  /** `printCountSummary`: walks the buckets of the first aggregation and
      adds each count to the unmitigated or the mitigated total. */
  method PrintCountSummary(response: AggResponse) returns (summary: CountSummary)
    ensures summary.totalHits == response.totalHits.GetOr(0)
    ensures summary.breakdown.None? <==> FirstBuckets(response).None?
    ensures summary.breakdown.Some? ==>
      var buckets := FirstBuckets(response).value;
      var b := summary.breakdown.value;
      && |b.rows| == |buckets|
      && (forall i :: 0 <= i < |buckets| ==> b.rows[i] == (buckets[i].key, buckets[i].count))
      && b.unmitigated == ActionTotal(buckets, true)
      && b.mitigated == ActionTotal(buckets, false)
      && b.unmitigated + b.mitigated == TotalCount(buckets)
  {
    var totalHits := response.totalHits.GetOr(0);
    var found := FirstBuckets(response);
    if found.None? {
      return CountSummary(totalHits, None);
    }
    var buckets := found.value;
    var mitigatedCount := 0;
    var unmitigatedCount := 0;
    var rows: seq<(string, nat)> := [];
    for i := 0 to |buckets|
      invariant |rows| == i
      invariant forall j :: 0 <= j < i ==> rows[j] == (buckets[j].key, buckets[j].count)
      invariant unmitigatedCount == ActionTotal(buckets[..i], true)
      invariant mitigatedCount == ActionTotal(buckets[..i], false)
    {
      assert buckets[..i + 1][..i] == buckets[..i];
      var action := buckets[i].key;
      var count := buckets[i].count;
      rows := rows + [(action, count)];
      if IsUnmitigated(action) {
        unmitigatedCount := unmitigatedCount + count;
      } else {
        mitigatedCount := mitigatedCount + count;
      }
    }
    assert buckets[..|buckets|] == buckets;
    SplitIsTotal(buckets);
    summary := CountSummary(totalHits, Some(Breakdown(rows, unmitigatedCount, mitigatedCount)));
  }

  /** Classification example: `allow` 5, `block` 3 and `report` 2 split
      into 7 unmitigated and 3 mitigated. */
  lemma CountSplitExample()
    ensures var bs := [Bucket("allow", 5), Bucket("block", 3), Bucket("report", 2)];
      ActionTotal(bs, true) == 7 && ActionTotal(bs, false) == 3 && TotalCount(bs) == 10
  {
    var bs := [Bucket("allow", 5), Bucket("block", 3), Bucket("report", 2)];
    var b1, b2 := [Bucket("allow", 5)], [Bucket("allow", 5), Bucket("block", 3)];
    assert bs[..2] == b2 && b2[..1] == b1 && b1[..0] == [];
    assert IsUnmitigated("allow") && IsUnmitigated("report");
    assert !IsUnmitigated("block") by {
      assert "block"[0] != "allow"[0] && "block"[0] != "report"[0];
    }
    assert ActionTotal(b1, true) == 5 && ActionTotal(b1, false) == 0 && TotalCount(b1) == 5;
    assert ActionTotal(b2, true) == 5 && ActionTotal(b2, false) == 3 && TotalCount(b2) == 8;
  }
}
