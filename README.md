# Filter-query builder and drill-down pipeline, modelled in Dafny

This project models the logic core of a small command-line client for a
security-analytics API. A query is a JSON template with `{PLACEHOLDER}`
tokens. The client fills the tokens from the configuration and a time
window, then turns the template's `query` object into one filter
expression `{field<op>"value",...}`. A drill-down chains two queries. The
top bucket keys of an aggregation answer to query 1 go through an
exemption filter for IPv4 subnets. They are capped at a configured maximum
and injected into query 2's template as one `|`-joined value. The shape of
query 2's built body then decides whether it is a count query or an events
query. A count answer is summarised into unmitigated (`allow`, `report`)
and mitigated buckets.

Modules, one per component:

- `Wrappers`: `Option` and `Result`.
- `Strings`: the JavaScript built-ins used: `startsWith`, `join`, a global
  `replace` with a literal pattern, `slice(0, end)`.
- `Json`: parsed JSON values, with objects as ordered property sequences.
  Also property lookup, the spread `{...o, k: v}`, truthiness and
  `String(value)`.
- `RequestBuilder`: `buildRequestBody` (utils.js). It is a method with the
  source's loop, proved against the function `BuiltBody`.
- `TemplatePopulator`: `populateTemplate` (utils.js), as a left-to-right
  scan into literal characters and `{word}` tokens.
- `BucketExtractor`: `extractBucketKeys` (utils.js) and the aggregation
  response datatype.
- `ExemptionFilter`: `filterExemptValues` (workflows.js). The `ip-address`
  library is a parameter: a predicate "`new Address4(s)` succeeds" and the
  `isInSubnet` relation.
- `DrillDown`: the part of `performDrillDown` that runs after step 1's answer
  arrives. It is a method that reassigns the drill-down values and the
  populated template step by step. `printCountSummary` is a method whose
  loop accumulates the two counts.

Inputs stand in for I/O. Step 1's response is a value. `JSON.parse` of the
populated second template is a function parameter `parse`, where `None`
means the text does not parse. The time window is two opaque strings.
`PerformDrillDown` does not send anything. It returns the values it drills
into, the populated template, the built body, and the endpoint (count or
events) that would be used.

Four behaviours of the code that the model keeps as written:

- A malformed exempt subnet is fatal. At workflows.js:32, `new Address4(s)`
  throws on a subnet it cannot parse, so the whole filter fails; this is
  the same throwing that `isIpAddress` (workflows.js:14-21) depends on, and
  `.filter(Boolean)` removes only falsy objects. The model returns
  `Err(InvalidSubnet(s))` for the first such subnet.
- An absent `query` gives `query: "{}"`: `for...in` over `undefined`
  visits nothing (utils.js:95). A query value that is not a string makes
  `startsWith` throw, and the model returns `Err(QueryValueNotString(key))`.
- `aggs` makes a count query by its keys (workflows.js:83): the values
  under `aggs` are not looked at, so a non-empty array or string `aggs`
  also counts.
- An empty `buckets` array is truthy at workflows.js:107, so it still gives
  a breakdown, with no rows and zero totals; `PrintCountSummary` does the
  same.

## Model

| member | source | states |
|---|---|---|
| `RequestBuilder.InferOperator` | utils.js:99-114 | the value either keeps its text or loses exactly the text of the chosen operator |
| `RequestBuilder.InferOperatorIsFirstMatch` | utils.js:101-114 | operator inference equals first-match over the ordered prefix table `!=`, `!~`, `=~`, `=`, then `\|` → `=~`, else `=` |
| `RequestBuilder.OperatorPrecedence` | utils.js:99-114 | stripping happens iff the value starts with `!=`, `!~` or `=`; `!=~x` gives `!=` with `~x`; `=~` never gives `=`; an explicit `=` beats `\|`; `(=~, v)` iff no explicit prefix and `\|` in v; `(=, v)` iff no explicit prefix and no `\|` |
| `RequestBuilder.StringEntries` | utils.js:95-101 | succeeds iff every query value is a string, then gives the same keys and texts in order; otherwise fails with the key of the first non-string value |
| `RequestBuilder.BuiltBody` | utils.js:119-122 | every property other than `query` has the same value in the body as in the template |
| `RequestBuilder.BuildRequestBody` | utils.js:93-123 | the loop that rebinds operator and value and pushes clauses yields exactly `BuiltBody` of the template, error included |
| `RequestBuilder.BuiltBodyShape` | utils.js:116-122 | `query` holds `"{" + join(clauses, ",") + "}"`; property order and all other properties are unchanged; a template without `query` gets `query: "{}"` appended |
| `RequestBuilder.Clause` | utils.js:99-116 | an explicit operator prefix (the first of `!=`, `!~`, `=~`, `=` that the value starts with) moves out of the quotes; with none, the whole value is quoted after `=~` if it holds a `\|` and after `=` otherwise |
| `RequestBuilder.ClauseExamples` | utils.js:101-116 | the clauses for `!=x`, `!~x` and `!=~x` (not equal to `~x`) |
| `RequestBuilder.ClauseEqualityExamples` | utils.js:107-116 | the clauses for `=~x`, `=x` and `=a\|b` (an explicit `=` beats `\|`) |
| `RequestBuilder.ClauseDefaultExamples` | utils.js:112-116 | the clauses for `a\|b` (`=~`) and `plain` (`=`) |
| `RequestBuilder.QueryEntries` | utils.js:95-96 | `for...in` visits an object's properties in order, an array's or string's indices `"0"`, `"1"`, ... with their elements, and nothing for an absent, null, boolean or numeric `query` |
| `RequestBuilder.FilterExpression` | utils.js:121 | the expression is braced; no fields give `{}` and one field gives `{clause}` |
| `RequestBuilder.FilterExpressionExamples` | utils.js:94-121 | an empty query gives `{}`; fields A then B give `{A="1",B="2"}` |
| `Json.Truthy` | utils.js:127 | the falsy JSON values are `null`, `false`, `0` and `""`; everything else is truthy |
| `Json.Text` | utils.js:127 | `String(v)`: a string is itself, a number the decimal digits that denote it (after a `-` when negative), an empty array is empty, a one-string array is that string |
| `Strings.NatTextValue` | utils.js:127 | the decimal digits written for a natural number denote that number |
| `Json.SetField` | utils.js:119-122 | the object spread gives `query` the new value in place (or appends it), keeps every other key's value, and keeps the key order |
| `TemplatePopulator.Scan` | utils.js:127 | one regex step reads a piece whose raw text is exactly the prefix it consumes; a token's name is a non-empty run of `\w` characters |
| `TemplatePopulator.Tokenize` | utils.js:127 | every token found is a `{word}` with `word` made of `[A-Za-z0-9_]+` |
| `TemplatePopulator.TokenizeLossless` | utils.js:127 | the scan loses nothing: the pieces spell out the template |
| `TemplatePopulator.Replacements` | utils.js:126 | the context has the config keys plus `START_TIME`/`END_TIME`, the time window overrides config entries of those names, and every other entry is the config's |
| `TemplatePopulator.PopulateUnresolved` | utils.js:127 | a template none of whose tokens has a truthy entry comes back unchanged |
| `TemplatePopulator.PopulatePlaceholder` | utils.js:127 | a leading `{w}` becomes `String(ctx[w])` when that is truthy and stays verbatim otherwise; the inserted text is not scanned again |
| `TemplatePopulator.PopulateLiteral` | utils.js:127 | a character that does not open a token — anything but `{`, or a `{` not followed by a word and `}` — is copied as it is |
| `TemplatePopulator.TokenizeSplit` | utils.js:127 | a text that ends outside any token, or is followed by a character that can neither continue a name nor close a token, is scanned on its own |
| `TemplatePopulator.PopulateSplit` | utils.js:125-128 | population distributes over a split that no token can straddle |
| `TemplatePopulator.PopulateTemplateToken` | utils.js:125-128 | `populateTemplate` fills a leading `{START_TIME}`/`{END_TIME}` from the time window (when non-empty), any other name from its truthy configuration entry, and leaves an unknown name as written |
| `TemplatePopulator.PopulateKnownExample` | utils.js:125-128 | `x={FOO}` with `FOO = "bar"` gives `x=bar` |
| `TemplatePopulator.PopulateMissingExample` | utils.js:125-128 | `x={MISSING}` with no entry is unchanged |
| `BucketExtractor.FirstBuckets` | utils.js:86-89 | the buckets are present iff `aggs` exists, has a first entry, and that entry has `field_aggregation.buckets`; they are then exactly that array |
| `BucketExtractor.BucketKeys` | utils.js:90 | same length as the buckets, and key i is bucket i's key |
| `BucketExtractor.ExtractBucketKeys` | utils.js:85-91 | `[]` when the path is missing; otherwise the bucket keys, with the same length and order |
| `BucketExtractor.ExtractBucketKeysEmpty` | utils.js:86-89 | absent `aggs`, `aggs` with no keys, and a first entry without `field_aggregation.buckets` each give `[]` |
| `BucketExtractor.ExtractBucketKeysExamples` | utils.js:85-91 | `{}` gives `[]`, `{aggs:{}}` gives `[]`, and two buckets give `["k1","k2"]` |
| `ExemptionFilter.NonExempt` | workflows.js:33-36 | never longer than the input; x is kept iff x is in the input and in no subnet |
| `ExemptionFilter.NonExemptIsSubsequence` | workflows.js:33-36 | the survivors are a subsequence of the input |
| `ExemptionFilter.FilterPartition` | workflows.js:33-38 | kept + removed = input length, so the removed count `\|values\| - \|kept\|` is never negative; a value is removed iff it is in some subnet |
| `ExemptionFilter.FirstInvalidSubnet` | workflows.js:32 | none iff every subnet parses; otherwise the first subnet `new Address4` rejects |
| `ExemptionFilter.FilterExemptValues` | workflows.js:23-41 | input unchanged if some value is not an IPv4 address, or if subnets are absent or empty; otherwise fails iff a subnet does not parse, reporting the first such subnet, and the result is exactly the values in no subnet, in order, duplicates included |
| `ExemptionFilter.FilterKeepsOrder` | workflows.js:23-41 | every successful result is a subsequence of the input and no longer than it |
| `ExemptionFilter.FilterExamples` | workflows.js:23-41 | host names pass through untouched; `["10.0.0.5","8.8.8.8"]` against `10.0.0.0/8` gives `["8.8.8.8"]` |
| `DrillDown.DrilldownLimit` | workflows.js:67 | `MAX_DRILLDOWN_VALUES \|\| 10`: a configured non-zero value is the limit; absent or 0 gives 10 |
| `Strings.SliceTo` | workflows.js:70 | `slice(0, end)`: the first `min(end, n)` elements for `end >= 0`, and a negative `end` counts back from the end |
| `DrillDown.Truncate` | workflows.js:68-71 | the result is always a prefix of the values; for a positive limit its length is `min(n, limit)`; a negative limit keeps the first `max(n + limit, 0)` values, as `slice` does |
| `DrillDown.DefaultLimitKeepsTopTen` | workflows.js:67-71 | with no limit, or a limit of 0, the first `min(n, 10)` survivors are kept |
| `DrillDown.TruncationExample` | workflows.js:67-71 | 15 survivors with a limit of 10 give the first 10 |
| `DrillDown.PerformDrillDown` | workflows.js:59-85 | a subnet error aborts the run; the run stops with nothing to drill into iff no value survives; with survivors, a template that parses and a body that builds it reaches step 2 and drills into the capped survivors, uses the template after substitution and then `DRILLDOWN_VALUES` injection, and sends `BuiltBody` of the parsed template, or aborts on a parse or build error; it is a count query iff the second template's own `aggs` has keys |
| `DrillDown.IsCountQuery` | workflows.js:83 | a count query has a truthy `aggs`; for an object `aggs` it is a count query iff the object has a key |
| `DrillDown.BuildKeepsAggs` | workflows.js:80-83 | building does not change the count-versus-events decision |
| `DrillDown.DrilledValuesFollowStep1` | workflows.js:59-71 | the values drilled into are a subsequence of step 1's bucket keys |
| `DrillDown.InjectedValuesOperator` | workflows.js:77 | two or more injected values read as `=~` on the joined text; a single value without `\|` reads as `=` (when the first value does not start with `!` or `=`) |
| `DrillDown.PopulateKeepsDrilldownToken` | workflows.js:76 | general substitution leaves `"{DRILLDOWN_VALUES}"` as written, and carries on after it, unless the context has a truthy `DRILLDOWN_VALUES` |
| `DrillDown.PopulateAroundToken` | workflows.js:76 | when the context has no truthy `DRILLDOWN_VALUES`, the quoted placeholder survives population in place after any text and splits the population in two |
| `DrillDown.InjectValuesFirst` | workflows.js:77 | the first quoted placeholder becomes `"` + values joined with `\|` + `"`, and injection continues after it |
| `DrillDown.QuotedPlaceholderReceivesValues` | workflows.js:76-77 | when the context has no truthy `DRILLDOWN_VALUES`, a quoted placeholder anywhere in the second template (with no earlier occurrence after population) becomes `"` + values joined with `\|` + `"`, the text before it populated as usual and the text after it processed the same way |
| `Strings.JoinContainsSeparator` | workflows.js:77 | `\|` occurs in the joined values iff there are at least two of them or one of them contains `\|` |
| `Strings.ReplaceAllAbsent` | workflows.js:77 | a populated template without the quoted placeholder is not changed by the injection |
| `Strings.ReplaceAllSkips` | workflows.js:77 | the global replace copies the text before the first occurrence as it is |
| `Strings.ReplaceAllFirstOccurrence` | workflows.js:77 | the first occurrence becomes the replacement and the scan resumes right after it |
| `DrillDown.SplitIsTotal` | workflows.js:109-124 | unmitigated + mitigated = the total of all bucket counts |
| `DrillDown.PrintCountSummary` | workflows.js:99-129 | the total is `total_hits \|\| 0`; there is no breakdown iff the bucket path is missing; the rows are the buckets' (key, count) in order; unmitigated is the sum over `allow`/`report`, mitigated is the sum over all other keys, and the two add up to the total |
| `DrillDown.CountSplitExample` | workflows.js:111-124 | `allow` 5, `block` 3 and `report` 2 give 7 unmitigated and 3 mitigated |

## Left out

- `loadConfig` (utils.js:7-37): reading and cleaning the config file, and building URLs and the CSRF parameter. This is configuration plumbing. The model takes a `Config` value.
- `getRequestHeaders` (utils.js:53-76): authentication headers are outside the logic.
- `logDebug`, `printUsage` and every `console.log`: output only. The "Filtered out N" count is stated as `FilterPartition`.
- `readQueryTemplate` (utils.js:130-136) and `prepareRequestBody` (utils.js:78-83): file I/O and JSON parsing. Templates are strings, and `JSON.parse` is the `parse` parameter.
- `getTimeWindow` (utils.js:138-164): it depends on the clock and date-fns. The window is two opaque strings.
- `performSingleQuery` and all `axios.post` calls: network I/O. Step 1's response is an input, and step 2's request is the returned `Step2`. The events response is only printed, so it is not modelled.
- The `ip-address` library: its source is not available. `Ipv4Library` is a parameter of every member that needs it.
- run_query.js is not part of this model. It only splits arguments, calls the workflows, prints errors and exits.
- The `fieldToExtract` argument of `extractBucketKeys`: it is unused.
- Object key order: `Fields` is in JavaScript's enumeration order. For a parsed object that order puts integer-like keys first, and the model does not reorder them.
- Duplicate keys: `JSON.parse` keeps the last one. A `Fields` value is taken as already deduplicated.
- Inherited properties: `replacements[key]` also finds `Object.prototype` members such as `constructor` or `toString`, which are truthy functions. A `{constructor}` token would be replaced by function source text. The model's context holds only the configuration and the time window.
- `$` patterns in the replacement string at workflows.js:77: JavaScript expands `$&`, `` $` ``, `$'` and `$$` in the joined values. `InjectValues` inserts the values literally, so they differ only for a value containing `$`.
- `parseInt` on bucket counts: counts are `nat`. A missing or non-numeric count (NaN in the source) is not modelled.
- JSON numbers are integers. JavaScript numbers are doubles and floating point is not modelled, so neither float config values nor float counts are. `String()` also differs from `Json.Text` on large integers: it rounds one beyond 2^53 to the nearest double, and writes one of 1e21 or more with an exponent (`1e+21`), where `Json.Text` writes every digit.
- `EXEMPT_SUBNETS` and `MAX_DRILLDOWN_VALUES` are read as an optional list of strings and an optional integer. Other JSON shapes for them are not modelled.
- Config: `exemptSubnets` and `maxDrilldownValues` are independent typed inputs beside `entries`. The model does not derive them from `entries["EXEMPT_SUBNETS"]` and `entries["MAX_DRILLDOWN_VALUES"]`, so it does not tie what population sees under those names to what the filter and the limit use.
- `total_hits` is an optional `nat`, although the source prints whatever value it finds.
- The aggregation response's `aggs` is modelled as an object and a bucket `key` as a string. Other shapes are not modelled.
- A parsed template that is not a JSON object, where the spread would copy array indices or string characters, is not modelled.
- Strings are sequences of `char`. UTF-16 surrogate pairs are not modelled. The regular expression has no `u` flag, so `\w` is exactly `[A-Za-z0-9_]`, which is what `IsWordChar` states.
- QuotedPlaceholderReceivesValues: stated for a configuration without a truthy `DRILLDOWN_VALUES` (population replaces the token's inner `{DRILLDOWN_VALUES}` with such an entry, so no values go there) and for the first occurrence after population (text before it whose population produces the placeholder is also filled by the global replace).
