/** The template populator (`populateTemplate`): every `{word}` token of a
    raw template is replaced by the matching entry of the substitution
    context (the configuration plus the time window), scanning left to
    right as the global regular expression `/{(\w+)}/g` does. A token whose
    entry is missing or falsy stays as written. */
module TemplatePopulator {
  import opened Wrappers
  import opened Strings
  import opened Json

  /** A character of the class `\w`. */
  predicate IsWordChar(c: char)
  {
    ('A' <= c <= 'Z') || ('a' <= c <= 'z') || ('0' <= c <= '9') || c == '_'
  }

  /** A placeholder name: one or more word characters. */
  predicate IsWord(w: string)
  {
    |w| > 0 && forall i :: 0 <= i < |w| ==> IsWordChar(w[i])
  }

  /** The length of the longest run of word characters that starts `s`. */
  function WordRun(s: string): (n: nat)
    ensures n <= |s|
    ensures forall i :: 0 <= i < n ==> IsWordChar(s[i])
    ensures n < |s| ==> !IsWordChar(s[n])
  {
    if |s| == 0 || !IsWordChar(s[0]) then 0 else 1 + WordRun(s[1..])
  }

  /** A template read as the regular expression reads it: characters that
      are not part of a match, and matched `{name}` tokens. */
  datatype Piece = Literal(c: char) | Placeholder(name: string)

  /** The text a piece was read from. */
  function RawText(p: Piece): string
  {
    match p
    case Literal(c) => [c]
    case Placeholder(w) => "{" + w + "}"
  }

  /** The text a sequence of pieces was read from. */
  function Raw(ps: seq<Piece>): string
  {
    if |ps| == 0 then "" else RawText(ps[0]) + Raw(ps[1..])
  }

  lemma RawCons(p: Piece, ps: seq<Piece>)
    ensures Raw([p] + ps) == RawText(p) + Raw(ps)
  {
    assert ([p] + ps)[1..] == ps;
  }

  /** One step of the left-to-right scan: a `{` followed by a run of word
      characters and a `}` is a token; any other character is kept and the
      scan moves on by one. Returns the piece read and its length. */
  function Scan(s: string): (r: (Piece, nat))
    requires |s| > 0
    ensures 0 < r.1 <= |s| && RawText(r.0) == s[..r.1]
    ensures r.0.Placeholder? ==> IsWord(r.0.name)
    ensures r.0.Literal? <==> r.1 == 1
  {
    var n := WordRun(s[1..]);
    if s[0] == '{' && n > 0 && n + 1 < |s| && s[n + 1] == '}' then
      assert s[..n + 2] == "{" + s[1..n + 1] + "}";
      (Placeholder(s[1..n + 1]), n + 2)
    else
      (Literal(s[0]), 1)
  }

  /** The template read piece by piece, as `/{(\w+)}/g` scans it. */
  function Tokenize(s: string): (r: seq<Piece>)
    ensures forall i :: 0 <= i < |r| && r[i].Placeholder? ==> IsWord(r[i].name)
    decreases |s|
  {
    if |s| == 0 then []
    else
      var (p, k) := Scan(s);
      [p] + Tokenize(s[k..])
  }

  /** The scan loses nothing: the pieces spell out the template. */
  lemma {:induction false} TokenizeLossless(s: string)
    ensures Raw(Tokenize(s)) == s
    decreases |s|
  {
    if |s| > 0 {
      var k := Scan(s).1;
      RawOfTokenize(s);
      TokenizeLossless(s[k..]);
      SplitAt(s, k);
    }
  }

  lemma SplitAt(s: string, k: nat)
    requires k <= |s|
    ensures s[..k] + s[k..] == s
  {
  }

  lemma RawOfTokenize(s: string)
    requires |s| > 0
    ensures Raw(Tokenize(s)) == RawText(Scan(s).0) + Raw(Tokenize(s[Scan(s).1..]))
  {
    TokenizeUnfold(s);
    RawCons(Scan(s).0, Tokenize(s[Scan(s).1..]));
  }

  /** `replacements[key] || match` finds a value to splice in. */
  predicate Resolves(ctx: map<string, Json>, w: string)
  {
    w in ctx && Truthy(ctx[w])
  }

  /** The text that stands for one piece in the populated template. */
  function PieceText(p: Piece, ctx: map<string, Json>): string
  {
    if p.Placeholder? && Resolves(ctx, p.name) then Text(ctx[p.name]) else RawText(p)
  }

  function Substitute(ps: seq<Piece>, ctx: map<string, Json>): string
  {
    if |ps| == 0 then "" else PieceText(ps[0], ctx) + Substitute(ps[1..], ctx)
  }

  /** The template with every resolvable token replaced. */
  function Populate(template: string, ctx: map<string, Json>): string
  {
    Substitute(Tokenize(template), ctx)
  }

  /** The time window of a run, as two opaque timestamps. */
  datatype TimeWindow = TimeWindow(startTime: string, endTime: string)

  /** `{ ...config, START_TIME: startTime, END_TIME: endTime }`: the time
      window overrides configuration entries of the same names. */
  function Replacements(config: map<string, Json>, window: TimeWindow): (r: map<string, Json>)
    ensures r.Keys == config.Keys + {"START_TIME", "END_TIME"}
    ensures r["START_TIME"] == JStr(window.startTime) && r["END_TIME"] == JStr(window.endTime)
    ensures forall k :: k in config && k != "START_TIME" && k != "END_TIME" ==> r[k] == config[k]
  {
    config["START_TIME" := JStr(window.startTime)]["END_TIME" := JStr(window.endTime)]
  }

  /** `populateTemplate(template, window, config)`. */
  function PopulateTemplate(template: string, window: TimeWindow, config: map<string, Json>): string
  {
    Populate(template, Replacements(config, window))
  }

  lemma {:induction false} SubstituteUnresolved(ps: seq<Piece>, ctx: map<string, Json>)
    requires forall i :: 0 <= i < |ps| && ps[i].Placeholder? ==> !Resolves(ctx, ps[i].name)
    ensures Substitute(ps, ctx) == Raw(ps)
  {
    if |ps| > 0 {
      SubstituteUnresolved(ps[1..], ctx);
    }
  }

  /** A template none of whose tokens resolves comes back unchanged. */
  lemma PopulateUnresolved(template: string, ctx: map<string, Json>)
    requires forall i :: 0 <= i < |Tokenize(template)| && Tokenize(template)[i].Placeholder? ==>
      !Resolves(ctx, Tokenize(template)[i].name)
    ensures Populate(template, ctx) == template
  {
    SubstituteUnresolved(Tokenize(template), ctx);
    TokenizeLossless(template);
  }

  lemma {:induction false} WordRunStops(w: string, c: char, rest: string)
    requires forall i :: 0 <= i < |w| ==> IsWordChar(w[i])
    requires !IsWordChar(c)
    ensures WordRun(w + [c] + rest) == |w|
  {
    if |w| > 0 {
      assert (w + [c] + rest)[1..] == w[1..] + [c] + rest;
      WordRunStops(w[1..], c, rest);
    }
  }

  /** A `{word}` token at the start becomes its value when that resolves and
      stays as written otherwise; the value spliced in is not scanned again,
      and the scan carries on right after the token. */
  lemma PopulatePlaceholder(w: string, rest: string, ctx: map<string, Json>)
    requires IsWord(w)
    ensures Populate("{" + w + "}" + rest, ctx) ==
      (if Resolves(ctx, w) then Text(ctx[w]) else "{" + w + "}") + Populate(rest, ctx)
  {
    var s := "{" + w + "}" + rest;
    assert s[1..] == w + "}" + rest;
    WordRunStops(w, '}', rest);
    assert s[1..|w| + 1] == w;
    assert s[|w| + 2..] == rest;
    assert Scan(s) == (Placeholder(w), |w| + 2);
    assert Tokenize(s) == [Placeholder(w)] + Tokenize(rest);
  }

  /** `s` starts with a token name followed by `}`: a `{` in front of it
      opens a token. */
  predicate StartsWithWordAndBrace(s: string)
  {
    exists n :: 0 < n < |s| && s[n] == '}' && IsWord(s[..n])
  }

  /** A character that does not open a token, including a `{` that is not
      followed by a name and `}`, is copied as it is. */
  lemma PopulateLiteral(c: char, rest: string, ctx: map<string, Json>)
    requires c != '{' || !StartsWithWordAndBrace(rest)
    ensures Populate([c] + rest, ctx) == [c] + Populate(rest, ctx)
  {
    var s := [c] + rest;
    assert s[1..] == rest;
    var n := WordRun(rest);
    if c == '{' && 0 < n < |rest| {
      assert IsWord(rest[..n]) ==> rest[n] != '}';
    }
    assert Scan(s) == (Literal(c), 1);
  }

  /** The text ends where no token can be open: it is empty, or its last
      character is neither `{` nor a word character. */
  predicate EndsOutsideToken(a: string)
  {
    |a| == 0 || (!IsWordChar(a[|a| - 1]) && a[|a| - 1] != '{')
  }

  lemma {:induction false} WordRunPrefix(u: string, y: string)
    requires |u| > 0 && !IsWordChar(u[|u| - 1])
    ensures WordRun(u + y) == WordRun(u)
  {
    if IsWordChar(u[0]) {
      assert (u + y)[1..] == u[1..] + y;
      WordRunPrefix(u[1..], y);
    }
  }

  /** The text starts with a character that can neither continue a name
      nor close a token. */
  predicate StartsOutsideToken(y: string)
  {
    |y| > 0 && !IsWordChar(y[0]) && y[0] != '}'
  }

  lemma {:induction false} WordRunSuffix(u: string, y: string)
    requires |y| > 0 && !IsWordChar(y[0])
    ensures WordRun(u + y) == WordRun(u)
  {
    if |u| == 0 {
      assert u + y == y;
    } else if IsWordChar(u[0]) {
      assert (u + y)[1..] == u[1..] + y;
      WordRunSuffix(u[1..], y);
    }
  }

  lemma ScanPrefix(a: string, y: string)
    requires |a| > 0 && (EndsOutsideToken(a) || StartsOutsideToken(y))
    ensures Scan(a + y) == Scan(a)
  {
    if a[0] == '{' {
      var u := a[1..];
      assert (a + y)[1..] == u + y;
      if EndsOutsideToken(a) {
        WordRunPrefix(u, y);
        assert WordRun(u) < |u|;
      } else {
        WordRunSuffix(u, y);
      }
      var n := WordRun(u);
      if n < |u| {
        assert (a + y)[1..n + 1] == a[1..n + 1];
      }
    }
  }

  /** A text that ends outside any token, or is followed by a character
      that no token can continue with, is scanned on its own: what follows
      it cannot change how it is read. */
  lemma {:induction false} TokenizeSplit(a: string, y: string)
    requires EndsOutsideToken(a) || StartsOutsideToken(y)
    ensures Tokenize(a + y) == Tokenize(a) + Tokenize(y)
    decreases |a|
  {
    if |a| == 0 {
      assert a + y == y;
    } else {
      ScanPrefix(a, y);
      var k := Scan(a).1;
      var tail := a[k..];
      assert (a + y)[k..] == tail + y;
      assert EndsOutsideToken(tail) || StartsOutsideToken(y) by {
        assert |tail| > 0 ==> tail[|tail| - 1] == a[|a| - 1];
      }
      TokenizeSplit(tail, y);
      TokenizeUnfold(a);
      TokenizeUnfold(a + y);
      assert Tokenize(a + y) == [Scan(a).0] + (Tokenize(tail) + Tokenize(y));
      ConsAppend(Scan(a).0, Tokenize(tail), Tokenize(y));
    }
  }

  lemma ConsAppend<T>(x: T, b: seq<T>, c: seq<T>)
    ensures [x] + (b + c) == ([x] + b) + c
  {
  }

  lemma TokenizeUnfold(s: string)
    requires |s| > 0
    ensures Tokenize(s) == [Scan(s).0] + Tokenize(s[Scan(s).1..])
  {
  }

  lemma {:induction false} SubstituteAppend(xs: seq<Piece>, ys: seq<Piece>, ctx: map<string, Json>)
    ensures Substitute(xs + ys, ctx) == Substitute(xs, ctx) + Substitute(ys, ctx)
  {
    if |xs| > 0 {
      assert (xs + ys)[1..] == xs[1..] + ys;
      SubstituteAppend(xs[1..], ys, ctx);
    } else {
      assert xs + ys == ys;
    }
  }

  /** Population distributes over a split that falls outside every token. */
  lemma PopulateSplit(a: string, y: string, ctx: map<string, Json>)
    requires EndsOutsideToken(a) || StartsOutsideToken(y)
    ensures Populate(a + y, ctx) == Populate(a, ctx) + Populate(y, ctx)
  {
    TokenizeSplit(a, y);
    SubstituteAppend(Tokenize(a), Tokenize(y), ctx);
  }

  /** What `populateTemplate` makes of a leading token: the time window
      fills `START_TIME` and `END_TIME`, any other name takes its
      configuration entry when that is truthy, and an unknown name stays as
      written. */
  lemma PopulateTemplateToken(w: string, rest: string, window: TimeWindow, config: map<string, Json>)
    requires IsWord(w)
    ensures w == "START_TIME" && window.startTime != "" ==>
      PopulateTemplate("{" + w + "}" + rest, window, config) == window.startTime + PopulateTemplate(rest, window, config)
    ensures w == "END_TIME" && window.endTime != "" ==>
      PopulateTemplate("{" + w + "}" + rest, window, config) == window.endTime + PopulateTemplate(rest, window, config)
    ensures w != "START_TIME" && w != "END_TIME" && w in config && Truthy(config[w]) ==>
      PopulateTemplate("{" + w + "}" + rest, window, config) == Text(config[w]) + PopulateTemplate(rest, window, config)
    ensures w != "START_TIME" && w != "END_TIME" && w !in config ==>
      PopulateTemplate("{" + w + "}" + rest, window, config) == "{" + w + "}" + PopulateTemplate(rest, window, config)
  {
    PopulatePlaceholder(w, rest, Replacements(config, window));
  }

  /** Substitution example: a known entry is spliced in. */
  lemma PopulateKnownExample()
    ensures Populate("x={FOO}", map["FOO" := JStr("bar")]) == "x=bar"
  {
    var ctx := map["FOO" := JStr("bar")];
    assert IsWord("FOO");
    PopulateKnown('x', '=', "FOO", "bar", ctx);
    assert "x={FOO}" == ['x', '='] + ("{" + "FOO" + "}");
    assert ['x', '='] + "bar" == "x=bar";
  }

  /** Two plain characters and then a token with a non-empty string entry. */
  lemma PopulateKnown(c1: char, c2: char, w: string, v: string, ctx: map<string, Json>)
    requires c1 != '{' && c2 != '{' && IsWord(w)
    requires w in ctx && ctx[w] == JStr(v) && v != ""
    ensures Populate([c1, c2] + ("{" + w + "}"), ctx) == [c1, c2] + v
  {
    var tok := "{" + w + "}";
    assert tok == "{" + w + "}" + "";
    PopulatePlaceholder(w, "", ctx);
    assert Populate("", ctx) == "";
    assert Populate(tok, ctx) == v;
    PopulateLiteral(c2, tok, ctx);
    PopulateLiteral(c1, [c2] + tok, ctx);
    TwoChars(c1, c2, tok);
    TwoChars(c1, c2, v);
  }

  lemma TwoChars(c1: char, c2: char, t: string)
    ensures [c1] + ([c2] + t) == [c1, c2] + t
  {
  }

  /** An unknown entry is left as written. */
  lemma PopulateMissingExample()
    ensures Populate("x={MISSING}", map[]) == "x={MISSING}"
  {
    PopulateUnresolved("x={MISSING}", map[]);
  }
}
