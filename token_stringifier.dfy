/**
 * TokenStringifier: joins a token sequence into one string with two formatters, one for
 * the delimiter before every token but the first and one for the tokens themselves. The
 * result is computed on the first request after a `Reset` and cached from then on.
 */
module TokenStringifier {
  import opened Wrappers
  import opened TokenFormatterFactory

  /** What one formatter result adds to the output: nothing for `None`. */
  function Emitted(o: Option<string>): string {
    if o.Some? then o.value else ""
  }

  /**
   * The output for the first `n` tokens, or the first exception. Token `i` adds the
   * delimiter formatter's result (for `i > 0`) and then the token formatter's result; both
   * are called with no prior token and with `i` as the index.
   */
  function JoinPrefix(delimiterFormatter: FormatterState, tokenFormatter: FormatterState, tokens: seq<string>, n: nat)
    : Result<string, FormatterError>
    requires n <= |tokens|
  {
    if n == 0 then Success("")
    else
      match JoinPrefix(delimiterFormatter, tokenFormatter, tokens, n - 1)
      case Failure(e) => Failure(e)
      case Success(acc) =>
        var i := n - 1;
        var delimiter := if i > 0 then Apply(delimiterFormatter, None, i, tokens[i]) else Success(None);
        match delimiter
        case Failure(e) => Failure(e)
        case Success(d) =>
          match Apply(tokenFormatter, None, i, tokens[i])
          case Failure(e) => Failure(e)
          case Success(f) => Success(acc + Emitted(d) + Emitted(f))
  }

  /** What `stringify` builds from `tokens`, or the exception it throws. */
  function Join(delimiterFormatter: FormatterState, tokenFormatter: FormatterState, tokens: seq<string>)
    : Result<string, FormatterError>
  {
    JoinPrefix(delimiterFormatter, tokenFormatter, tokens, |tokens|)
  }

  /** One more token: what `JoinPrefix` does with the two formatter results for token `i`. */
  lemma JoinPrefixStep(d: FormatterState, f: FormatterState, tokens: seq<string>, i: nat, acc: string,
                       delimiter: FormatResult, formatted: FormatResult)
    requires i < |tokens| && JoinPrefix(d, f, tokens, i) == Success(acc)
    requires delimiter == if i > 0 then Apply(d, None, i, tokens[i]) else Success(None)
    requires formatted == Apply(f, None, i, tokens[i])
    ensures delimiter.Failure? ==> JoinPrefix(d, f, tokens, i + 1) == Failure(delimiter.error)
    ensures delimiter.Success? && formatted.Failure? ==> JoinPrefix(d, f, tokens, i + 1) == Failure(formatted.error)
    ensures delimiter.Success? && formatted.Success? ==>
              JoinPrefix(d, f, tokens, i + 1) == Success(acc + Emitted(delimiter.value) + Emitted(formatted.value))
  {
  }

  lemma {:induction false} JoinPrefixSticky(d: FormatterState, f: FormatterState, tokens: seq<string>, n: nat, m: nat)
    requires n <= m <= |tokens| && JoinPrefix(d, f, tokens, n).Failure?
    ensures JoinPrefix(d, f, tokens, m) == JoinPrefix(d, f, tokens, n)
    decreases m
  {
    if m > n {
      JoinPrefixSticky(d, f, tokens, n, m - 1);
    }
  }

  class TokenStringifier {
    var delimiterFormatter: TokenFormatter
    var tokenFormatter: TokenFormatter
    /** The tokens of the last `Reset`; `None` before the first one. */
    var tokens: Option<seq<string>>
    /** The cached result; `None` when it is still to be computed. */
    var cachedString: Option<string>

    ghost predicate Valid()
      reads this
    {
      cachedString.Some? ==> tokens.Some?
    }

    constructor (delimiterFormatter: TokenFormatter, tokenFormatter: TokenFormatter)
      ensures Valid()
      ensures this.delimiterFormatter == delimiterFormatter && this.tokenFormatter == tokenFormatter
      ensures tokens == None && cachedString == None
    {
      this.delimiterFormatter := delimiterFormatter;
      this.tokenFormatter := tokenFormatter;
      tokens := None;
      cachedString := None;
    }

    /** The default stringifier: no-op formatters for both the delimiter and the tokens. */
    constructor Default()
      ensures Valid()
      ensures delimiterFormatter == NoOpFormatter() && tokenFormatter == NoOpFormatter()
      ensures tokens == None && cachedString == None
    {
      tokenFormatter := NoOpFormatter();
      delimiterFormatter := NoOpFormatter();
      tokens := None;
      cachedString := None;
    }

    /** `reset`: installs the tokens and drops the cached result; the formatters stay. */
    method Reset(tokens: seq<string>)
      modifies this
      ensures Valid()
      ensures this.tokens == Some(tokens) && cachedString == None
      ensures delimiterFormatter == old(delimiterFormatter) && tokenFormatter == old(tokenFormatter)
    {
      this.tokens := Some(tokens);
      cachedString := None;
    }

    /**
     * `stringify`: one pass over the tokens appending to a builder; the result is cached
     * only when no formatter throws.
     */
    method Stringify() returns (r: Result<string, FormatterError>)
      requires tokens.Some?
      modifies this`cachedString
      ensures r == Join(State(delimiterFormatter), State(tokenFormatter), tokens.value)
      ensures cachedString == if r.Success? then Some(r.value) else old(cachedString)
    {
      var ts, delimiterFormatter, tokenFormatter := tokens.value, this.delimiterFormatter, this.tokenFormatter;
      ghost var delimiterState, tokenState := State(delimiterFormatter), State(tokenFormatter);
      var builder := "";
      var priorToken: Option<string> := None;
      var i := 0;
      while i < |ts|
        invariant 0 <= i <= |ts|
        invariant State(delimiterFormatter) == delimiterState && State(tokenFormatter) == tokenState
        invariant cachedString == old(cachedString)
        invariant JoinPrefix(delimiterState, tokenState, ts, i) == Success(builder)
      {
        var tokenChars := ts[i];
        ghost var done := builder;
        var delimiter: FormatResult := Success(None);
        if i > 0 {
          delimiter := Invoke(delimiterFormatter, priorToken, i, tokenChars);
          if delimiter.Failure? {
            JoinPrefixStep(delimiterState, tokenState, ts, i, done, delimiter, Apply(tokenState, None, i, tokenChars));
            JoinPrefixSticky(delimiterState, tokenState, ts, i + 1, |ts|);
            return Failure(delimiter.error);
          }
          if delimiter.value.Some? {
            builder := builder + delimiter.value.value;
          }
        }
        ghost var mid := builder;
        assert mid == done + Emitted(delimiter.value);
        var formatted := Invoke(tokenFormatter, priorToken, i, tokenChars);
        JoinPrefixStep(delimiterState, tokenState, ts, i, done, delimiter, formatted);
        if formatted.Failure? {
          JoinPrefixSticky(delimiterState, tokenState, ts, i + 1, |ts|);
          return Failure(formatted.error);
        }
        if formatted.value.Some? {
          builder := builder + formatted.value.value;
        }
        assert builder == mid + Emitted(formatted.value);
        i := i + 1;
      }
      cachedString := Some(builder);
      return Success(builder);
    }

    /**
     * `getString`: the cached result when there is one, without calling any formatter;
     * otherwise the result of `Stringify`.
     */
    method GetString() returns (r: Result<string, FormatterError>)
      requires tokens.Some?
      modifies this`cachedString
      ensures old(cachedString).Some? ==> r == Success(old(cachedString).value) && cachedString == old(cachedString)
      ensures old(cachedString).None? ==> r == Join(State(delimiterFormatter), State(tokenFormatter), tokens.value)
      ensures old(cachedString).None? ==> cachedString == if r.Success? then Some(r.value) else None
    {
      if cachedString.None? {
        r := Stringify();
      } else {
        r := Success(cachedString.value);
      }
    }
  }

  // ---------------------------------------------------------------------------------------
  // Properties of the join

  /** Two formatter results that add the same to the output, or throw the same. */
  predicate SameEffect(r1: FormatResult, r2: FormatResult) {
    if r1.Failure? then r1 == r2 else r2.Success? && Emitted(r1.value) == Emitted(r2.value)
  }

  /**
   * The output depends only on what each formatter does when called with no prior token
   * and the token's own position as index, and only on what each result adds: `None` and
   * the empty string are interchangeable.
   */
  lemma {:induction false} JoinDeterminedByCalls(d1: FormatterState, f1: FormatterState, d2: FormatterState, f2: FormatterState,
                                                 tokens: seq<string>, n: nat)
    requires n <= |tokens|
    requires forall i :: 1 <= i < n ==> SameEffect(Apply(d1, None, i, tokens[i]), Apply(d2, None, i, tokens[i]))
    requires forall i :: 0 <= i < n ==> SameEffect(Apply(f1, None, i, tokens[i]), Apply(f2, None, i, tokens[i]))
    ensures JoinPrefix(d1, f1, tokens, n) == JoinPrefix(d2, f2, tokens, n)
    decreases n
  {
    if n > 0 {
      JoinDeterminedByCalls(d1, f1, d2, f2, tokens, n - 1);
      var i := n - 1;
      assert SameEffect(Apply(f1, None, i, tokens[i]), Apply(f2, None, i, tokens[i]));
      if i > 0 {
        assert SameEffect(Apply(d1, None, i, tokens[i]), Apply(d2, None, i, tokens[i]));
      }
    }
  }

  /** A formatter that always returns `null`. */
  function NullFormat(prior: Option<string>, tokenIndex: int, token: string): FormatResult {
    Success(None)
  }

  /** A formatter that returns the prior token it is given. */
  function PriorFormat(prior: Option<string>, tokenIndex: int, token: string): FormatResult {
    Success(prior)
  }

  /**
   * The prior token handed to the formatters is always `null`: formatters that return the
   * prior token they are given contribute nothing, whatever the tokens.
   */
  lemma {:induction false} PriorTokenAlwaysNull(tokens: seq<string>, n: nat)
    requires n <= |tokens|
    ensures JoinPrefix(CustomState(PriorFormat), CustomState(PriorFormat), tokens, n) == Success("")
    decreases n
  {
    if n > 0 {
      PriorTokenAlwaysNull(tokens, n - 1);
      assert "" + Emitted(None) + Emitted(None) == "";
    }
  }

  /** The output with no delimiter at all: the token formatter's results, concatenated. */
  function TokensOnly(tokenFormatter: FormatterState, tokens: seq<string>, n: nat): Result<string, FormatterError>
    requires n <= |tokens|
  {
    if n == 0 then Success("")
    else
      match TokensOnly(tokenFormatter, tokens, n - 1)
      case Failure(e) => Failure(e)
      case Success(acc) =>
        match Apply(tokenFormatter, None, n - 1, tokens[n - 1])
        case Failure(e) => Failure(e)
        case Success(f) => Success(acc + Emitted(f))
  }

  /** A delimiter formatter that always returns `null` is the same as having no delimiter. */
  lemma {:induction false} NullDelimiterOmitsDelimiters(tokenFormatter: FormatterState, tokens: seq<string>, n: nat)
    requires n <= |tokens|
    ensures JoinPrefix(CustomState(NullFormat), tokenFormatter, tokens, n) == TokensOnly(tokenFormatter, tokens, n)
    decreases n
  {
    if n > 0 {
      NullDelimiterOmitsDelimiters(tokenFormatter, tokens, n - 1);
      var i := n - 1;
      if i > 0 {
        assert Apply(CustomState(NullFormat), None, i, tokens[i]) == Success(None);
      }
      var prefix := JoinPrefix(CustomState(NullFormat), tokenFormatter, tokens, i);
      var call := Apply(tokenFormatter, None, i, tokens[i]);
      if prefix.Success? && call.Success? {
        assert prefix.value + Emitted(None) == prefix.value;
      }
    }
  }

  /**
   * A delimiter formatter that always returns `null` gives the same output as one that
   * always returns the empty string, such as the formatter of `emptyFormatter()`.
   */
  lemma NullDelimiterSameAsEmpty(fail: bool, tokenFormatter: FormatterState, tokens: seq<string>)
    ensures Join(CustomState(NullFormat), tokenFormatter, tokens) == Join(ConstantState([], fail), tokenFormatter, tokens)
  {
    forall i | 1 <= i < |tokens|
      ensures SameEffect(Apply(CustomState(NullFormat), None, i, tokens[i]), Apply(ConstantState([], fail), None, i, tokens[i]))
    {
      EmptyFormatterAlwaysEmpty(fail, None, i, tokens[i]);
    }
    JoinDeterminedByCalls(CustomState(NullFormat), tokenFormatter, ConstantState([], fail), tokenFormatter, tokens, |tokens|);
  }

  /** The concatenation of a sequence of strings. */
  function Concat(ss: seq<string>): string
    decreases |ss|
  {
    if ss == [] then "" else Concat(ss[..|ss| - 1]) + ss[|ss| - 1]
  }

  /** What the default stringifier emits for token `i`: the token, preceded by itself as delimiter if `i > 0`. */
  function Echoed(tokens: seq<string>, i: nat): string
    requires i < |tokens|
  {
    if i == 0 then tokens[0] else tokens[i] + tokens[i]
  }

  /**
   * With the default (no-op) formatters the delimiter before each token after the first is
   * the token itself, so every later token appears twice.
   */
  lemma {:induction false} DefaultJoinDuplicates(tokens: seq<string>, n: nat)
    requires n <= |tokens|
    ensures JoinPrefix(NoOpState, NoOpState, tokens, n) == Success(Concat(seq(n, i requires 0 <= i < n => Echoed(tokens, i))))
    decreases n
  {
    if n > 0 {
      DefaultJoinDuplicates(tokens, n - 1);
      var pieces := seq(n, i requires 0 <= i < n => Echoed(tokens, i));
      assert pieces[..n - 1] == seq(n - 1, i requires 0 <= i < n - 1 => Echoed(tokens, i));
      var acc := Concat(pieces[..n - 1]);
      var t := tokens[n - 1];
      if n == 1 {
        assert acc == "";
        assert JoinPrefix(NoOpState, NoOpState, tokens, n) == Success(acc + Emitted(None) + t);
        assert acc + Emitted(None) + t == t;
      } else {
        assert JoinPrefix(NoOpState, NoOpState, tokens, n) == Success(acc + t + t);
        assert acc + t + t == acc + (t + t);
      }
    }
  }

  lemma DefaultJoinExample()
    ensures Join(NoOpState, NoOpState, ["a", "b", "c"]) == Success("abbcc")
  {
    var tokens := ["a", "b", "c"];
    DefaultJoinDuplicates(tokens, 3);
    var pieces := seq(3, i requires 0 <= i < 3 => Echoed(tokens, i));
    assert "b" + "b" == "bb" && "c" + "c" == "cc";
    assert pieces == ["a", "bb", "cc"];
    assert pieces[..2][..1] == ["a"];
    assert Concat(["a"]) == Concat([]) + "a";
    assert "" + "a" == "a";
    assert Concat(pieces) == Concat(pieces[..2]) + "cc";
    assert Concat(pieces[..2]) == Concat(pieces[..2][..1]) + "bb";
    assert "a" + "bb" + "cc" == "abbcc";
  }

  /** A dash delimiter joins `["a", "b-c"]` as `"a-b-c"` when unchecked, and throws at token 1 when checked. */
  lemma DashJoinExample()
    ensures Join(ConstantState("-", false), NoOpState, ["a", "b-c"]) == Success("a-b-c")
    ensures Join(ConstantState("-", true), NoOpState, ["a", "b-c"]) == Failure(ConstantFound(1, "-", 2))
  {
    var tokens := ["a", "b-c"];
    assert JoinPrefix(ConstantState("-", false), NoOpState, tokens, 0) == Success("");
    assert Apply(NoOpState, None, 0, tokens[0]) == Success(Some("a"));
    assert "" + Emitted(None) + Emitted(Some("a")) == "a";
    assert JoinPrefix(ConstantState("-", false), NoOpState, tokens, 1) == Success("a");
    assert JoinPrefix(ConstantState("-", false), NoOpState, tokens, 2) == Success("a" + "-" + "b-c");
    assert "a" + "-" + "b-c" == "a-b-c";
    assert "b-c"[0..1] == "b";
    assert ProbeAt("-", "b-c", 0) == Mismatch;
    assert "b-c"[1..2] == "-";
    assert ProbeAt("-", "b-c", 1) == FullMatch;
    assert ConstantFormat("-", true, 1, "b-c") == Failure(ConstantFound(1, "-", 2));
    assert JoinPrefix(ConstantState("-", true), NoOpState, tokens, 1) == Success("a");
  }

  /**
   * A second `getString` with no `Reset` in between calls no formatter: it returns the
   * cached result even after the delimiter formatter was switched to throw on this input.
   * After a `Reset` the result is computed again, and now the delimiter formatter throws.
   */
  method CachedResultSurvivesFormatterChange() returns (first: Result<string, FormatterError>,
                                                        second: Result<string, FormatterError>,
                                                        third: Result<string, FormatterError>)
    ensures first == Success("a-b-c") && second == first
    ensures third == Failure(ConstantFound(1, "-", 2))
  {
    var dash := new ConstantTokenFormatter.FromStringWithCheck("-", false);
    var stringifier := new TokenStringifier(Constant(dash), NoOp);
    stringifier.Reset(["a", "b-c"]);
    first := stringifier.GetString();
    dash.SetFailOnConstantFound(true);
    second := stringifier.GetString();
    stringifier.Reset(["a", "b-c"]);
    third := stringifier.GetString();
    DashJoinExample();
  }
}
