/**
 * The PascalCase convention ('MyPascalString'): `Parse` splits a string into tokens, each
 * started by an uppercase code point; `Format` re-cases tokens and joins them without a
 * delimiter. Strings are sequences of code points; the case tables are a parameter.
 *
 * Each operation has a specification function written as a left fold, which follows the
 * scan order of the source's loops, and a method with those loops proved equal to it.
 */
module PascalCase {
  import opened Wrappers
  import opened CaseTables

  type Token = seq<CodePoint>

  /** Why a code point was rejected. */
  datatype Reason = MustBeUppercase | CannotMapToUppercase | CannotMapToLowercase

  /**
   * The InvalidInput failures of `Parse` and `Format`. `InvalidCodePoint` carries what the
   * exception message is built from: the code point, its index and the reason.
   */
  datatype CaseError =
    | InvalidCodePoint(codePoint: CodePoint, index: int, reason: Reason)
    | EmptyToken(tokenIndex: int)

  // ---------------------------------------------------------------------------------------
  // Token sequences

  /** The concatenation of the tokens, in order. */
  function Flatten(ts: seq<Token>): seq<CodePoint>
    decreases |ts|
  {
    if ts == [] then [] else Flatten(ts[..|ts| - 1]) + ts[|ts| - 1]
  }

  lemma FlattenSnoc(ts: seq<Token>, t: Token)
    ensures Flatten(ts + [t]) == Flatten(ts) + t
  {
    assert (ts + [t])[..|ts|] == ts;
  }

  /** The number of uppercase code points in `s`. */
  function CountUpper(ct: CaseTable, s: seq<CodePoint>): nat
    decreases |s|
  {
    if s == [] then 0
    else CountUpper(ct, s[..|s| - 1]) + (if ct.isUpperCase(s[|s| - 1]) then 1 else 0)
  }

  /** The shape of every token `Parse` returns. */
  predicate WellFormedToken(ct: CaseTable, t: Token) {
    && |t| > 0
    && ct.isUpperCase(t[0])
    && forall j :: 1 <= j < |t| ==> !ct.isUpperCase(t[j])
  }

  predicate AllWellFormed(ct: CaseTable, ts: seq<Token>) {
    forall k :: 0 <= k < |ts| ==> WellFormedToken(ct, ts[k])
  }

  // ---------------------------------------------------------------------------------------
  // Parse

  /**
   * The token sequence the scan builds for `s`: an uppercase code point starts a new
   * token, any other code point extends the current one (the very first code point starts
   * a token either way).
   */
  function Split(ct: CaseTable, s: seq<CodePoint>): (r: seq<Token>)
    ensures |r| == 0 <==> |s| == 0
    decreases |s|
  {
    if s == [] then []
    else
      var prev := Split(ct, s[..|s| - 1]);
      var c := s[|s| - 1];
      if prev == [] || ct.isUpperCase(c) then prev + [[c]]
      else prev[..|prev| - 1] + [prev[|prev| - 1] + [c]]
  }

  /** What `parse` returns or throws for `s`. */
  function Parsed(ct: CaseTable, s: seq<CodePoint>): Result<seq<Token>, CaseError> {
    if |s| == 0 then Success([])
    else if !ct.isUpperCase(s[0]) then Failure(InvalidCodePoint(s[0], 0, MustBeUppercase))
    else Success(Split(ct, s))
  }

  /** The facts `parse` promises about the scan: it loses nothing and makes one well-formed token per uppercase code point. */
  lemma SplitFacts(ct: CaseTable, s: seq<CodePoint>)
    requires |s| > 0 && ct.isUpperCase(s[0])
    ensures Flatten(Split(ct, s)) == s
    ensures |Split(ct, s)| == CountUpper(ct, s)
    ensures AllWellFormed(ct, Split(ct, s))
  {
    SplitFlattens(ct, s);
    SplitCounts(ct, s);
    SplitWellFormed(ct, s);
  }

  /** `Split` on a sequence extended by one code point, as one step of the scan. */
  lemma SplitSnoc(ct: CaseTable, init: seq<CodePoint>, c: CodePoint)
    ensures var prev := Split(ct, init);
            Split(ct, init + [c]) ==
              if prev == [] || ct.isUpperCase(c) then prev + [[c]]
              else prev[..|prev| - 1] + [prev[|prev| - 1] + [c]]
  {
    assert (init + [c])[..|init|] == init;
  }

  lemma FlattenExtendLast(init: seq<Token>, last: Token, c: CodePoint)
    ensures Flatten(init + [last + [c]]) == Flatten(init + [last]) + [c]
  {
    FlattenSnoc(init, last);
    FlattenSnoc(init, last + [c]);
  }

  lemma {:induction false} SplitFlattens(ct: CaseTable, s: seq<CodePoint>)
    ensures Flatten(Split(ct, s)) == s
    decreases |s|
  {
    if s != [] {
      var init, c := s[..|s| - 1], s[|s| - 1];
      assert s == init + [c];
      SplitFlattens(ct, init);
      SplitSnoc(ct, init, c);
      var prev := Split(ct, init);
      if prev == [] || ct.isUpperCase(c) {
        FlattenSnoc(prev, [c]);
      } else {
        assert prev == prev[..|prev| - 1] + [prev[|prev| - 1]];
        FlattenExtendLast(prev[..|prev| - 1], prev[|prev| - 1], c);
      }
    }
  }

  lemma {:induction false} SplitCounts(ct: CaseTable, s: seq<CodePoint>)
    requires |s| > 0 && ct.isUpperCase(s[0])
    ensures |Split(ct, s)| == CountUpper(ct, s)
    decreases |s|
  {
    var init := s[..|s| - 1];
    if init == [] {
      assert CountUpper(ct, init) == 0;
    } else {
      assert init[0] == s[0];
      SplitCounts(ct, init);
    }
  }

  lemma {:induction false} SplitWellFormed(ct: CaseTable, s: seq<CodePoint>)
    requires |s| > 0 && ct.isUpperCase(s[0])
    ensures AllWellFormed(ct, Split(ct, s))
    decreases |s|
  {
    var init, c := s[..|s| - 1], s[|s| - 1];
    if init == [] {
      assert s == [c];
      assert Split(ct, s) == [[c]];
    } else {
      assert init[0] == s[0];
      SplitWellFormed(ct, init);
      var prev := Split(ct, init);
      if !ct.isUpperCase(c) {
        var n := |prev|;
        assert WellFormedToken(ct, prev[n - 1]);
        assert WellFormedToken(ct, prev[n - 1] + [c]);
      }
    }
  }

  /** Extending the input by the first `n` code points of a well-formed token adds one token. */
  lemma {:induction false} SplitAppendTokenPrefix(ct: CaseTable, x: seq<CodePoint>, t: Token, n: nat)
    requires WellFormedToken(ct, t) && 1 <= n <= |t|
    ensures Split(ct, x + t[..n]) == Split(ct, x) + [t[..n]]
    decreases n
  {
    var init := x + t[..n - 1];
    assert x + t[..n] == init + [t[n - 1]];
    SplitSnoc(ct, init, t[n - 1]);
    if n == 1 {
      assert init == x;
    } else {
      SplitAppendTokenPrefix(ct, x, t, n - 1);
      var prev := Split(ct, init);
      assert prev[..|prev| - 1] == Split(ct, x);
      assert t[..n - 1] + [t[n - 1]] == t[..n];
    }
  }

  /**
   * Uniqueness: a sequence of well-formed tokens is the only result of splitting its
   * concatenation.
   */
  lemma {:induction false} SplitOfWellFormed(ct: CaseTable, ts: seq<Token>)
    requires AllWellFormed(ct, ts)
    ensures Split(ct, Flatten(ts)) == ts
    decreases |ts|
  {
    if ts != [] {
      var init, t := ts[..|ts| - 1], ts[|ts| - 1];
      assert ts == init + [t];
      SplitOfWellFormed(ct, init);
      FlattenSnoc(init, t);
      assert t[..|t|] == t;
      SplitAppendTokenPrefix(ct, Flatten(init), t, |t|);
    }
  }

  /**
   * `parse` never fails on the empty string, fails exactly when the first code point is
   * not uppercase, and otherwise returns well-formed tokens, one per uppercase code
   * point, whose concatenation is the input.
   */
  lemma ParseSpec(ct: CaseTable, s: seq<CodePoint>)
    ensures |s| == 0 ==> Parsed(ct, s) == Success([])
    ensures Parsed(ct, s).Failure? <==> |s| > 0 && !ct.isUpperCase(s[0])
    ensures Parsed(ct, s).Failure? ==> Parsed(ct, s).error == InvalidCodePoint(s[0], 0, MustBeUppercase)
    ensures Parsed(ct, s).Success? ==>
              && Flatten(Parsed(ct, s).value) == s
              && AllWellFormed(ct, Parsed(ct, s).value)
              && |Parsed(ct, s).value| == CountUpper(ct, s)
  {
    if |s| > 0 && ct.isUpperCase(s[0]) {
      SplitFacts(ct, s);
    }
  }

  /**
   * One step of the scan: how the tokens finished so far and the token being built
   * change when code point `s[i]` is read.
   */
  lemma ParseStep(ct: CaseTable, s: seq<CodePoint>, i: nat, tokens: seq<Token>, current: Token)
    requires i < |s|
    requires i == 0 ==> tokens == [] && current == []
    requires i > 0 ==> current != [] && tokens + [current] == Split(ct, s[..i])
    ensures ct.isUpperCase(s[i]) ==>
              (if current != [] then tokens + [current] else tokens) + [[s[i]]] == Split(ct, s[..i + 1])
    ensures !ct.isUpperCase(s[i]) && i > 0 ==> tokens + [current + [s[i]]] == Split(ct, s[..i + 1])
  {
    assert s[..i + 1] == s[..i] + [s[i]];
    SplitSnoc(ct, s[..i], s[i]);
    if i == 0 {
      assert s[..i] == [];
    } else {
      var prev := tokens + [current];
      assert prev[..|prev| - 1] == tokens && prev[|prev| - 1] == current;
    }
  }

  /**
   * `parse`: the scan keeps the current token in a buffer as long as the input,
   * reallocated after each token is flushed; the offset into it never exceeds the
   * number of code points read, so every buffer write is in range.
   */
  method Parse(ct: CaseTable, s: seq<CodePoint>) returns (r: Result<seq<Token>, CaseError>)
    ensures r == Parsed(ct, s)
  {
    var tokens: seq<Token> := [];
    if |s| == 0 {
      return Success(tokens);
    }
    if !ct.isUpperCase(s[0]) {
      return Failure(InvalidCodePoint(s[0], 0, MustBeUppercase));
    }
    var strLen := |s|;
    var tokenCodePoints := new CodePoint[strLen];
    var tokenCodePointsOffset := 0;
    ghost var current: Token := [];  // the buffer's live part, tokenCodePoints[..tokenCodePointsOffset]
    var i := 0;
    while i < |s|
      invariant 0 <= i <= |s|
      invariant tokenCodePoints.Length == strLen && fresh(tokenCodePoints)
      invariant 0 <= tokenCodePointsOffset <= i
      invariant |current| == tokenCodePointsOffset
      invariant forall k :: 0 <= k < tokenCodePointsOffset ==> tokenCodePoints[k] == current[k]
      invariant i == 0 ==> tokens == [] && current == []
      invariant i > 0 ==> current != []
      invariant i > 0 ==> tokens + [current] == Split(ct, s[..i])
    {
      var codePoint := s[i];
      ParseStep(ct, s, i, tokens, current);
      if ct.isUpperCase(codePoint) {
        if tokenCodePointsOffset > 0 {
          assert tokenCodePoints[..tokenCodePointsOffset] == current;
          tokens := tokens + [tokenCodePoints[..tokenCodePointsOffset]];
          tokenCodePoints := new CodePoint[strLen];
          tokenCodePointsOffset := 0;
          current := [];
        }
        tokenCodePoints[tokenCodePointsOffset] := codePoint;
        tokenCodePointsOffset := tokenCodePointsOffset + 1;
        i := i + 1;
        current := [codePoint];
      } else {
        tokenCodePoints[tokenCodePointsOffset] := codePoint;
        tokenCodePointsOffset := tokenCodePointsOffset + 1;
        i := i + 1;
        current := current + [codePoint];
      }
    }
    assert s[..i] == s;
    assert tokenCodePoints[..tokenCodePointsOffset] == current;
    tokens := tokens + [tokenCodePoints[..tokenCodePointsOffset]];
    return Success(tokens);
  }

  // ---------------------------------------------------------------------------------------
  // Format

  /**
   * What happens to the code point `c` at index `i` of a token: the first is forced to
   * uppercase, a later uppercase one is forced to lowercase, any other passes through.
   * A forced mapping fails when it changes nothing or does not land in the target class.
   */
  function FormatCodePoint(ct: CaseTable, c: CodePoint, i: nat): Result<CodePoint, CaseError> {
    if i == 0 then
      if ct.isUpperCase(c) then Success(c)
      else
        var u := ct.toUpperCase(c);
        if c == u || !ct.isUpperCase(u) then Failure(InvalidCodePoint(c, i, CannotMapToUppercase))
        else Success(u)
    else if ct.isUpperCase(c) then
      var l := ct.toLowerCase(c);
      if c == l || !ct.isLowerCase(l) then Failure(InvalidCodePoint(c, i, CannotMapToLowercase))
      else Success(l)
    else Success(c)
  }

  /** The first `n` code points of `token`, formatted; the first failure wins. */
  function FormatTokenPrefix(ct: CaseTable, token: Token, n: nat): Result<seq<CodePoint>, CaseError>
    requires n <= |token|
  {
    if n == 0 then Success([])
    else
      match FormatTokenPrefix(ct, token, n - 1)
      case Failure(e) => Failure(e)
      case Success(acc) =>
        match FormatCodePoint(ct, token[n - 1], n - 1)
        case Failure(e) => Failure(e)
        case Success(c) => Success(acc + [c])
  }

  /** One token, formatted; an empty token is refused with its position in the sequence. */
  function FormatToken(ct: CaseTable, token: Token, tokenIndex: nat): Result<seq<CodePoint>, CaseError> {
    if |token| == 0 then Failure(EmptyToken(tokenIndex))
    else FormatTokenPrefix(ct, token, |token|)
  }

  /** The first `k` tokens, formatted and concatenated; the first failure wins. */
  function FormattedPrefix(ct: CaseTable, tokens: seq<Token>, k: nat): Result<seq<CodePoint>, CaseError>
    requires k <= |tokens|
  {
    if k == 0 then Success([])
    else
      match FormattedPrefix(ct, tokens, k - 1)
      case Failure(e) => Failure(e)
      case Success(acc) =>
        match FormatToken(ct, tokens[k - 1], k - 1)
        case Failure(e) => Failure(e)
        case Success(u) => Success(acc + u)
  }

  /** What `format` returns or throws for `tokens`. */
  function Formatted(ct: CaseTable, tokens: seq<Token>): Result<seq<CodePoint>, CaseError> {
    FormattedPrefix(ct, tokens, |tokens|)
  }

  lemma {:induction false} FormatTokenPrefixSticky(ct: CaseTable, token: Token, n: nat, m: nat)
    requires n <= m <= |token| && FormatTokenPrefix(ct, token, n).Failure?
    ensures FormatTokenPrefix(ct, token, m) == FormatTokenPrefix(ct, token, n)
    decreases m
  {
    if m > n {
      FormatTokenPrefixSticky(ct, token, n, m - 1);
    }
  }

  lemma {:induction false} FormattedPrefixSticky(ct: CaseTable, tokens: seq<Token>, k: nat, m: nat)
    requires k <= m <= |tokens| && FormattedPrefix(ct, tokens, k).Failure?
    ensures FormattedPrefix(ct, tokens, m) == FormattedPrefix(ct, tokens, k)
    decreases m
  {
    if m > k {
      FormattedPrefixSticky(ct, tokens, k, m - 1);
    }
  }

  /**
   * `format`: one pass over the tokens, and within each token over its code points,
   * appending to a single output; the first failure is thrown and nothing is returned.
   */
  method Format(ct: CaseTable, tokens: seq<Token>) returns (r: Result<seq<CodePoint>, CaseError>)
    ensures r == Formatted(ct, tokens)
  {
    var formattedString: seq<CodePoint> := [];
    var tokenIndex := 0;
    while tokenIndex < |tokens|
      invariant 0 <= tokenIndex <= |tokens|
      invariant FormattedPrefix(ct, tokens, tokenIndex) == Success(formattedString)
    {
      var token := tokens[tokenIndex];
      if |token| == 0 {
        FormattedPrefixSticky(ct, tokens, tokenIndex + 1, |tokens|);
        return Failure(EmptyToken(tokenIndex));
      }
      ghost var done := formattedString;
      var i := 0;
      while i < |token|
        invariant 0 <= i <= |token|
        invariant FormatTokenPrefix(ct, token, i).Success?
        invariant formattedString == done + FormatTokenPrefix(ct, token, i).value
      {
        var codePoint := token[i];
        var codePointFormatted := codePoint;
        if i == 0 {
          if !ct.isUpperCase(codePoint) {
            codePointFormatted := ct.toUpperCase(codePoint);
            if codePoint == codePointFormatted || !ct.isUpperCase(codePointFormatted) {
              FormatTokenPrefixSticky(ct, token, i + 1, |token|);
              FormattedPrefixSticky(ct, tokens, tokenIndex + 1, |tokens|);
              return Failure(InvalidCodePoint(codePoint, i, CannotMapToUppercase));
            }
          }
        } else {
          if ct.isUpperCase(codePoint) {
            codePointFormatted := ct.toLowerCase(codePoint);
            if codePoint == codePointFormatted || !ct.isLowerCase(codePointFormatted) {
              FormatTokenPrefixSticky(ct, token, i + 1, |token|);
              FormattedPrefixSticky(ct, tokens, tokenIndex + 1, |tokens|);
              return Failure(InvalidCodePoint(codePoint, i, CannotMapToLowercase));
            }
          }
        }
        formattedString := formattedString + [codePointFormatted];
        i := i + 1;
      }
      tokenIndex := tokenIndex + 1;
    }
    return Success(formattedString);
  }

  // ---------------------------------------------------------------------------------------
  // Format: a pointwise reference

  /** The code point `c` at index `i` of a token can be formatted. */
  predicate Formattable(ct: CaseTable, c: CodePoint, i: nat) {
    if i == 0 then
      ct.isUpperCase(c) || (ct.toUpperCase(c) != c && ct.isUpperCase(ct.toUpperCase(c)))
    else
      !ct.isUpperCase(c) || (ct.toLowerCase(c) != c && ct.isLowerCase(ct.toLowerCase(c)))
  }

  /** The formatted form of the code point `c` at index `i` of a token. */
  function Recased(ct: CaseTable, c: CodePoint, i: nat): CodePoint {
    if i == 0 then (if ct.isUpperCase(c) then c else ct.toUpperCase(c))
    else (if ct.isUpperCase(c) then ct.toLowerCase(c) else c)
  }

  predicate TokenFormattable(ct: CaseTable, t: Token) {
    |t| > 0 && forall j :: 0 <= j < |t| ==> Formattable(ct, t[j], j)
  }

  function RecasedToken(ct: CaseTable, t: Token): seq<CodePoint> {
    seq(|t|, j requires 0 <= j < |t| => Recased(ct, t[j], j))
  }

  /** The reason a code point at index `j` of a token is refused. */
  function ReasonAt(j: nat): Reason {
    if j == 0 then CannotMapToUppercase else CannotMapToLowercase
  }

  /**
   * A token prefix formats exactly when each of its code points can be formatted, and
   * then into the pointwise re-cased code points.
   */
  lemma {:induction false} FormatTokenPrefixReference(ct: CaseTable, t: Token, n: nat)
    requires n <= |t|
    ensures FormatTokenPrefix(ct, t, n).Success? <==> forall j :: 0 <= j < n ==> Formattable(ct, t[j], j)
    ensures FormatTokenPrefix(ct, t, n).Success? ==>
              FormatTokenPrefix(ct, t, n).value == RecasedToken(ct, t[..n])
    decreases n
  {
    if n > 0 {
      FormatTokenPrefixReference(ct, t, n - 1);
      assert t[..n][..n - 1] == t[..n - 1];
    }
  }

  /** A token prefix that fails reports its first code point that cannot be formatted. */
  lemma {:induction false} FormatTokenPrefixFirstFailure(ct: CaseTable, t: Token, n: nat, j: nat)
    requires j < n <= |t|
    requires forall j' :: 0 <= j' < j ==> Formattable(ct, t[j'], j')
    requires !Formattable(ct, t[j], j)
    ensures FormatTokenPrefix(ct, t, n) == Failure(InvalidCodePoint(t[j], j, ReasonAt(j)))
    decreases n
  {
    if n == j + 1 {
      FormatTokenPrefixReference(ct, t, j);
    } else {
      FormatTokenPrefixFirstFailure(ct, t, n - 1, j);
    }
  }

  lemma {:induction false} FlattenRecasedLength(ct: CaseTable, ts: seq<Token>)
    ensures |Flatten(seq(|ts|, k requires 0 <= k < |ts| => RecasedToken(ct, ts[k])))| == |Flatten(ts)|
    decreases |ts|
  {
    if ts != [] {
      var init := ts[..|ts| - 1];
      var f := seq(|ts|, k requires 0 <= k < |ts| => RecasedToken(ct, ts[k]));
      assert f[..|ts| - 1] == seq(|init|, k requires 0 <= k < |init| => RecasedToken(ct, init[k]));
      FlattenRecasedLength(ct, init);
    }
  }

  /**
   * `format` succeeds exactly when every token is non-empty and each of its code points
   * can be formatted; the output then is the concatenation of the pointwise re-cased
   * tokens, one output code point per input code point.
   */
  lemma {:induction false} FormattedPrefixReference(ct: CaseTable, ts: seq<Token>, k: nat)
    requires k <= |ts|
    ensures FormattedPrefix(ct, ts, k).Success? <==> forall k' :: 0 <= k' < k ==> TokenFormattable(ct, ts[k'])
    ensures FormattedPrefix(ct, ts, k).Success? ==>
              FormattedPrefix(ct, ts, k).value == Flatten(seq(k, k' requires 0 <= k' < k => RecasedToken(ct, ts[k'])))
    decreases k
  {
    if k > 0 {
      FormattedPrefixReference(ct, ts, k - 1);
      var t := ts[k - 1];
      var f := seq(k, k' requires 0 <= k' < k => RecasedToken(ct, ts[k']));
      assert f[..k - 1] == seq(k - 1, k' requires 0 <= k' < k - 1 => RecasedToken(ct, ts[k']));
      if |t| > 0 {
        FormatTokenPrefixReference(ct, t, |t|);
        assert t[..|t|] == t;
      }
    }
  }

  lemma FormattedReference(ct: CaseTable, ts: seq<Token>)
    ensures Formatted(ct, ts).Success? <==> forall k :: 0 <= k < |ts| ==> TokenFormattable(ct, ts[k])
    ensures Formatted(ct, ts).Success? ==>
              && Formatted(ct, ts).value == Flatten(seq(|ts|, k requires 0 <= k < |ts| => RecasedToken(ct, ts[k])))
              && |Formatted(ct, ts).value| == |Flatten(ts)|
  {
    FormattedPrefixReference(ct, ts, |ts|);
    FlattenRecasedLength(ct, ts);
  }

  /**
   * What a formatted token looks like: as long as the token, its first code point
   * uppercase, and each later code point either unchanged (not uppercase in the input) or
   * mapped by `toLowerCase` into the lowercase class.
   */
  lemma RecasedTokenShape(ct: CaseTable, t: Token)
    requires TokenFormattable(ct, t)
    ensures |RecasedToken(ct, t)| == |t|
    ensures ct.isUpperCase(RecasedToken(ct, t)[0])
    ensures RecasedToken(ct, t)[0] == if ct.isUpperCase(t[0]) then t[0] else ct.toUpperCase(t[0])
    ensures forall j :: 1 <= j < |t| && !ct.isUpperCase(t[j]) ==> RecasedToken(ct, t)[j] == t[j]
    ensures forall j :: 1 <= j < |t| && ct.isUpperCase(t[j]) ==>
              RecasedToken(ct, t)[j] == ct.toLowerCase(t[j]) && ct.isLowerCase(RecasedToken(ct, t)[j])
  {
    assert Formattable(ct, t[0], 0);
  }

  /** `format` fails at the first empty token, with its position, when no earlier token fails. */
  lemma {:induction false} FormatFailsAtFirstEmptyToken(ct: CaseTable, ts: seq<Token>, k: nat)
    requires k < |ts| && ts[k] == []
    requires forall k' :: 0 <= k' < k ==> TokenFormattable(ct, ts[k'])
    ensures Formatted(ct, ts) == Failure(EmptyToken(k))
  {
    FormattedPrefixReference(ct, ts, k);
    FormattedPrefixSticky(ct, ts, k + 1, |ts|);
  }

  /**
   * `format` fails at the first code point that cannot be formatted, reporting it, its
   * index within its token and the reason, when no earlier token or code point fails.
   */
  lemma {:induction false} FormatFailsAtFirstBadCodePoint(ct: CaseTable, ts: seq<Token>, k: nat, j: nat)
    requires k < |ts| && j < |ts[k]|
    requires forall k' :: 0 <= k' < k ==> TokenFormattable(ct, ts[k'])
    requires forall j' :: 0 <= j' < j ==> Formattable(ct, ts[k][j'], j')
    requires !Formattable(ct, ts[k][j], j)
    ensures Formatted(ct, ts) == Failure(InvalidCodePoint(ts[k][j], j, ReasonAt(j)))
  {
    FormattedPrefixReference(ct, ts, k);
    FormatTokenPrefixFirstFailure(ct, ts[k], |ts[k]|, j);
    FormattedPrefixSticky(ct, ts, k + 1, |ts|);
  }

  // ---------------------------------------------------------------------------------------
  // Round trips

  /** Whenever `parse` succeeds, formatting its tokens gives the input back, for any table. */
  lemma ParseFormatRoundTrip(ct: CaseTable, s: seq<CodePoint>)
    requires Parsed(ct, s).Success?
    ensures Formatted(ct, Parsed(ct, s).value) == Success(s)
  {
    var ts := Parsed(ct, s).value;
    ParseSpec(ct, s);
    forall k | 0 <= k < |ts|
      ensures TokenFormattable(ct, ts[k]) && RecasedToken(ct, ts[k]) == ts[k]
    {
      assert WellFormedToken(ct, ts[k]);
    }
    assert seq(|ts|, k requires 0 <= k < |ts| => RecasedToken(ct, ts[k])) == ts;
    FormattedReference(ct, ts);
  }

  /**
   * With a table whose lowercase and uppercase classes are disjoint, parsing a formatted
   * string gives back the formatted tokens: formatting never merges or splits tokens.
   */
  lemma FormatParseRoundTrip(ct: CaseTable, ts: seq<Token>)
    requires DisjointCases(ct)
    requires Formatted(ct, ts).Success?
    ensures Parsed(ct, Formatted(ct, ts).value)
            == Success(seq(|ts|, k requires 0 <= k < |ts| => RecasedToken(ct, ts[k])))
  {
    FormattedReference(ct, ts);
    var rs := seq(|ts|, k requires 0 <= k < |ts| => RecasedToken(ct, ts[k]));
    forall k | 0 <= k < |ts|
      ensures WellFormedToken(ct, rs[k])
    {
      RecasedTokenShape(ct, ts[k]);
    }
    SplitOfWellFormed(ct, rs);
    if ts != [] {
      FlattenHead(ct, rs);
    }
  }

  /** A concatenation of well-formed tokens starts with the first token's first code point. */
  lemma {:induction false} FlattenHead(ct: CaseTable, ts: seq<Token>)
    requires |ts| > 0 && AllWellFormed(ct, ts)
    ensures |Flatten(ts)| > 0 && Flatten(ts)[0] == ts[0][0]
    decreases |ts|
  {
    var init := ts[..|ts| - 1];
    if init != [] {
      FlattenHead(ct, init);
    } else {
      assert Flatten(ts) == Flatten([]) + ts[0];
    }
  }

  // ---------------------------------------------------------------------------------------
  // Examples, on the ASCII table

  lemma ExampleTokensWellFormed()
    ensures AllWellFormed(Ascii, [CodePoints("My"), CodePoints("Pascal"), CodePoints("Case")])
  {
    assert WellFormedToken(Ascii, CodePoints("My"));
    assert WellFormedToken(Ascii, CodePoints("Pascal"));
    assert WellFormedToken(Ascii, CodePoints("Case"));
  }

  lemma ExampleTokensFlatten()
    ensures Flatten([CodePoints("My"), CodePoints("Pascal"), CodePoints("Case")]) == CodePoints("MyPascalCase")
  {
    var ts := [CodePoints("My"), CodePoints("Pascal"), CodePoints("Case")];
    FlattenSnoc([], ts[0]);
    FlattenSnoc([ts[0]], ts[1]);
    FlattenSnoc([ts[0], ts[1]], ts[2]);
    assert [ts[0], ts[1]] + [ts[2]] == ts;
    assert ts[0] + ts[1] + ts[2] == CodePoints("MyPascalCase");
  }

  lemma ParseExamples()
    ensures Parsed(Ascii, []) == Success([])
    ensures Parsed(Ascii, CodePoints("myCamel")) == Failure(InvalidCodePoint('m' as int, 0, MustBeUppercase))
    ensures Parsed(Ascii, CodePoints("MyPascalCase"))
            == Success([CodePoints("My"), CodePoints("Pascal"), CodePoints("Case")])
  {
    var ts := [CodePoints("My"), CodePoints("Pascal"), CodePoints("Case")];
    ExampleTokensWellFormed();
    ExampleTokensFlatten();
    SplitOfWellFormed(Ascii, ts);
  }
}
