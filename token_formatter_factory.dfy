/**
 * Token formatters: given the prior token (or its absence), the index of the current
 * token and the current token's characters, a formatter returns a string, returns
 * nothing (`None`, the source's `null`), or throws.
 *
 * The formatter kinds form a closed set: the no-op formatter, a reference to a (mutable)
 * constant formatter object, and any other formatter given as a function value.
 */
module TokenFormatterFactory {
  import opened Wrappers

  /** The exceptions a formatter can throw. */
  datatype FormatterError =
    // the constant was found in the token; `index` is the position just after the match
    | ConstantFound(tokenIndex: int, constant: string, index: int)
    // the scan read the token one position past its end
    | IndexOutOfBounds(index: int, length: int)

  type FormatResult = Result<Option<string>, FormatterError>

  datatype TokenFormatter =
    | NoOp
    | Constant(formatter: ConstantTokenFormatter)
    | Custom(format: (Option<string>, int, string) -> FormatResult)
  {
    /** The objects whose state the formatter's behaviour depends on. */
    function Footprint(): set<object> {
      if Constant? then {formatter} else {}
    }
  }

  // ---------------------------------------------------------------------------------------
  // NoOpFormatter

  /** `NoOpFormatter.format`: the token itself, whatever the prior token and the index. */
  function NoOpFormat(prior: Option<string>, tokenIndex: int, token: string): (r: FormatResult)
    ensures r == Success(Some(token))
  {
    Success(Some(token))
  }

  // ---------------------------------------------------------------------------------------
  // ConstantTokenFormatter: the scan for the constant inside the token

  /** What the inner loop of the scan finds when it starts at position `i` of the token. */
  datatype Probe = Mismatch | FullMatch | Overrun

  /** The whole (non-empty) constant occurs in the token at position `i`. */
  predicate FullMatchAt(constant: string, token: string, i: nat) {
    0 < |constant| && i + |constant| <= |token| && token[i..i + |constant|] == constant
  }

  /**
   * The rest of the token from position `i` on is a proper prefix of the constant, so the
   * comparison runs past the token's end.
   */
  predicate OverrunAt(constant: string, token: string, i: nat) {
    i < |token| < i + |constant| && token[i..] == constant[..|token| - i]
  }

  function ProbeAt(constant: string, token: string, i: nat): Probe {
    if FullMatchAt(constant, token, i) then FullMatch
    else if OverrunAt(constant, token, i) then Overrun
    else Mismatch
  }

  /** The outcome of the scan from start position `i` on: the first probe that is not a mismatch decides. */
  function ScanFrom(constant: string, token: string, tokenIndex: int, i: nat): FormatResult
    decreases |token| - i
  {
    if i >= |token| then Success(Some(constant))
    else
      match ProbeAt(constant, token, i)
      case FullMatch => Failure(ConstantFound(tokenIndex, constant, i + |constant|))
      case Overrun => Failure(IndexOutOfBounds(|token|, |token|))
      case Mismatch => ScanFrom(constant, token, tokenIndex, i + 1)
  }

  /** The comparison that starts at `i` runs off the token's end. */
  lemma ScanFromOverrun(constant: string, token: string, tokenIndex: int, i: nat)
    requires i < |token| < i + |constant|
    requires forall k :: 0 <= k < |token| - i ==> token[i + k] == constant[k]
    ensures ScanFrom(constant, token, tokenIndex, i) == Failure(IndexOutOfBounds(|token|, |token|))
  {
    assert token[i..] == constant[..|token| - i];
    assert !FullMatchAt(constant, token, i);
  }

  /** The whole constant matches at `i`. */
  lemma ScanFromFullMatch(constant: string, token: string, tokenIndex: int, i: nat)
    requires 0 < |constant| && i + |constant| <= |token|
    requires forall k :: 0 <= k < |constant| ==> token[i + k] == constant[k]
    ensures ScanFrom(constant, token, tokenIndex, i) == Failure(ConstantFound(tokenIndex, constant, i + |constant|))
  {
    assert token[i..i + |constant|] == constant;
  }

  /** A differing character at offset `j` (or an empty constant) makes position `i` a mismatch. */
  lemma ScanFromMismatch(constant: string, token: string, tokenIndex: int, i: nat, j: nat)
    requires i < |token|
    requires |constant| == 0 || (j < |constant| && i + j < |token| && token[i + j] != constant[j])
    ensures ScanFrom(constant, token, tokenIndex, i) == ScanFrom(constant, token, tokenIndex, i + 1)
  {
    if |constant| > 0 {
      if i + |constant| <= |token| {
        assert token[i..i + |constant|][j] != constant[j];
      }
      if |token| < i + |constant| {
        assert j < |token| - i ==> token[i..][j] != constant[..|token| - i][j];
      }
    }
  }

  /** `ConstantTokenFormatter.format` for a formatter whose state is `constant` and `failOnConstantFound`. */
  function ConstantFormat(constant: string, failOnConstantFound: bool, tokenIndex: int, token: string): FormatResult {
    if failOnConstantFound then ScanFrom(constant, token, tokenIndex, 0) else Success(Some(constant))
  }

  class ConstantTokenFormatter {
    /** The constant to return. */
    var constant: string
    /** Whether to throw when the constant is found in the token. */
    var failOnConstantFound: bool

    /** `ConstantTokenFormatter(char)`: checking is on. */
    constructor FromChar(constant: char)
      ensures this.constant == [constant] && failOnConstantFound
    {
      this.constant := [constant];
      failOnConstantFound := true;
    }

    constructor FromCharWithCheck(constant: char, failOnConstantFound: bool)
      ensures this.constant == [constant] && this.failOnConstantFound == failOnConstantFound
    {
      this.constant := [constant];
      this.failOnConstantFound := failOnConstantFound;
    }

    /** `ConstantTokenFormatter(String)`: checking is on. */
    constructor FromString(constant: string)
      ensures this.constant == constant && failOnConstantFound
    {
      this.constant := constant;
      failOnConstantFound := true;
    }

    constructor FromStringWithCheck(constant: string, failOnConstantFound: bool)
      ensures this.constant == constant && this.failOnConstantFound == failOnConstantFound
    {
      this.constant := constant;
      this.failOnConstantFound := failOnConstantFound;
    }

    /** `ConstantTokenFormatter(char[], boolean)`. */
    constructor (constant: string, failOnConstantFound: bool)
      ensures this.constant == constant && this.failOnConstantFound == failOnConstantFound
    {
      this.constant := constant;
      this.failOnConstantFound := failOnConstantFound;
    }

    /**
     * `format`: when checking, try each start position of the token in turn, comparing
     * the constant character by character; a full match throws, and so does reading past
     * the token's end. Otherwise the constant is returned.
     */
    method Format(prior: Option<string>, tokenIndex: int, token: string) returns (r: FormatResult)
      ensures r == ConstantFormat(constant, failOnConstantFound, tokenIndex, token)
    {
      if failOnConstantFound {
        var i := 0;
        while i < |token|
          invariant 0 <= i <= |token|
          invariant ScanFrom(constant, token, tokenIndex, i) == ScanFrom(constant, token, tokenIndex, 0)
        {
          var matched := false;
          var t := i;
          var j := 0;
          while j < |constant|
            invariant 0 <= j <= |constant|
            invariant t == i + j <= |token|
            invariant forall k :: 0 <= k < j ==> token[i + k] == constant[k]
            invariant matched <==> j > 0
          {
            if t == |token| {
              // Java's array read token[t] throws here
              ScanFromOverrun(constant, token, tokenIndex, i);
              return Failure(IndexOutOfBounds(t, |token|));
            }
            if token[t] == constant[j] {
              matched := true;
            } else {
              matched := false;
              ScanFromMismatch(constant, token, tokenIndex, i, j);
              break;
            }
            t := t + 1;
            j := j + 1;
          }
          if matched {
            ScanFromFullMatch(constant, token, tokenIndex, i);
            return Failure(ConstantFound(tokenIndex, constant, t));
          }
          if |constant| == 0 {
            ScanFromMismatch(constant, token, tokenIndex, i, 0);
          }
          i := i + 1;
        }
      }
      return Success(Some(constant));
    }

    /** `setFailOnConstantFound`: changes the flag and nothing else. */
    method SetFailOnConstantFound(checkTokenForConstant: bool)
      modifies this
      ensures failOnConstantFound == checkTokenForConstant
      ensures constant == old(constant)
    {
      failOnConstantFound := checkTokenForConstant;
    }
  }

  // ---------------------------------------------------------------------------------------
  // Properties of the constant formatter

  /** Without checking, the constant is returned and nothing is thrown. */
  lemma ConstantFormatUnchecked(constant: string, tokenIndex: int, token: string)
    ensures ConstantFormat(constant, false, tokenIndex, token) == Success(Some(constant))
  {
  }

  lemma {:induction false} ScanFromSucceedsWithConstant(constant: string, token: string, tokenIndex: int, i: nat)
    ensures ScanFrom(constant, token, tokenIndex, i).Success? ==>
              ScanFrom(constant, token, tokenIndex, i).value == Some(constant)
    decreases |token| - i
  {
    if i < |token| && ProbeAt(constant, token, i) == Mismatch {
      ScanFromSucceedsWithConstant(constant, token, tokenIndex, i + 1);
    }
  }

  /** When `format` does not throw it returns the constant, whatever the token, prior token and index. */
  lemma ConstantFormatReturnsConstant(constant: string, fail: bool, prior: Option<string>, tokenIndex: int, token: string)
    ensures ConstantFormat(constant, fail, tokenIndex, token).Success? ==>
              ConstantFormat(constant, fail, tokenIndex, token).value == Some(constant)
  {
    ScanFromSucceedsWithConstant(constant, token, tokenIndex, 0);
  }

  /** The scan from `i` on has no hit exactly when every later start position is a mismatch. */
  lemma {:induction false} ScanFromNoHit(constant: string, token: string, tokenIndex: int, i: nat)
    ensures ScanFrom(constant, token, tokenIndex, i).Success? <==>
              forall i' :: i <= i' < |token| ==> ProbeAt(constant, token, i') == Mismatch
    decreases |token| - i
  {
    if i < |token| && ProbeAt(constant, token, i) == Mismatch {
      ScanFromNoHit(constant, token, tokenIndex, i + 1);
    }
  }

  /** The first start position the scan reaches that is not a mismatch decides what is thrown. */
  lemma {:induction false} ScanFromFirstHit(constant: string, token: string, tokenIndex: int, i: nat, h: nat)
    requires i <= h < |token|
    requires forall i' :: i <= i' < h ==> ProbeAt(constant, token, i') == Mismatch
    requires ProbeAt(constant, token, h) != Mismatch
    ensures ScanFrom(constant, token, tokenIndex, i) ==
              if ProbeAt(constant, token, h) == FullMatch
              then Failure(ConstantFound(tokenIndex, constant, h + |constant|))
              else Failure(IndexOutOfBounds(|token|, |token|))
    decreases h - i
  {
    if i < h {
      ScanFromFirstHit(constant, token, tokenIndex, i + 1, h);
    }
  }

  /**
   * With checking on, `format` returns the constant exactly when no start position is a
   * full match or an overrun; otherwise the first such position decides: a full match at
   * `h` throws with the token index and `h + |constant|`, an overrun reads out of range.
   */
  lemma ConstantFormatChecked(constant: string, tokenIndex: int, token: string)
    ensures ConstantFormat(constant, true, tokenIndex, token) == Success(Some(constant)) <==>
              forall i :: 0 <= i < |token| ==> ProbeAt(constant, token, i) == Mismatch
    ensures forall h :: 0 <= h < |token| && ProbeAt(constant, token, h) != Mismatch &&
                        (forall i :: 0 <= i < h ==> ProbeAt(constant, token, i) == Mismatch) ==>
              ConstantFormat(constant, true, tokenIndex, token) ==
                if ProbeAt(constant, token, h) == FullMatch
                then Failure(ConstantFound(tokenIndex, constant, h + |constant|))
                else Failure(IndexOutOfBounds(|token|, |token|))
  {
    ScanFromNoHit(constant, token, tokenIndex, 0);
    ScanFromSucceedsWithConstant(constant, token, tokenIndex, 0);
    forall h | 0 <= h < |token| && ProbeAt(constant, token, h) != Mismatch &&
               (forall i :: 0 <= i < h ==> ProbeAt(constant, token, i) == Mismatch)
      ensures ConstantFormat(constant, true, tokenIndex, token) ==
                if ProbeAt(constant, token, h) == FullMatch
                then Failure(ConstantFound(tokenIndex, constant, h + |constant|))
                else Failure(IndexOutOfBounds(|token|, |token|))
    {
      ScanFromFirstHit(constant, token, tokenIndex, 0, h);
    }
  }

  /** With checking on, a token that contains the constant is never accepted. */
  lemma ContainingTokenRejected(constant: string, tokenIndex: int, token: string, i: nat)
    requires FullMatchAt(constant, token, i)
    ensures ConstantFormat(constant, true, tokenIndex, token).Failure?
  {
    ScanFromNoHit(constant, token, tokenIndex, 0);
    assert ProbeAt(constant, token, i) == FullMatch;
  }

  /** An empty constant never matches, so the formatter returns the empty string whatever its flag. */
  lemma EmptyConstantNeverThrows(fail: bool, tokenIndex: int, token: string)
    ensures ConstantFormat([], fail, tokenIndex, token) == Success(Some([]))
  {
    ScanFromNoHit([], token, tokenIndex, 0);
    ScanFromSucceedsWithConstant([], token, tokenIndex, 0);
  }

  // ---------------------------------------------------------------------------------------
  // Dispatch and the factory

  /**
   * A formatter's behaviour as a value: its kind and, for a constant formatter, the
   * current state of the object.
   */
  datatype FormatterState =
    | NoOpState
    | ConstantState(constant: string, failOnConstantFound: bool)
    | CustomState(format: (Option<string>, int, string) -> FormatResult)

  function State(f: TokenFormatter): FormatterState
    reads f.Footprint()
  {
    match f
    case NoOp => NoOpState
    case Constant(c) => ConstantState(c.constant, c.failOnConstantFound)
    case Custom(g) => CustomState(g)
  }

  /** What a call of `format` returns or throws, for a formatter in state `s`. */
  function Apply(s: FormatterState, prior: Option<string>, tokenIndex: int, token: string): FormatResult {
    match s
    case NoOpState => NoOpFormat(prior, tokenIndex, token)
    case ConstantState(constant, fail) => ConstantFormat(constant, fail, tokenIndex, token)
    case CustomState(g) => g(prior, tokenIndex, token)
  }

  /** A call of the formatter's `format` method. */
  method Invoke(f: TokenFormatter, prior: Option<string>, tokenIndex: int, token: string) returns (r: FormatResult)
    ensures r == Apply(State(f), prior, tokenIndex, token)
  {
    match f
    case NoOp => r := NoOpFormat(prior, tokenIndex, token);
    case Constant(c) => r := c.Format(prior, tokenIndex, token);
    case Custom(g) => r := g(prior, tokenIndex, token);
  }

  /** `noOpFormatter()`. */
  function NoOpFormatter(): (f: TokenFormatter)
    ensures forall prior, tokenIndex, token :: Apply(State(f), prior, tokenIndex, token) == Success(Some(token))
  {
    NoOp
  }

  /** `emptyFormatter()`: a constant formatter for the empty string, with checking off. */
  method EmptyFormatter() returns (f: ConstantTokenFormatter)
    ensures fresh(f) && f.constant == [] && !f.failOnConstantFound
  {
    f := new ConstantTokenFormatter([], false);
  }

  /** `constantFormatter(char[], boolean)`. */
  method ConstantFormatter(constant: string, failOnConstant: bool) returns (f: ConstantTokenFormatter)
    ensures fresh(f) && f.constant == constant && f.failOnConstantFound == failOnConstant
  {
    f := new ConstantTokenFormatter(constant, failOnConstant);
  }

  /** `constantFormatter(char, boolean)`. */
  method ConstantCharFormatter(constant: char, failOnConstant: bool) returns (f: ConstantTokenFormatter)
    ensures fresh(f) && f.constant == [constant] && f.failOnConstantFound == failOnConstant
  {
    f := new ConstantTokenFormatter.FromCharWithCheck(constant, failOnConstant);
  }

  /** A constant formatter for the empty string, such as `emptyFormatter()`'s, always returns the empty string. */
  lemma EmptyFormatterAlwaysEmpty(fail: bool, prior: Option<string>, tokenIndex: int, token: string)
    ensures Apply(ConstantState([], fail), prior, tokenIndex, token) == Success(Some([]))
  {
    EmptyConstantNeverThrows(fail, tokenIndex, token);
  }
}
