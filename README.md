# Text cases and token joining, modelled in Dafny

This project models three components of a Java text library:

- **PascalCase** (`PascalCase.java`). `parse` splits a string such as `MyPascalCase` into
  tokens. Each uppercase code point starts a new token, and the first code point must be
  uppercase. `format` re-cases a token sequence and concatenates it: the first code point
  of each token is forced to uppercase, a later uppercase code point is forced to lowercase,
  and every other code point passes through.
- **Token formatters** (`TokenFormatterFactory.java`). `NoOpFormatter` returns the token
  unchanged. `ConstantTokenFormatter` returns a constant string and, when
  `failOnConstantFound` is set, first scans the token for that constant and throws if it
  finds it.
- **TokenStringifier** (`TokenStringifier.java`). It joins tokens with a delimiter
  formatter and a token formatter. The result is computed on the first `getString` after a
  `reset` and cached after that.

Files:

- `wrappers.dfy` (module `Wrappers`): `Option`, which stands for a Java reference that may
  be `null`, and `Result`, which stands for "returns or throws".
- `case_table.dfy` (module `CaseTables`): a `CaseTable` holds the four Unicode operations
  `isUpperCase`, `isLowerCase`, `toUpperCase` and `toLowerCase`. Every operation takes the
  table as a parameter, so each PascalCase property holds for any table. `Ascii` is a
  concrete table used by the examples.
- `pascal_case.dfy` (module `PascalCase`): the specification functions `Split`/`Parsed`
  and `FormatTokenPrefix`/`FormattedPrefix`/`Formatted`, written as left folds in the scan
  order of the Java loops. The methods `Parse` and `Format` keep the Java loops (`Parse`
  keeps the reallocated `int[]` buffer as an `array`) and are proved equal to those
  functions. Lemmas give a pointwise reference for `format`, the error cases, and both
  round trips.
- `token_formatter_factory.dfy` (module `TokenFormatterFactory`): the class
  `ConstantTokenFormatter` with its constructors, its nested-loop `Format` and its setter.
  Its behaviour is specified by `ConstantFormat`. A formatter is a closed variant
  `TokenFormatter`: no-op, a reference to a constant formatter object, or any other
  formatter given as a function. `State` reads a formatter's current behaviour as a value.
- `token_stringifier.dfy` (module `TokenStringifier`): the class `TokenStringifier`. Its
  fields are the two formatters, the tokens and the cached string. `Join` is the pure
  specification of `stringify`.

Where the component's documentation and its code disagree, the model follows the code:

- The prior token passed to both formatters is always `null`. The documentation says the
  previous raw token is passed, but `priorToken` is set to `null` at
  `TokenStringifier.java:56` and never assigned again.
- The default stringifier uses the no-op formatter as its delimiter formatter, and that
  formatter returns the current token. So the delimiter repeats each token after the first:
  `["a","b","c"]` gives `"abbcc"`, not `"abc"`.
- PascalCase classifies code points with the Unicode uppercase test, not an ASCII test as
  its Javadoc says.
- With an empty constant, the constant formatter never throws. The scan reads one position
  past the token's end when the rest of the token is a proper prefix of the constant, and
  this is modelled as an `IndexOutOfBounds` failure.

## Model

| member | source | states |
|---|---|---|
| `PascalCase.Parse` | src/main/java/org/apache/commons/text/cases/PascalCase.java:55-83 | The buffered scan returns exactly `Parsed(ct, s)`. The loop invariants keep the buffer offset at or below the number of code points read, which is below `\|s\|`, so every buffer write is in range. |
| `PascalCase.ParseSpec` | src/main/java/org/apache/commons/text/cases/PascalCase.java:57-81 | `parse("")` is `[]`. `parse` fails exactly when the first code point is not uppercase, and the error is (that code point, index 0, "must be a Unicode uppercase letter"). On success the tokens concatenate to the input, each token is non-empty, starts uppercase and has no later uppercase code point, and there is one token per uppercase code point. |
| `PascalCase.SplitOfWellFormed` | src/main/java/org/apache/commons/text/cases/PascalCase.java:66-81 | Uniqueness: splitting the concatenation of well-formed tokens gives back exactly those tokens. |
| `PascalCase.Format` | src/main/java/org/apache/commons/text/cases/PascalCase.java:98-131 | The nested loops return exactly `Formatted(ct, tokens)`: the whole output, or the first failure with no partial result. |
| `PascalCase.FormattedReference` | src/main/java/org/apache/commons/text/cases/PascalCase.java:101-129 | `format` succeeds if and only if every token is non-empty and each of its code points can be mapped. The output is then the concatenation of the pointwise re-cased tokens, with one output code point per input code point. |
| `PascalCase.FormatTokenPrefixReference` | src/main/java/org/apache/commons/text/cases/PascalCase.java:105-127 | Within one token, the formatted prefix succeeds if and only if each code point in it can be mapped, and it then equals the pointwise re-cased prefix. |
| `PascalCase.RecasedTokenShape` | src/main/java/org/apache/commons/text/cases/PascalCase.java:108-125 | A formatted token is as long as the input token. Its first code point is uppercase (kept if already uppercase, else `toUpperCase`). A later code point that is not uppercase is unchanged. A later uppercase code point becomes `toLowerCase` of it, which is lowercase. |
| `PascalCase.FormatFailsAtFirstEmptyToken` | src/main/java/org/apache/commons/text/cases/PascalCase.java:100-104 | If every earlier token formats, `format` fails at the first empty token with that token's position. |
| `PascalCase.FormatFailsAtFirstBadCodePoint` | src/main/java/org/apache/commons/text/cases/PascalCase.java:105-126 | If everything before it formats, `format` fails at the first code point that cannot be mapped. The error reports that code point, its index in the token, and "cannot be mapped to uppercase" at index 0 or "cannot be mapped to lowercase" after it. |
| `PascalCase.FormatTokenPrefixFirstFailure` | src/main/java/org/apache/commons/text/cases/PascalCase.java:108-124 | Within one token, the first code point that cannot be mapped decides the error. |
| `PascalCase.ParseFormatRoundTrip` | src/main/java/org/apache/commons/text/cases/PascalCase.java:55-131 | For any case table, whenever `parse(s)` succeeds, `format(parse(s))` returns `s`. |
| `PascalCase.FormatParseRoundTrip` | src/main/java/org/apache/commons/text/cases/PascalCase.java:55-131 | For a table whose lowercase and uppercase classes are disjoint, parsing a formatted string gives back the re-cased tokens, so formatting never merges or splits tokens. |
| `PascalCase.ParseExamples` | src/main/java/org/apache/commons/text/cases/PascalCase.java:55-83 | With the ASCII table: `""` gives `[]`. `"myCamel"` fails at index 0. `"MyPascalCase"` gives `["My","Pascal","Case"]`. |
| `TokenFormatterFactory.NoOpFormat` | src/main/java/org/apache/commons/text/TokenFormatterFactory.java:12-14 | Returns the token's characters, whatever the prior token and the index. |
| `TokenFormatterFactory.NoOpFormatter` | src/main/java/org/apache/commons/text/TokenFormatterFactory.java:99-101 | The shared no-op formatter returns every token unchanged. |
| `TokenFormatterFactory.ConstantTokenFormatter.FromChar` | src/main/java/org/apache/commons/text/TokenFormatterFactory.java:34-36 | The constant is the one character, and checking is on. |
| `TokenFormatterFactory.ConstantTokenFormatter.FromCharWithCheck` | src/main/java/org/apache/commons/text/TokenFormatterFactory.java:38-40 | The constant is the one character, and the flag is the one given. |
| `TokenFormatterFactory.ConstantTokenFormatter.FromString` | src/main/java/org/apache/commons/text/TokenFormatterFactory.java:42-44 | The constant is the string, and checking is on. |
| `TokenFormatterFactory.ConstantTokenFormatter.FromStringWithCheck` | src/main/java/org/apache/commons/text/TokenFormatterFactory.java:46-48 | The constant is the string, and the flag is the one given. |
| `TokenFormatterFactory.ConstantTokenFormatter.constructor` | src/main/java/org/apache/commons/text/TokenFormatterFactory.java:50-53 | Both fields are set as given. |
| `TokenFormatterFactory.ConstantTokenFormatter.Format` | src/main/java/org/apache/commons/text/TokenFormatterFactory.java:56-77 | The nested search loop, with its early break and throws, returns exactly `ConstantFormat(constant, failOnConstantFound, tokenIndex, token)`. |
| `TokenFormatterFactory.ConstantTokenFormatter.SetFailOnConstantFound` | src/main/java/org/apache/commons/text/TokenFormatterFactory.java:83-85 | Sets the flag and leaves the constant unchanged. |
| `TokenFormatterFactory.ConstantFormatUnchecked` | src/main/java/org/apache/commons/text/TokenFormatterFactory.java:56-77 | With checking off, `format` never throws and returns the constant. |
| `TokenFormatterFactory.ConstantFormatReturnsConstant` | src/main/java/org/apache/commons/text/TokenFormatterFactory.java:76 | When `format` does not throw, it returns the constant, whatever the token, the prior token and the index. |
| `TokenFormatterFactory.ConstantFormatChecked` | src/main/java/org/apache/commons/text/TokenFormatterFactory.java:57-73 | With checking on, `format` returns the constant if and only if no start position is a full match or an overrun. Otherwise the first such position `h` decides: a full match throws with the token index and `h + \|constant\|`, and an overrun is an out-of-range read. |
| `TokenFormatterFactory.ContainingTokenRejected` | src/main/java/org/apache/commons/text/TokenFormatterFactory.java:58-72 | With checking on, a token that contains the constant always makes `format` throw. |
| `TokenFormatterFactory.EmptyConstantNeverThrows` | src/main/java/org/apache/commons/text/TokenFormatterFactory.java:61-70 | An empty constant never matches, so `format` returns `""` whatever the flag. |
| `TokenFormatterFactory.EmptyFormatter` | src/main/java/org/apache/commons/text/TokenFormatterFactory.java:111-113 | `emptyFormatter()` is a constant formatter for `""` with checking off. |
| `TokenFormatterFactory.EmptyFormatterAlwaysEmpty` | src/main/java/org/apache/commons/text/TokenFormatterFactory.java:97 | A constant formatter for `""`, in either flag state, always returns `""`. |
| `TokenFormatterFactory.ConstantFormatter` | src/main/java/org/apache/commons/text/TokenFormatterFactory.java:103-105 | `constantFormatter(char[], boolean)` gives a new formatter with that state. |
| `TokenFormatterFactory.ConstantCharFormatter` | src/main/java/org/apache/commons/text/TokenFormatterFactory.java:107-109 | `constantFormatter(char, boolean)` gives a new formatter with that state. |
| `TokenStringifier.TokenStringifier.constructor` | src/main/java/org/apache/commons/text/TokenStringifier.java:37-41 | Installs the two formatters. No tokens are set and nothing is cached. |
| `TokenStringifier.TokenStringifier.Default` | src/main/java/org/apache/commons/text/TokenStringifier.java:49-52 | Both formatters are the no-op formatter. No tokens are set and nothing is cached. |
| `TokenStringifier.TokenStringifier.Reset` | src/main/java/org/apache/commons/text/TokenStringifier.java:43-47 | Installs the tokens, clears the cached string and leaves both formatters unchanged. |
| `TokenStringifier.TokenStringifier.Stringify` | src/main/java/org/apache/commons/text/TokenStringifier.java:54-73 | The builder loop returns exactly `Join` of the formatters' current behaviour and the tokens. The result is cached only when no formatter throws. |
| `TokenStringifier.TokenStringifier.GetString` | src/main/java/org/apache/commons/text/TokenStringifier.java:75-80 | With a cached string, returns it and calls no formatter. Otherwise returns `Join` and caches the result if no formatter threw. After a formatter throws, nothing is cached. |
| `TokenStringifier.JoinDeterminedByCalls` | src/main/java/org/apache/commons/text/TokenStringifier.java:56-70 | The output depends only on each formatter's result for prior token `null` and index equal to the token's 0-based position. A `null` result and `""` are interchangeable. |
| `TokenStringifier.PriorTokenAlwaysNull` | src/main/java/org/apache/commons/text/TokenStringifier.java:56-66 | Formatters that return the prior token they receive add nothing, for any tokens, so they always receive `null`. |
| `TokenStringifier.NullDelimiterOmitsDelimiters` | src/main/java/org/apache/commons/text/TokenStringifier.java:60-69 | An always-`null` delimiter formatter gives the token formatter's outputs concatenated with no delimiter. |
| `TokenStringifier.NullDelimiterSameAsEmpty` | src/main/java/org/apache/commons/text/TokenStringifier.java:61-64 | An always-`null` delimiter formatter gives the same output as the always-`""` constant formatter, for any token count. |
| `TokenStringifier.DefaultJoinDuplicates` | src/main/java/org/apache/commons/text/TokenStringifier.java:58-71 | With no-op formatters, token 0 is emitted once and every later token twice: once as the delimiter and once as itself. |
| `TokenStringifier.DefaultJoinExample` | src/main/java/org/apache/commons/text/TokenStringifier.java:49-52 | With the default formatters, `["a","b","c"]` gives `"abbcc"`. |
| `TokenStringifier.DashJoinExample` | src/main/java/org/apache/commons/text/TokenStringifier.java:58-72 | With a `"-"` constant delimiter and no-op tokens, `["a","b-c"]` joins to `"a-b-c"` when checking is off. With checking on, the delimiter call for token 1 throws at index 2. |
| `TokenStringifier.CachedResultSurvivesFormatterChange` | src/main/java/org/apache/commons/text/TokenStringifier.java:75-80 | A second `getString` with no `reset` in between returns the first result, even after the delimiter formatter was switched so that it would now throw. After a `reset`, the result is computed again and the throw happens. |

## Left out

- `CamelCase` and its base class `UpperCaseDelimitedCase` are not part of this model. The base class is not available, and `CamelCase` itself only calls `super(true)`.
- Unicode case tables: `Character.isUpperCase`, `isLowerCase`, `toUpperCase` and `toLowerCase` are platform tables, so they are a `CaseTable` parameter. Only the `Ascii` table is given concretely.
- UTF-16: strings are sequences of code points, so `codePointAt`/`charCount` stepping is one position per code point. The index in a `format` error is therefore the code point's position in its token, while Java reports a UTF-16 offset. The parse buffer has `|s|` code points, while Java uses the UTF-16 length, which is at least as large.
- Exception messages: `createExceptionString` and the formatter's message text are not built. Their parts are carried as data instead: `InvalidCodePoint(codePoint, index, reason)`, `EmptyToken(tokenIndex)`, `ConstantFound(tokenIndex, constant, index)` and `IndexOutOfBounds(index, length)`.
- The `TokenFormatter` interface is not shown. Formatters form a closed set: no-op, a constant formatter object, or any other formatter given as a pure function of (prior token, index, token). Such a function cannot keep its own state.
- `TokenStringifier.GetString`: calling it before any `reset` gives a `NullPointerException` in Java, because `tokens` is `null`. The model instead requires that tokens have been set. Formatters passed as `null` are not modelled either.
- `TokenStringifier` keeps the `Iterable` it was given, so a list changed after `reset` would change the output. The model stores the token sequence as a value.
- The `builder` field of `TokenStringifier` is a local of `Stringify`. Nothing outside `stringify` reads it, and `reset` only clears it.
- `ConstantTokenFormatter(char[], boolean)` keeps the caller's array, so later writes to that array would change the constant. The model stores the constant as a value.
- EmptyFormatter: returns a fresh object in the `("", false)` state, while Java returns one shared instance. Changing that shared instance's flag would be visible to all of its users, and this is not modelled (for the empty constant, the flag has no effect anyway).
- `PascalCase.INSTANCE` and the private constructor: PascalCase is stateless, so its operations are module-level members.
