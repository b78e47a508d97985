/**
 * The character classification and case mappings the case conventions rely on
 * (`Character.isUpperCase`, `isLowerCase`, `toUpperCase`, `toLowerCase` on code points).
 * They belong to the platform's Unicode tables, so the model takes them as a parameter:
 * every property proved about PascalCase holds for any table. `Ascii` is one concrete table.
 */
module CaseTables {

  /** Code points are integers; a string is a sequence of code points. */
  type CodePoint = int

  datatype CaseTable = CaseTable(
    isUpperCase: CodePoint -> bool,
    isLowerCase: CodePoint -> bool,
    toUpperCase: CodePoint -> CodePoint,
    toLowerCase: CodePoint -> CodePoint)

  /** A table whose lowercase and uppercase classes do not overlap. */
  ghost predicate DisjointCases(ct: CaseTable) {
    forall c :: ct.isLowerCase(c) ==> !ct.isUpperCase(c)
  }

  predicate IsAsciiUpper(c: CodePoint) { 'A' as int <= c <= 'Z' as int }

  predicate IsAsciiLower(c: CodePoint) { 'a' as int <= c <= 'z' as int }

  function AsciiToUpper(c: CodePoint): (u: CodePoint)
    ensures IsAsciiLower(c) ==> IsAsciiUpper(u) && u != c
    ensures !IsAsciiLower(c) ==> u == c
  {
    if IsAsciiLower(c) then c - 32 else c
  }

  function AsciiToLower(c: CodePoint): (l: CodePoint)
    ensures IsAsciiUpper(c) ==> IsAsciiLower(l) && l != c
    ensures !IsAsciiUpper(c) ==> l == c
  {
    if IsAsciiUpper(c) then c + 32 else c
  }

  /** The table restricted to the Basic Latin letters; every other code point is uncased. */
  const Ascii: CaseTable := CaseTable(IsAsciiUpper, IsAsciiLower, AsciiToUpper, AsciiToLower)

  lemma AsciiHasDisjointCases()
    ensures DisjointCases(Ascii)
  {
  }

  /** The code points of a string made of characters outside the surrogate range. */
  function CodePoints(s: string): (r: seq<CodePoint>)
    ensures |r| == |s|
    ensures forall i :: 0 <= i < |s| ==> r[i] == s[i] as int
  {
    seq(|s|, i requires 0 <= i < |s| => s[i] as int)
  }
}
