/** Character-level helpers the C library and bstrlib provide to the sources: decimal numbers,
    words, and splitting at delimiters. */
module Text {

  predicate IsDigit(c: char) {
    '0' <= c <= '9'
  }

  /** isspace(3) in the C locale. */
  predicate IsSpace(c: char) {
    c == ' ' || '\t' <= c <= '\r'
  }

  const NUL: char := '\0'

  function DigitChar(d: nat): (c: char)
    requires d < 10
    ensures IsDigit(c) && c as int - '0' as int == d
  {
    ('0' as int + d) as char
  }

  predicate AllDigits(s: string) {
    forall i :: 0 <= i < |s| ==> IsDigit(s[i])
  }

  /** The decimal digits of `n`, as printf's %d and %ld write them. */
  function Decimal(n: nat): (s: string)
    ensures |s| > 0 && AllDigits(s)
  {
    if n < 10 then [DigitChar(n)] else Decimal(n / 10) + [DigitChar(n % 10)]
  }

  /** The number a string of digits denotes. */
  function Value(s: string): nat
    requires AllDigits(s)
  {
    if s == [] then 0 else Value(s[..|s| - 1]) * 10 + (s[|s| - 1] as int - '0' as int)
  }

  lemma {:induction false} ValueOfDecimal(n: nat)
    ensures Value(Decimal(n)) == n
  {
    var s := Decimal(n);
    if n >= 10 {
      ValueOfDecimal(n / 10);
      assert s[..|s| - 1] == Decimal(n / 10);
    } else {
      assert s[..0] == [];
    }
  }

  /** How many leading characters of `s` are digits. */
  function DigitRun(s: string): (n: nat)
    ensures n <= |s| && AllDigits(s[..n])
    ensures n < |s| ==> !IsDigit(s[n])
  {
    if s == [] || !IsDigit(s[0]) then 0 else
    var n := DigitRun(s[1..]);
    assert forall i :: 0 < i < n + 1 ==> s[i] == s[1..][i - 1];
    1 + n
  }

  lemma DigitRunOf(digits: string, rest: string)
    requires AllDigits(digits) && (rest == [] || !IsDigit(rest[0]))
    ensures DigitRun(digits + rest) == |digits|
  {
    var s := digits + rest;
    var n := DigitRun(s);
    assert forall i :: 0 <= i < n ==> IsDigit(s[..n][i]) && s[i] == s[..n][i];
    assert forall i :: 0 <= i < |digits| ==> IsDigit(digits[i]) && s[i] == digits[i];
    assert |digits| < |s| ==> s[|digits|] == rest[0];
  }

  /** The last place where `c` stands in `s`, or -1: strrchr and bstrrchr. */
  function LastIndex(s: string, c: char): (i: int)
    ensures -1 <= i < |s|
    ensures i >= 0 ==> s[i] == c
    ensures forall j :: i < j < |s| ==> s[j] != c
  {
    if s == [] then -1 else if s[|s| - 1] == c then |s| - 1 else LastIndex(s[..|s| - 1], c)
  }

  /** Splitting at every character of `delimiters`, as bsplits does: one more piece than delimiters. */
  function Split(s: string, delimiters: set<char>): (r: seq<string>)
    ensures |r| > 0
  {
    if s == [] then [[]] else
    var rest := Split(s[1..], delimiters);
    if s[0] in delimiters then [[]] + rest else [[s[0]] + rest[0]] + rest[1..]
  }

  predicate Avoids(s: string, delimiters: set<char>) {
    forall i :: 0 <= i < |s| ==> s[i] !in delimiters
  }

  /** A piece without delimiters is never split. */
  lemma {:induction false} SplitWhole(s: string, delimiters: set<char>)
    requires Avoids(s, delimiters)
    ensures Split(s, delimiters) == [s]
  {
    if s != [] {
      SplitWhole(s[1..], delimiters);
      assert s == [s[0]] + s[1..];
    }
  }

  /** A piece, a delimiter, the rest: the piece is split off. */
  lemma {:induction false} SplitFirst(piece: string, d: char, rest: string, delimiters: set<char>)
    requires Avoids(piece, delimiters) && d in delimiters
    ensures Split(piece + [d] + rest, delimiters) == [piece] + Split(rest, delimiters)
  {
    var s := piece + [d] + rest;
    if piece == [] {
      assert s[1..] == rest;
    } else {
      SplitFirst(piece[1..], d, rest, delimiters);
      assert s[1..] == piece[1..] + [d] + rest;
      assert piece == [piece[0]] + piece[1..];
    }
  }
}
