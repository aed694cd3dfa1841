/**
 * The utility functions: a case- and whitespace-insensitive palindrome test,
 * the maximum of a list, capitalisation through a regular expression, a
 * checked division and the first n Fibonacci numbers.
 */
module Utils {
  import opened Wrappers
  import opened Js

  // ---------------------------------------------------------------------------
  // Characters

  /**
   * JavaScript's `\s`: the WhiteSpace and LineTerminator code points of
   * ECMAScript (tab, line feed, vertical tab, form feed, carriage return,
   * space, no-break space, the Unicode space separators, the line and
   * paragraph separators and the byte order mark).
   */
  predicate IsWhitespace(c: char) {
    c == '\t' || c == '\n' || c == '\U{B}' || c == '\U{C}' || c == '\r' || c == ' '
    || c == '\U{A0}' || c == '\U{1680}' || ('\U{2000}' <= c <= '\U{200A}')
    || c == '\U{2028}' || c == '\U{2029}' || c == '\U{202F}' || c == '\U{205F}'
    || c == '\U{3000}' || c == '\U{FEFF}'
  }

  /** The characters a regular expression's `.` does not match (without the `s` flag). */
  predicate IsLineTerminator(c: char) {
    c == '\n' || c == '\r' || c == '\U{2028}' || c == '\U{2029}'
  }

  /** Letters and digits are not whitespace; every line terminator is. */
  lemma WhitespaceClasses(c: char)
    ensures ('0' <= c <= '9' || 'A' <= c <= 'Z' || 'a' <= c <= 'z') ==> !IsWhitespace(c)
    ensures IsLineTerminator(c) ==> IsWhitespace(c)
  {
  }

  /** `toLowerCase` on one character, for the ASCII letters. */
  function LowerChar(c: char): char {
    if 'A' <= c <= 'Z' then (c as int + 32) as char else c
  }

  /** `toUpperCase` on one character, for the ASCII letters. */
  function UpperChar(c: char): char {
    if 'a' <= c <= 'z' then (c as int - 32) as char else c
  }

  /** `str.toLowerCase()`: same length, no ASCII capital left, every other character unchanged. */
  function Lower(s: string): (r: string)
    ensures |r| == |s|
    ensures forall i :: 0 <= i < |r| ==> !('A' <= r[i] <= 'Z')
    ensures forall i :: 0 <= i < |s| && !('A' <= s[i] <= 'Z') ==> r[i] == s[i]
  {
    seq(|s|, i requires 0 <= i < |s| => LowerChar(s[i]))
  }

  /** `str.toUpperCase()`: same length, no ASCII small letter left, every other character unchanged. */
  function Upper(s: string): (r: string)
    ensures |r| == |s|
    ensures forall i :: 0 <= i < |r| ==> !('a' <= r[i] <= 'z')
    ensures forall i :: 0 <= i < |s| && !('a' <= s[i] <= 'z') ==> r[i] == s[i]
  {
    seq(|s|, i requires 0 <= i < |s| => UpperChar(s[i]))
  }

  /** Both mappings work character by character. */
  lemma CaseMappedAt(s: string)
    ensures forall i :: 0 <= i < |s| ==> Lower(s)[i] == LowerChar(s[i]) && Upper(s)[i] == UpperChar(s[i])
  {
  }

  /** Lower-casing a concatenation lower-cases each part. */
  lemma LowerAppend(s: string, t: string)
    ensures Lower(s + t) == Lower(s) + Lower(t)
  {
  }

  /** Lower-casing after upper-casing is lower-casing: the two forget case alike. */
  lemma LowerOfUpper(s: string)
    ensures Lower(Upper(s)) == Lower(s)
  {
  }

  // ---------------------------------------------------------------------------
  // isPalindrome

  /** `str.replace(/\s/g, '')` */
  function RemoveWhitespace(s: string): (r: string)
    ensures forall i :: 0 <= i < |r| ==> !IsWhitespace(r[i])
  {
    if s == [] then []
    else (if IsWhitespace(s[0]) then [] else [s[0]]) + RemoveWhitespace(s[1..])
  }

  /** A string without whitespace comes back unchanged. */
  lemma {:induction false} NoWhitespaceUnchanged(s: string)
    requires forall i :: 0 <= i < |s| ==> !IsWhitespace(s[i])
    ensures RemoveWhitespace(s) == s
  {
    if s != [] {
      NoWhitespaceUnchanged(s[1..]);
    }
  }

  /** Every character that is not whitespace survives, as many times as it occurs. */
  lemma {:induction false} RemoveWhitespaceKeepsOthers(s: string)
    ensures forall c :: multiset(RemoveWhitespace(s))[c] == if IsWhitespace(c) then 0 else multiset(s)[c]
  {
    if s != [] {
      RemoveWhitespaceKeepsOthers(s[1..]);
      assert s == [s[0]] + s[1..];
    }
  }

  /** `s.split('').reverse().join('')`: the same characters, as many times each. */
  function Reverse(s: string): (r: string)
    ensures |r| == |s| && multiset(r) == multiset(s)
  {
    if s == [] then []
    else
      assert s == [s[0]] + s[1..];
      Reverse(s[1..]) + [s[0]]
  }

  /** The reversed string holds the characters of `s` from the last to the first. */
  lemma {:induction false} ReverseAt(s: string)
    ensures |Reverse(s)| == |s|
    ensures forall i :: 0 <= i < |s| ==> Reverse(s)[i] == s[|s| - 1 - i]
  {
    if s != [] {
      ReverseAt(s[1..]);
    }
  }

  /** A string that reads the same from both ends, stated index by index. */
  predicate IsMirrored(s: string) {
    forall i :: 0 <= i < |s| ==> s[i] == s[|s| - 1 - i]
  }

  /** The string `isPalindrome` compares with its reverse. */
  function Cleaned(str: string): string {
    RemoveWhitespace(Lower(str))
  }

  /** `isPalindrome`: lower-case, drop all whitespace, compare with the reverse. */
  function IsPalindrome(str: string): (r: bool)
    ensures r <==> IsMirrored(Cleaned(str))
  {
    var clean := Cleaned(str);
    ReverseAt(clean);
    clean == Reverse(clean)
  }

  /** Removing whitespace from a concatenation removes it from each part. */
  lemma {:induction false} RemoveWhitespaceAppend(s: string, t: string)
    ensures RemoveWhitespace(s + t) == RemoveWhitespace(s) + RemoveWhitespace(t)
  {
    if s != [] {
      assert (s + t)[1..] == s[1..] + t;
      RemoveWhitespaceAppend(s[1..], t);
    } else {
      assert s + t == t;
    }
  }

  /** A string made only of whitespace (and the empty string) is a palindrome. */
  lemma {:induction false} WhitespaceOnlyIsPalindrome(str: string)
    requires forall i :: 0 <= i < |str| ==> IsWhitespace(str[i])
    ensures IsPalindrome(str)
  {
    WhitespaceRemoved(Lower(str));
  }

  lemma {:induction false} WhitespaceRemoved(s: string)
    requires forall i :: 0 <= i < |s| ==> IsWhitespace(s[i])
    ensures RemoveWhitespace(s) == []
  {
    if s != [] {
      WhitespaceRemoved(s[1..]);
    }
  }

  /** Removing whitespace also removes a whitespace character standing between two parts. */
  lemma RemoveWhitespaceSkips(a: string, c: char, b: string)
    requires IsWhitespace(c)
    ensures RemoveWhitespace(a + [c] + b) == RemoveWhitespace(a + b)
  {
    RemoveWhitespaceAppend(a + [c], b);
    RemoveWhitespaceAppend(a, [c]);
    RemoveWhitespaceAppend(a, b);
    assert RemoveWhitespace([c]) == [] + RemoveWhitespace([c][1..]);
  }

  /** Inserting a whitespace character anywhere does not change the verdict. */
  lemma InsertedWhitespaceIgnored(s: string, c: char, t: string)
    requires IsWhitespace(c)
    ensures IsPalindrome(s + [c] + t) == IsPalindrome(s + t)
  {
    LowerAppend(s + [c], t);
    LowerAppend(s, [c]);
    LowerAppend(s, t);
    WhitespaceClasses(c);
    assert Lower([c]) == [c];
    RemoveWhitespaceSkips(Lower(s), c, Lower(t));
  }

  /** The verdict ignores case: upper-casing the input does not change it. */
  lemma CaseIgnored(str: string)
    ensures IsPalindrome(Upper(str)) == IsPalindrome(str)
  {
    LowerOfUpper(str);
  }

  // ---------------------------------------------------------------------------
  // getMax

  /** The argument of `getMax`: a JavaScript array of numbers, or anything else. */
  datatype List = NotArray | Array(elems: seq<real>)

  /** `Math.max(...s)` for a non-empty list of numbers. */
  function MaxOf(s: seq<real>): (m: real)
    requires s != []
    ensures m in s
    ensures forall i :: 0 <= i < |s| ==> s[i] <= m
  {
    if |s| == 1 then s[0]
    else
      var m := MaxOf(s[1..]);
      if s[0] > m then s[0] else m
  }

  /** `getMax`: null for a non-array or an empty array, otherwise the largest element. */
  function GetMax(arr: List): (r: Option<real>)
    ensures r.None? <==> arr.NotArray? || arr.elems == []
    ensures r.Some? ==> r.value in arr.elems
    ensures r.Some? ==> forall i :: 0 <= i < |arr.elems| ==> arr.elems[i] <= r.value
  {
    if !arr.Array? || |arr.elems| == 0 then None
    else Some(MaxOf(arr.elems))
  }

  // ---------------------------------------------------------------------------
  // capitalize

  /** The three capture groups of `/^(\s*)(\S?)(.*)$/`. */
  datatype Groups = Groups(spaces: string, firstChar: string, rest: string)

  predicate AllWhitespace(s: string) {
    forall i :: 0 <= i < |s| ==> IsWhitespace(s[i])
  }

  predicate NoLineTerminator(s: string) {
    forall i :: 0 <= i < |s| ==> !IsLineTerminator(s[i])
  }

  /**
   * The pattern matches `s` with its first group ending at `i` and its second
   * at `j`: whitespace, then at most one non-whitespace character, then
   * characters that `.` matches up to the end.
   */
  predicate Splits(s: string, i: int, j: int) {
    0 <= i <= j <= |s| && j - i <= 1
    && AllWhitespace(s[..i])
    && (forall k :: i <= k < j ==> !IsWhitespace(s[k]))
    && NoLineTerminator(s[j..])
  }

  /** The length of the longest whitespace prefix of `s`. */
  function LeadingWhitespace(s: string): (n: nat)
    ensures n <= |s|
    ensures forall k :: 0 <= k < n ==> IsWhitespace(s[k])
    ensures n < |s| ==> !IsWhitespace(s[n])
  {
    if s == [] || !IsWhitespace(s[0]) then 0 else 1 + LeadingWhitespace(s[1..])
  }

  /**
   * `str.match(/^(\s*)(\S?)(.*)$/)`: the whitespace prefix, then the next
   * character, then the rest, provided the rest holds no line terminator.
   */
  function MatchPattern(s: string): (m: Option<Groups>)
    ensures m.Some? ==> m.value.spaces + m.value.firstChar + m.value.rest == s
    ensures m.Some? ==> Splits(s, |m.value.spaces|, |m.value.spaces| + |m.value.firstChar|)
  {
    var n := LeadingWhitespace(s);
    if n == |s| then
      assert s[..n] == s;
      Some(Groups(s, "", ""))
    else if NoLineTerminator(s[n + 1..]) then
      assert s[..n] + [s[n]] + s[n + 1..] == s;
      Some(Groups(s[..n], [s[n]], s[n + 1..]))
    else
      None
  }

  /**
   * The match is the one a backtracking matcher finds: it tries the longest
   * first group, then a non-empty second group, before anything else, so the
   * match is the split with the longest first group and then the longest
   * second group. There is no match exactly when no split exists.
   */
  lemma MatchIsLongestSplit(s: string)
    ensures var m := MatchPattern(s);
      m.Some? ==> forall i, j :: Splits(s, i, j) ==>
        i < |m.value.spaces| || (i == |m.value.spaces| && j <= |m.value.spaces| + |m.value.firstChar|)
    ensures MatchPattern(s).None? <==> forall i, j :: !Splits(s, i, j)
  {
    var n := LeadingWhitespace(s);
    SplitsBound(s, n);
    if n == |s| {
      assert s[..n] == s;
      assert Splits(s, n, n);
    } else if NoLineTerminator(s[n + 1..]) {
      assert Splits(s, n, n + 1);
    } else {
      NoSplitAfterLineTerminator(s, n);
    }
  }

  /** No split has a first group longer than the whitespace prefix. */
  lemma SplitsBound(s: string, n: nat)
    requires n == LeadingWhitespace(s)
    ensures forall i, j :: Splits(s, i, j) ==> i <= n && (i == n ==> j <= n + 1)
  {
  }

  /** When a line terminator follows the first non-whitespace character, nothing splits. */
  lemma NoSplitAfterLineTerminator(s: string, n: nat)
    requires n == LeadingWhitespace(s) && n < |s|
    requires !NoLineTerminator(s[n + 1..])
    ensures forall i, j :: !Splits(s, i, j)
  {
    var k :| 0 <= k < |s[n + 1..]| && IsLineTerminator(s[n + 1..][k]);
    forall i, j | 0 <= i <= j <= |s| && j - i <= 1
      ensures !Splits(s, i, j)
    {
      if i < n && j == i + 1 {
        assert IsWhitespace(s[i]);
      } else if j <= n + 1 {
        assert IsLineTerminator(s[j..][n + 1 + k - j]);
      } else {
        assert !IsWhitespace(s[..i][n]);
      }
    }
  }

  /** Capitalising the groups of a match gives the corrected function's result. */
  lemma CapitalizeMatched(str: string, g: Groups)
    requires MatchPattern(str) == Some(g)
    ensures g.spaces + (if g.firstChar != "" then Upper(g.firstChar) else "") + Lower(g.rest)
      == CapitalizeCorrected(str)
  {
    var n := LeadingWhitespace(str);
    if n < |str| {
      assert g == Groups(str[..n], [str[n]], str[n + 1..]);
      CaseMappedAt([str[n]]);
      assert Upper([str[n]]) == [UpperChar(str[n])];
    } else {
      assert g == Groups(str, "", "");
      assert Lower("") == "";
    }
  }

  /**
   * `capitalize`: the empty string stays empty; otherwise the match's
   * whitespace, its first character upper-cased and the rest lower-cased,
   * or "" when the pattern does not match.
   */
  function Capitalize(str: string): (r: string)
    ensures var n := LeadingWhitespace(str);
      r == "" <==> str == "" || (n < |str| && !NoLineTerminator(str[n + 1..]))
    ensures r != "" ==> |r| == |str|
    ensures r != "" ==> var n := LeadingWhitespace(str);
      r[..n] == str[..n]
      && (n < |str| ==> r[n] == UpperChar(str[n]))
      && forall k :: n < k < |str| ==> r[k] == LowerChar(str[k])
  {
    if str == "" then ""
    else
      match MatchPattern(str)
      case None => ""
      case Some(g) =>
        var r := g.spaces + (if g.firstChar != "" then Upper(g.firstChar) else "") + Lower(g.rest);
        CapitalizeMatched(str, g);
        r
  }

  /** A line break after the first word makes the result empty. */
  lemma CapitalizeDropsMultiline()
    ensures Capitalize("hello\nworld") == ""
    ensures Capitalize(" a\r") == ""
  {
    assert LeadingWhitespace("hello\nworld") == 0;
    assert "hello\nworld"[1..][4] == '\n';
    assert LeadingWhitespace(" a\r") == 1;
    assert " a\r"[2..][0] == '\r';
  }

  /**
   * Capitalisation as evidently intended: the same groups, with the third one
   * taken up to the end of the string whatever it holds.
   */
  function CapitalizeCorrected(str: string): (r: string)
    ensures |r| == |str|
    ensures var n := LeadingWhitespace(str);
      r[..n] == str[..n]
      && (n < |str| ==> r[n] == UpperChar(str[n]))
      && forall k :: n < k < |str| ==> r[k] == LowerChar(str[k])
  {
    var n := LeadingWhitespace(str);
    if n == |str| then str
    else
      CapitalizedLayout(str[..n], UpperChar(str[n]), str[n + 1..]);
      str[..n] + [UpperChar(str[n])] + Lower(str[n + 1..])
  }

  /** Where the parts of a capitalised string land: the prefix, the character, the lower-cased rest. */
  lemma CapitalizedLayout(p: string, c: char, t: string)
    ensures var r := p + [c] + Lower(t);
      |r| == |p| + 1 + |t| && r[..|p|] == p && r[|p|] == c
      && forall k :: |p| < k < |r| ==> r[k] == LowerChar(t[k - |p| - 1])
  {
    CaseMappedAt(t);
  }

  /** The corrected function agrees with the original wherever the original returns a non-empty string. */
  lemma CapitalizeCorrectedAgrees(str: string)
    ensures Capitalize(str) != "" ==> Capitalize(str) == CapitalizeCorrected(str)
    ensures str != "" ==> CapitalizeCorrected(str) != ""
  {
  }

  // ---------------------------------------------------------------------------
  // divide

  /**
   * `divide(a, b)`: a zero divisor is rejected first, whatever `a` is; then an
   * argument that is not a number; otherwise the quotient.
   */
  function Divide(a: Value, b: Value): (r: Result<real, Exception>)
    ensures b == Number(0.0) ==> r == Failure(Error("Division by zero"))
    ensures b != Number(0.0) && (a.NotNumber? || b.NotNumber?) ==>
      r == Failure(TypeError("Both arguments must be numbers"))
    ensures r.Success? <==> a.Number? && b.Number? && b.x != 0.0
    ensures r.Success? ==> r.value * b.x == a.x
  {
    if b == Number(0.0) then Failure(Error("Division by zero"))
    else if !a.Number? || !b.Number? then Failure(TypeError("Both arguments must be numbers"))
    else Success(a.x / b.x)
  }

  // ---------------------------------------------------------------------------
  // generateFibonacci

  function Fib(i: nat): nat {
    if i < 2 then i else Fib(i - 1) + Fib(i - 2)
  }

  /** The first `n` Fibonacci numbers: `n` of them, starting 0, 1, each the sum of the two before. */
  function FibonacciPrefix(n: nat): (s: seq<nat>)
    ensures |s| == n && FollowsRecurrence(s)
  {
    seq(n, i requires 0 <= i < n => Fib(i))
  }

  /** A shorter list of Fibonacci numbers is a prefix of a longer one. */
  lemma FibonacciPrefixExtends(n: nat, m: nat)
    requires n <= m
    ensures FibonacciPrefix(n) == FibonacciPrefix(m)[..n]
  {
  }

  /** Starts 0, 1 and every later element is the sum of the two before it. */
  predicate FollowsRecurrence(s: seq<nat>) {
    (|s| >= 1 ==> s[0] == 0)
    && (|s| >= 2 ==> s[1] == 1)
    && forall i :: 2 <= i < |s| ==> s[i] == s[i - 1] + s[i - 2]
  }

  /** A valid argument of `generateFibonacci`: a non-negative integer number. */
  predicate IsCount(n: Value) {
    n.Number? && IsInteger(n.x) && n.x >= 0.0
  }

  /**
   * `generateFibonacci(n)`: null unless `n` is a non-negative integer; then
   * the list of the first `n` Fibonacci numbers, built by pushing the sum of
   * the last two.
   */
  method GenerateFibonacci(n: Value) returns (r: Option<seq<nat>>)
    ensures r.None? <==> !IsCount(n)
    ensures r.Some? ==> |r.value| == n.x.Floor && FollowsRecurrence(r.value)
    ensures r.Some? ==> r.value == FibonacciPrefix(n.x.Floor)
  {
    if !n.Number? || !IsInteger(n.x) || n.x < 0.0 {
      return None;
    }
    var count := n.x.Floor;
    if count == 0 {
      return Some([]);
    }
    if count == 1 {
      return Some([0]);
    }
    var s: seq<nat> := [0, 1];
    var i := 2;
    while i < count
      invariant 2 <= i <= count
      invariant |s| == i
      invariant forall k :: 0 <= k < i ==> s[k] == Fib(k)
    {
      s := s + [s[i - 1] + s[i - 2]];
      i := i + 1;
    }
    assert s == FibonacciPrefix(count);
    return Some(s);
  }

  /** In a list that follows the recurrence, the element at `i` is the `i`-th Fibonacci number. */
  lemma {:induction false} RecurrenceAt(s: seq<nat>, i: nat)
    requires FollowsRecurrence(s)
    requires i < |s|
    ensures s[i] == Fib(i)
  {
    if i >= 2 {
      RecurrenceAt(s, i - 1);
      RecurrenceAt(s, i - 2);
    }
  }

  /** Every list that follows the recurrence is the list of the first Fibonacci numbers. */
  lemma RecurrenceIsFibonacci(s: seq<nat>)
    requires FollowsRecurrence(s)
    ensures s == FibonacciPrefix(|s|)
  {
    forall i | 0 <= i < |s|
      ensures s[i] == FibonacciPrefix(|s|)[i]
    {
      RecurrenceAt(s, i);
    }
  }

  /** Two lists that follow the recurrence agree on their common length: a shorter result is a prefix of a longer one. */
  lemma ResultsArePrefixes(s: seq<nat>, t: seq<nat>)
    requires FollowsRecurrence(s) && FollowsRecurrence(t)
    requires |s| <= |t|
    ensures s == t[..|s|]
  {
    RecurrenceIsFibonacci(s);
    RecurrenceIsFibonacci(t);
  }

  /** Small inputs: [] for 0, [0] for 1, and the first ten numbers for 10. */
  lemma SmallResults()
    ensures FibonacciPrefix(0) == []
    ensures FibonacciPrefix(1) == [0]
    ensures FibonacciPrefix(5) == [0, 1, 1, 2, 3]
    ensures FibonacciPrefix(10) == [0, 1, 1, 2, 3, 5, 8, 13, 21, 34]
  {
    assert Fib(2) == 1 && Fib(3) == 2 && Fib(4) == 3 && Fib(5) == 5;
    assert Fib(6) == 8 && Fib(7) == 13 && Fib(8) == 21 && Fib(9) == 34;
  }
}
