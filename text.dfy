/** The string operations the checks rely on: lower-casing, substring search, `some` over a keyword
    list, and rendering a non-negative integer in a radix (`Number.prototype.toString`). */
module Text {

  /** Lower-casing of one character, on the ASCII letters A-Z. */
  function LowerChar(c: char): (r: char)
    ensures !('A' <= r <= 'Z')
    ensures 'A' <= c <= 'Z' ==> r as int == c as int + 32
    ensures !('A' <= c <= 'Z') ==> r == c
  {
    if 'A' <= c <= 'Z' then (c as int - 'A' as int + 'a' as int) as char else c
  }

  /** Lower-casing is case-insensitive matching: a character lowercases to the letter `x` exactly when it is
      `x` or the matching capital. */
  lemma LowerCharMatches(c: char, x: char)
    requires 'a' <= x <= 'z'
    ensures LowerChar(c) == x <==> c == x || c as int == x as int - 32
  {
  }

  /** `String.prototype.toLowerCase`, restricted to ASCII letters. */
  function ToLower(s: string): (r: string)
    ensures |r| == |s|
    ensures forall i :: 0 <= i < |s| ==> r[i] == LowerChar(s[i])
  {
    if s == [] then [] else [LowerChar(s[0])] + ToLower(s[1..])
  }

  lemma {:induction false} ToLowerIdempotent(s: string)
    ensures ToLower(ToLower(s)) == ToLower(s)
  {
    var once := ToLower(s);
    var twice := ToLower(once);
    assert |twice| == |once|;
    forall i | 0 <= i < |once| ensures twice[i] == once[i] {
      assert twice[i] == LowerChar(once[i]);
    }
  }

  /** `k` occurs in `s` starting at index `i`. */
  ghost predicate OccursAt(s: string, k: string, i: int)
  {
    0 <= i && i + |k| <= |s| && s[i..i + |k|] == k
  }

  lemma OccursAtTail(s: string, k: string)
    requires |s| > 0
    ensures forall i :: 0 <= i ==> (OccursAt(s[1..], k, i) <==> OccursAt(s, k, i + 1))
  {
    forall i | 0 <= i ensures OccursAt(s[1..], k, i) <==> OccursAt(s, k, i + 1) {
      if 0 <= i && i + |k| <= |s| - 1 {
        assert s[1..][i..i + |k|] == s[i + 1..i + 1 + |k|];
      }
    }
  }

  /** `String.prototype.includes`: the empty string occurs in every string. */
  function Includes(s: string, k: string): (r: bool)
    ensures r <==> exists i :: OccursAt(s, k, i)
    decreases |s|
  {
    if |k| > |s| then
      assert forall i :: !OccursAt(s, k, i);
      false
    else if s[..|k|] == k then
      assert OccursAt(s, k, 0);
      true
    else
      OccursAtTail(s, k);
      assert !OccursAt(s, k, 0);
      assert forall i :: OccursAt(s, k, i) ==> OccursAt(s[1..], k, i - 1);
      Includes(s[1..], k)
  }

  /** `keywords.some(k => s.includes(k))`. */
  function IncludesAny(s: string, keywords: seq<string>): (r: bool)
    ensures r <==> exists j :: 0 <= j < |keywords| && Includes(s, keywords[j])
  {
    if keywords == [] then false
    else Includes(s, keywords[0]) || IncludesAny(s, keywords[1..])
  }

  /** The digit character for a value below 36, the alphabet `toString(radix)` uses. */
  function DigitChar(d: nat): (c: char)
    requires d < 36
    ensures DigitValue(c) == d
  {
    if d < 10 then ('0' as int + d) as char else ('a' as int + d - 10) as char
  }

  /** The value of a digit character; 36 for a character that is no digit. */
  function DigitValue(c: char): nat
  {
    if '0' <= c <= '9' then c as int - '0' as int
    else if 'a' <= c <= 'z' then c as int - 'a' as int + 10
    else 36
  }

  lemma DivideByRadix(n: nat, radix: nat)
    requires 2 <= radix <= n
    ensures 1 <= n / radix < n
    ensures n % radix < radix
    ensures n == (n / radix) * radix + n % radix
  {
  }

  /** `n.toString(radix)` for a non-negative integer `n`. */
  function NumberToString(n: nat, radix: nat): (r: string)
    requires 2 <= radix <= 36
    ensures |r| >= 1
    ensures forall i :: 0 <= i < |r| ==> DigitValue(r[i]) < radix
    ensures r[0] == '0' <==> n == 0
    ensures n < radix <==> |r| == 1
    decreases n
  {
    if n < radix then [DigitChar(n)]
    else
      DivideByRadix(n, radix);
      NumberToString(n / radix, radix) + [DigitChar(n % radix)]
  }

  /** Reads digits in the given radix, most significant first. */
  function ParseDigits(s: string, radix: nat): nat
  {
    if s == [] then 0 else ParseDigits(s[..|s| - 1], radix) * radix + DigitValue(s[|s| - 1])
  }

  lemma {:induction false} ParseNumberToString(n: nat, radix: nat)
    requires 2 <= radix <= 36
    ensures ParseDigits(NumberToString(n, radix), radix) == n
  {
    var r := NumberToString(n, radix);
    if n >= radix {
      DivideByRadix(n, radix);
      ParseNumberToString(n / radix, radix);
      assert r[..|r| - 1] == NumberToString(n / radix, radix);
    }
  }

  /** The decimal rendering a template literal gives a non-negative integer. */
  function Decimal(n: nat): (r: string)
    ensures ParseDigits(r, 10) == n
    ensures forall i :: 0 <= i < |r| ==> '0' <= r[i] <= '9'
    ensures |r| >= 1 && (r[0] == '0' <==> n == 0)
  {
    ParseNumberToString(n, 10);
    NumberToString(n, 10)
  }

  /** The decimal text of a single digit is that digit's character. */
  lemma DecimalDigit(n: nat)
    requires n < 10
    ensures Decimal(n) == [('0' as int + n) as char]
  {
    assert NumberToString(n, 10) == [DigitChar(n)];
  }

  /** `lines.join('\n')`. */
  function JoinLines(lines: seq<string>): (r: string)
    ensures lines == [] ==> r == ""
    ensures |lines| == 1 ==> r == lines[0]
    ensures |r| >= |lines| - 1
  {
    if lines == [] then ""
    else if |lines| == 1 then lines[0]
    else lines[0] + "\n" + JoinLines(lines[1..])
  }

  /** Joining two non-empty lists of lines is joining each and putting one newline between them, so
      the lines appear in order, separated by single newlines. */
  lemma {:induction false} JoinLinesAppend(a: seq<string>, b: seq<string>)
    requires a != [] && b != []
    ensures JoinLines(a + b) == JoinLines(a) + "\n" + JoinLines(b)
  {
    if |a| == 1 {
      assert (a + b)[1..] == b;
    } else {
      assert (a + b)[1..] == a[1..] + b;
      JoinLinesAppend(a[1..], b);
    }
  }
}
