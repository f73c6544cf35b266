/**
  The few Python string operations the renderer relies on: `' ' * n`,
  `str.ljust`, `max(len(f) for f in names, default=0)`, `str.lower` as far
  as the choice of output format needs it, and counting line breaks.
*/
module Text {

  /** `c * n` for a one-character string `c`. */
  function Repeat(c: char, n: nat): (r: string)
    ensures |r| == n
    ensures forall i :: 0 <= i < n ==> r[i] == c
  {
    seq(n, _ => c)
  }

  /** `s.ljust(w)`: `s` padded on the right with blanks to width `w`; never truncated. */
  function LJust(s: string, w: nat): (r: string)
    ensures |r| == if |s| < w then w else |s|
    ensures r[..|s|] == s
    ensures forall i :: |s| <= i < |r| ==> r[i] == ' '
  {
    if |s| < w then s + Repeat(' ', w - |s|) else s
  }

  /** `max((len(f) for f in names), default=0)`. */
  function MaxLen(names: seq<string>): (w: nat)
    ensures forall i :: 0 <= i < |names| ==> |names[i]| <= w
    ensures |names| == 0 ==> w == 0
    ensures |names| > 0 ==> exists i :: 0 <= i < |names| && |names[i]| == w
  {
    if |names| == 0 then 0
    else
      var w0 := MaxLen(names[..|names| - 1]);
      var last := names[|names| - 1];
      assert forall i :: 0 <= i < |names| - 1 ==> names[..|names| - 1][i] == names[i];
      if |last| > w0 then |last| else w0
  }

  /** What `str.lower` makes of one character, for every character whose
      lower case is an ASCII letter: the ASCII capitals and KELVIN SIGN. */
  function LowerChar(c: char): (d: char)
    ensures 'a' <= d <= 'z' <==> 'a' <= c <= 'z' || 'A' <= c <= 'Z' || c == '\U{212A}'
    ensures 'a' <= c <= 'z' ==> d == c
  {
    if 'A' <= c <= 'Z' then (c as int + 32) as char
    else if c == '\U{212A}' then 'k'
    else c
  }

  function Lower(s: string): (r: string)
    ensures |r| == |s|
    ensures forall i :: 0 <= i < |s| ==> r[i] == LowerChar(s[i])
  {
    seq(|s|, i requires 0 <= i < |s| => LowerChar(s[i]))
  }

  /** `format.lower() in ('md', 'markdown')`. */
  predicate IsMarkdown(format: string)
    ensures IsMarkdown(format) ==> |format| == 2 || |format| == 8
  {
    Lower(format) == "md" || Lower(format) == "markdown"
  }

  /** `c` is the lower-case ASCII letter `t` in either case (or the Kelvin sign for `k`). */
  predicate SameLetter(c: char, t: char)
    requires 'a' <= t <= 'z'
  {
    c == t || c as int == t as int - 32 || (t == 'k' && c == '\U{212A}')
  }

  /** `s` spells the lower-case word `word` ignoring case. */
  predicate EqualsIgnoringCase(s: string, word: string)
    requires forall i :: 0 <= i < |word| ==> 'a' <= word[i] <= 'z'
  {
    |s| == |word| && forall i :: 0 <= i < |s| ==> SameLetter(s[i], word[i])
  }

  lemma LowerCharIsLetter(c: char, t: char)
    requires 'a' <= t <= 'z'
    ensures LowerChar(c) == t <==> SameLetter(c, t)
  {
  }

  /** The Markdown format is selected exactly by "md" or "markdown" in any mix of cases. */
  lemma MarkdownSelector(format: string)
    ensures IsMarkdown(format) <==>
      EqualsIgnoringCase(format, "md") || EqualsIgnoringCase(format, "markdown")
  {
    var low := Lower(format);
    forall word: string | word == "md" || word == "markdown"
      ensures low == word <==> EqualsIgnoringCase(format, word)
    {
      if |format| == |word| {
        forall i | 0 <= i < |format|
          ensures low[i] == word[i] <==> SameLetter(format[i], word[i])
        {
          LowerCharIsLetter(format[i], word[i]);
        }
      }
    }
  }

  /** `s * n` for a string `s`. */
  function RepeatString(s: string, n: nat): (r: string)
    ensures |r| == n * |s|
  {
    if n == 0 then "" else RepeatString(s, n - 1) + s
  }

  /** The number of times character `c` occurs in `s` (`s.count(c)`). */
  function Occurrences(c: char, s: string): nat
  {
    if |s| == 0 then 0 else Occurrences(c, s[..|s| - 1]) + (if s[|s| - 1] == c then 1 else 0)
  }

  lemma {:induction false} OccurrencesAppend(c: char, a: string, b: string)
    ensures Occurrences(c, a + b) == Occurrences(c, a) + Occurrences(c, b)
    decreases |b|
  {
    if |b| > 0 {
      assert (a + b)[..|a + b| - 1] == a + b[..|b| - 1];
      OccurrencesAppend(c, a, b[..|b| - 1]);
    } else {
      assert a + b == a;
    }
  }

  /** A string without the character has no occurrence of it. */
  lemma {:induction false} NoOccurrences(c: char, s: string)
    requires c !in s
    ensures Occurrences(c, s) == 0
    decreases |s|
  {
    if |s| > 0 {
      NoOccurrences(c, s[..|s| - 1]);
    }
  }

  lemma {:induction false} OccurrencesRepeat(c: char, s: string, n: nat)
    ensures Occurrences(c, RepeatString(s, n)) == n * Occurrences(c, s)
  {
    if n > 0 {
      var k := Occurrences(c, s);
      OccurrencesRepeat(c, s, n - 1);
      OccurrencesAppend(c, RepeatString(s, n - 1), s);
      assert (n - 1) * k + k == n * k;
    }
  }
}
