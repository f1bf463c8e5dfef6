/**
 * Text primitives with the meaning of the Kotlin standard-library calls the core relies on:
 * `startsWith`, `endsWith`, `isBlank`, `lineSequence`, `substringAfter`, `substringBefore`,
 * `joinToString`, `Int.toString` and `String.toInt`.
 */
module Text {
  import opened Wrappers

  predicate StartsWith(s: string, prefix: string) {
    |prefix| <= |s| && s[..|prefix|] == prefix
  }

  predicate EndsWith(s: string, suffix: string) {
    |suffix| <= |s| && s[|s| - |suffix|..] == suffix
  }

  lemma EndsWithAppend(s: string, t: string, p: string)
    requires EndsWith(t, p)
    ensures EndsWith(s + t, p)
  {
    assert (s + t)[|s + t| - |p|..] == t[|t| - |p|..];
  }

  lemma StartsWithTransitive(s: string, t: string, p: string)
    requires StartsWith(t, p) && StartsWith(s, t)
    ensures StartsWith(s, p)
  {
    assert s[..|p|] == s[..|t|][..|p|];
  }

  lemma StartsWithAppend(s: string, t: string, p: string)
    requires StartsWith(s, p)
    ensures StartsWith(s + t, p)
  {
    assert (s + t)[..|p|] == s[..|p|];
  }

  /** `Char.isWhitespace` on the JVM: `Character.isWhitespace` or `Character.isSpaceChar`. */
  predicate IsWhitespace(c: char) {
    || c == ' ' || c == '\t' || c == '\n' || c == '\r' || c == '\U{000B}' || c == '\U{000C}'
    || ('\U{001C}' <= c <= '\U{001F}')
    || c == '\U{00A0}' || c == '\U{1680}' || ('\U{2000}' <= c <= '\U{200A}')
    || c == '\U{2028}' || c == '\U{2029}' || c == '\U{202F}' || c == '\U{205F}' || c == '\U{3000}'
  }

  /** `isBlank`: empty or made of whitespace only. */
  predicate IsBlank(s: string) {
    forall i :: 0 <= i < |s| ==> IsWhitespace(s[i])
  }

  predicate NoLineBreak(s: string) {
    '\n' !in s
  }

  lemma NoLineBreakConcat(a: string, b: string)
    requires NoLineBreak(a) && NoLineBreak(b)
    ensures NoLineBreak(a + b)
  {
  }

  // ---------------------------------------------------------------------------
  // Lines

  /**
   * `lineSequence`, splitting at '\n': the empty text has one empty line, and a text
   * ending with '\n' has an empty last line.
   */
  function Lines(s: string): (r: seq<string>)
    ensures |r| >= 1
    ensures forall k :: 0 <= k < |r| ==> NoLineBreak(r[k])
  {
    if |s| == 0 then [""]
    else if s[0] == '\n' then [""] + Lines(s[1..])
    else
      var rest := Lines(s[1..]);
      [[s[0]] + rest[0]] + rest[1..]
  }

  /** A text without a line break is one line. */
  lemma {:induction false} LinesOfLine(s: string)
    requires NoLineBreak(s)
    ensures Lines(s) == [s]
  {
    if |s| > 0 {
      assert s[0] != '\n';
      assert NoLineBreak(s[1..]) by { assert forall i :: 0 <= i < |s| - 1 ==> s[1..][i] == s[i + 1]; }
      LinesOfLine(s[1..]);
      assert [s[0]] + s[1..] == s;
    }
  }

  /** Cutting at a line break: the lines before it, then the lines after it. */
  lemma {:induction false} LinesSplit(a: string, b: string)
    ensures Lines(a + "\n" + b) == Lines(a) + Lines(b)
  {
    if |a| == 0 {
      assert a + "\n" + b == "\n" + b;
      assert ("\n" + b)[1..] == b;
    } else {
      var s := a + "\n" + b;
      assert s[0] == a[0];
      assert s[1..] == a[1..] + "\n" + b;
      LinesSplit(a[1..], b);
    }
  }

  /** One line followed by more text. */
  lemma LinesOfLineThen(a: string, rest: string)
    requires NoLineBreak(a)
    ensures Lines(a + "\n" + rest) == [a] + Lines(rest)
  {
    LinesSplit(a, rest);
    LinesOfLine(a);
  }

  /** One line, then a blank line, then more text. */
  lemma LinesOfLineThenBlank(a: string, rest: string)
    requires NoLineBreak(a)
    ensures Lines(a + "\n" + "\n" + rest) == [a, ""] + Lines(rest)
  {
    LinesOfLineThen(a, "\n" + rest);
    LinesOfLineThen("", rest);
    assert "" + "\n" + rest == "\n" + rest;
    ConcatAssoc(a + "\n", "\n", rest);
  }

  /** Two single lines followed by more text. */
  lemma LinesOfTwoThen(a: string, b: string, rest: string)
    requires NoLineBreak(a) && NoLineBreak(b)
    ensures Lines(a + "\n" + b + "\n" + rest) == [a, b] + Lines(rest)
  {
    var tail := b + "\n" + rest;
    LinesOfLineThen(b, rest);
    LinesOfLineThen(a, tail);
    assert a + "\n" + b + "\n" + rest == a + "\n" + tail;
  }

  /** Appending text never shortens the existing lines: each old line is a prefix of the new one. */
  lemma {:induction false} LinesPrefix(a: string, b: string)
    ensures |Lines(a)| <= |Lines(a + b)|
    ensures forall k :: 0 <= k < |Lines(a)| ==> StartsWith(Lines(a + b)[k], Lines(a)[k])
  {
    if |a| > 0 {
      var s := a + b;
      assert s[0] == a[0];
      assert s[1..] == a[1..] + b;
      LinesPrefix(a[1..], b);
      if a[0] != '\n' {
        LinesPrefixStep(a, b);
      }
    }
  }

  /** The inductive step of `LinesPrefix` when the first character is not a line break. */
  lemma LinesPrefixStep(a: string, b: string)
    requires |a| > 0 && a[0] != '\n'
    requires |Lines(a[1..])| <= |Lines(a[1..] + b)|
    requires forall k :: 0 <= k < |Lines(a[1..])| ==> StartsWith(Lines(a[1..] + b)[k], Lines(a[1..])[k])
    ensures |Lines(a)| <= |Lines(a + b)|
    ensures forall k :: 0 <= k < |Lines(a)| ==> StartsWith(Lines(a + b)[k], Lines(a)[k])
  {
    var s := a + b;
    assert s[0] == a[0];
    assert s[1..] == a[1..] + b;
    var la, ls := Lines(a[1..]), Lines(a[1..] + b);
    assert Lines(a) == [[a[0]] + la[0]] + la[1..];
    assert Lines(s) == [[a[0]] + ls[0]] + ls[1..];
    assert StartsWith(ls[0], la[0]);
    assert ([a[0]] + ls[0])[..|[a[0]] + la[0]|] == [a[0]] + ls[0][..|la[0]|];
    forall k | 1 <= k < |Lines(a)|
      ensures StartsWith(Lines(s)[k], Lines(a)[k])
    {
      assert Lines(a)[k] == la[k] && Lines(s)[k] == ls[k];
    }
  }

  /** The first line of `p + rest` begins with `p` when `p` has no line break. */
  lemma FirstLineStartsWith(p: string, rest: string)
    requires NoLineBreak(p)
    ensures StartsWith(Lines(p + rest)[0], p)
  {
    LinesOfLine(p);
    LinesPrefix(p, rest);
  }

  // ---------------------------------------------------------------------------
  // Joining

  /** `joinToString(separator)` over texts. */
  function Join(parts: seq<string>, sep: string): string {
    if |parts| == 0 then ""
    else if |parts| == 1 then parts[0]
    else parts[0] + sep + Join(parts[1..], sep)
  }

  /** A join of two or more parts opens with the first part and a separator. */
  lemma JoinOpensWith(parts: seq<string>, sep: string)
    requires |parts| >= 2
    ensures StartsWith(Join(parts, sep), parts[0] + sep)
  {
    var head, tail := parts[0] + sep, Join(parts[1..], sep);
    assert Join(parts, sep) == head + tail;
    assert (head + tail)[..|head|] == head;
  }

  /** A join of two or more parts closes with a separator and the last part. */
  lemma JoinClosesWith(parts: seq<string>, sep: string)
    requires |parts| >= 2
    ensures EndsWith(Join(parts, sep), sep + parts[|parts| - 1])
  {
    var init, last := parts[..|parts| - 1], parts[|parts| - 1];
    assert init + [last] == parts;
    JoinSnoc(init, last, sep);
    var a := Join(init, sep);
    ConcatAssoc(a, sep, [last][0]);
    var b := sep + last;
    assert (a + b)[|a + b| - |b|..] == b;
  }

  /** Joining one more element of `parts`, as a loop over it does. */
  lemma JoinPrefixStep(parts: seq<string>, i: nat, sep: string)
    requires i < |parts|
    ensures Join(parts[..i + 1], sep) == if i == 0 then parts[0] else Join(parts[..i], sep) + sep + parts[i]
  {
    assert parts[..i + 1] == parts[..i] + [parts[i]];
    if i > 0 {
      JoinSnoc(parts[..i], parts[i], sep);
    }
  }

  /** Appending one more part, as `joinToString` does element by element. */
  lemma {:induction false} JoinSnoc(parts: seq<string>, x: string, sep: string)
    requires |parts| > 0
    ensures Join(parts + [x], sep) == Join(parts, sep) + sep + x
  {
    if |parts| > 1 {
      assert (parts + [x])[1..] == parts[1..] + [x];
      JoinSnoc(parts[1..], x, sep);
    }
  }

  /** Joining lines with '\n' and splitting them again gives the lines back. */
  lemma {:induction false} LinesOfJoin(xs: seq<string>)
    requires |xs| >= 1
    requires forall k :: 0 <= k < |xs| ==> NoLineBreak(xs[k])
    ensures Lines(Join(xs, "\n")) == xs
  {
    if |xs| == 1 {
      LinesOfLine(xs[0]);
    } else {
      LinesOfJoin(xs[1..]);
      LinesOfLine(xs[0]);
      LinesSplit(xs[0], Join(xs[1..], "\n"));
    }
  }

  lemma ConcatAssoc<T>(a: seq<T>, b: seq<T>, c: seq<T>)
    ensures a + (b + c) == a + b + c
  {
  }

  lemma ConcatEmpty(a: string, b: string)
    ensures a + "" + b == a + b
  {
  }

  lemma RegroupLines(before: seq<string>, line: string, after: seq<string>)
    ensures before + [""] + ([line, ""] + (after + [""])) == before + ["", line, ""] + after + [""]
  {
  }

  /** Blocks of lines with one blank line between consecutive blocks. */
  function Stack(blocks: seq<seq<string>>): seq<string> {
    if |blocks| == 0 then []
    else if |blocks| == 1 then blocks[0]
    else blocks[0] + [""] + Stack(blocks[1..])
  }

  /** The lines of each text. */
  function LinesOfEach(xs: seq<string>): (r: seq<seq<string>>)
    ensures |r| == |xs|
    ensures forall i :: 0 <= i < |xs| ==> r[i] == Lines(xs[i])
  {
    seq(|xs|, i requires 0 <= i < |xs| => Lines(xs[i]))
  }

  /** A blank-line separator is a line break, an empty line and another line break. */
  lemma ParagraphBreak(a: string, b: string)
    ensures a + "\n\n" + b + "\n" == a + "\n" + ("" + "\n" + (b + "\n"))
  {
    assert "\n\n" == "\n" + ("" + "\n");
    ConcatAssoc(a + "\n\n", b, "\n");
    ConcatAssoc(a, "\n", "" + "\n");
    ConcatAssoc(a + "\n", "" + "\n", b + "\n");
  }

  /**
   * Texts joined with a blank line between them and terminated by a line break read back as
   * their own lines, one blank line between consecutive texts, then the empty last line.
   */
  lemma {:induction false} LinesOfParagraphs(xs: seq<string>)
    requires |xs| >= 1
    ensures Lines(Join(xs, "\n\n") + "\n") == Stack(LinesOfEach(xs)) + [""]
  {
    if |xs| == 1 {
      LinesSplit(xs[0], "");
      assert xs[0] + "\n" == xs[0] + "\n" + "";
    } else {
      var rest := Join(xs[1..], "\n\n") + "\n";
      LinesOfParagraphs(xs[1..]);
      assert LinesOfEach(xs)[1..] == LinesOfEach(xs[1..]);
      assert Join(xs, "\n\n") == xs[0] + "\n\n" + Join(xs[1..], "\n\n");
      ParagraphBreak(xs[0], Join(xs[1..], "\n\n"));
      LinesSplit(xs[0], "" + "\n" + rest);
      LinesSplit("", rest);
    }
  }

  // ---------------------------------------------------------------------------
  // Searching

  /** `d` occurs in `s` at position `j`. */
  predicate OccursAt(s: string, d: string, j: nat) {
    j + |d| <= |s| && s[j..j + |d|] == d
  }

  lemma OccursAtShift(s: string, d: string, j: nat)
    requires |s| > 0
    ensures OccursAt(s[1..], d, j) <==> OccursAt(s, d, j + 1)
  {
    if j + 1 + |d| <= |s| {
      assert s[1..][j..j + |d|] == s[j + 1..j + 1 + |d|];
    }
  }

  /** An occurrence stays where it is when text is appended. */
  lemma OccursBefore(a: string, b: string, x: string, j: nat)
    requires OccursAt(a, x, j)
    ensures OccursAt(a + b, x, j)
  {
    assert (a + b)[j..j + |x|] == a[j..j + |x|];
  }

  /** An occurrence moves by the length of the text put in front. */
  lemma OccursAfter(a: string, b: string, x: string, j: nat)
    requires OccursAt(b, x, j)
    ensures OccursAt(a + b, x, |a| + j)
  {
    assert (a + b)[|a| + j..|a| + j + |x|] == b[j..j + |x|];
  }

  /** `x` occurs somewhere in `s`. */
  ghost predicate Contains(s: string, x: string) {
    exists j: nat :: OccursAt(s, x, j)
  }

  /** Every part occurs in the joined text. */
  lemma {:induction false} JoinHasParts(parts: seq<string>, sep: string)
    ensures forall k :: 0 <= k < |parts| ==> Contains(Join(parts, sep), parts[k])
  {
    if |parts| == 1 {
      assert OccursAt(parts[0], parts[0], 0);
    } else if |parts| > 1 {
      var head, rest := parts[0] + sep, Join(parts[1..], sep);
      JoinHasParts(parts[1..], sep);
      assert Join(parts, sep) == head + rest;
      forall k | 0 <= k < |parts| ensures Contains(Join(parts, sep), parts[k]) {
        if k == 0 {
          assert (head + rest)[0..|parts[0]|] == parts[0];
          assert OccursAt(Join(parts, sep), parts[k], 0);
        } else {
          assert parts[k] == parts[1..][k - 1];
          var j: nat :| OccursAt(rest, parts[k], j);
          OccursAfter(head, rest, parts[k], j);
          assert OccursAt(Join(parts, sep), parts[k], |head| + j);
        }
      }
    }
  }

  /** `indexOf(d)`: the first position at which `d` occurs in `s`. */
  function IndexOf(s: string, d: string): (r: Option<nat>)
    ensures r.Some? ==> OccursAt(s, d, r.value)
    ensures r.Some? ==> forall j: nat :: j < r.value ==> !OccursAt(s, d, j)
    ensures r.None? ==> forall j: nat :: !OccursAt(s, d, j)
    decreases |s|
  {
    if |d| > |s| then None
    else if s[..|d|] == d then Some(0)
    else
      assert !OccursAt(s, d, 0);
      match IndexOf(s[1..], d)
      case None =>
        assert forall j: nat :: j >= 1 ==> !OccursAt(s, d, j) by {
          forall j: nat | j >= 1 ensures !OccursAt(s, d, j) { OccursAtShift(s, d, j - 1); }
        }
        None
      case Some(i) =>
        OccursAtShift(s, d, i);
        assert forall j: nat :: 1 <= j < i + 1 ==> !OccursAt(s, d, j) by {
          forall j: nat | 1 <= j < i + 1 ensures !OccursAt(s, d, j) { OccursAtShift(s, d, j - 1); }
        }
        Some(i + 1)
  }

  /** `substringAfter(d, missingDelimiterValue)`: the text after the first `d`. */
  function SubstringAfter(s: string, d: string, missing: string): (r: string)
    ensures (forall j: nat :: !OccursAt(s, d, j)) ==> r == missing
    ensures (exists j: nat :: OccursAt(s, d, j)) ==>
      && EndsWith(s, r)
      && |r| + |d| <= |s| && OccursAt(s, d, |s| - |r| - |d|)
      && forall j: nat :: j + |r| + |d| < |s| ==> !OccursAt(s, d, j)
  {
    match IndexOf(s, d)
    case Some(i) => s[i + |d|..]
    case None => missing
  }

  /** `substringBefore(c)`: the text before the first `c`, or all of it. */
  function SubstringBefore(s: string, c: char): (r: string)
    ensures StartsWith(s, r) && c !in r
    ensures |r| < |s| ==> s[|r|] == c
  {
    match IndexOf(s, [c])
    case Some(i) =>
      assert s[i..i + 1] == [c];
      assert forall j :: 0 <= j < i ==> s[j] != c by {
        forall j | 0 <= j < i ensures s[j] != c {
          assert !OccursAt(s, [c], j);
          assert s[j..j + 1] == [s[j]];
        }
      }
      s[..i]
    case None =>
      assert forall j :: 0 <= j < |s| ==> s[j] != c by {
        forall j | 0 <= j < |s| ensures s[j] != c {
          assert !OccursAt(s, [c], j);
          assert s[j..j + 1] == [s[j]];
        }
      }
      s
  }

  /** When `s` starts with `d`, the first occurrence of `d` is at the start. */
  lemma SubstringAfterPrefix(s: string, d: string, missing: string)
    requires StartsWith(s, d)
    ensures SubstringAfter(s, d, missing) == s[|d|..]
  {
    assert OccursAt(s, d, 0);
  }

  /** `substringBefore(c)` of a text `t + [c] + u` with no `c` in `t` is `t`. */
  lemma SubstringBeforeFirst(t: string, c: char, u: string)
    requires c !in t
    ensures SubstringBefore(t + [c] + u, c) == t
  {
    var s := t + [c] + u;
    assert OccursAt(s, [c], |t|);
    forall j: nat | j < |t| ensures !OccursAt(s, [c], j) {
      assert s[j] == t[j];
    }
  }

  /** `substringBefore(c)` of a text without `c` is the whole text. */
  lemma SubstringBeforeMissing(t: string, c: char)
    requires c !in t
    ensures SubstringBefore(t, c) == t
  {
    forall j: nat | j < |t| ensures !OccursAt(t, [c], j) {
      assert t[j..j + 1] == [t[j]];
    }
  }

  // ---------------------------------------------------------------------------
  // Kotlin `Int` and its decimal text

  /** Kotlin's `Int`. */
  newtype Int32 = x: int | -0x8000_0000 <= x < 0x8000_0000

  /** Kotlin's `n + 1` on `Int`: two's-complement wrap-around at `Int.MAX_VALUE`. */
  function Inc(n: Int32): (r: Int32)
    ensures r as int == (n as int + 1 + 0x8000_0000) % 0x1_0000_0000 - 0x8000_0000
  {
    if n == 0x7FFF_FFFF then -0x8000_0000 else n + 1
  }

  predicate IsDigit(c: char) {
    '0' <= c <= '9'
  }

  predicate AllDigits(s: string) {
    forall i :: 0 <= i < |s| ==> IsDigit(s[i])
  }

  function DigitChar(d: nat): (c: char)
    requires d < 10
    ensures IsDigit(c) && c as int - '0' as int == d
  {
    ('0' as int + d) as char
  }

  /** The decimal digits of `n`, most significant first, without leading zeros. */
  function NatToDecimal(n: nat): (r: string)
    ensures |r| >= 1 && AllDigits(r)
    ensures |r| > 1 ==> r[0] != '0'
  {
    if n < 10 then [DigitChar(n)] else NatToDecimal(n / 10) + [DigitChar(n % 10)]
  }

  /** The value of a run of decimal digits. */
  function DecimalValue(s: string): nat
    requires AllDigits(s)
  {
    if |s| == 0 then 0 else DecimalValue(s[..|s| - 1]) * 10 + (s[|s| - 1] as int - '0' as int)
  }

  /** `Int.toString()`. */
  function IntToDecimal(n: int): (r: string)
    ensures |r| >= 1
  {
    if n < 0 then "-" + NatToDecimal(-n) else NatToDecimal(n)
  }

  /** `String.toInt()`: an optional sign and ASCII digits, within the range of `Int`; `None` where it throws. */
  function ParseInt32(s: string): (r: Option<Int32>)
    ensures |s| > 0 && AllDigits(s) && DecimalValue(s) < 0x8000_0000 ==> r == Some(DecimalValue(s) as Int32)
    ensures r.Some? ==> |s| > 0 && (r.value < 0 ==> s[0] == '-')
    ensures |s| == 0 ==> r.None?
    ensures |s| > 0 && !IsDigit(s[0]) && s[0] != '-' && s[0] != '+' ==> r.None?
    ensures |s| == 1 && !IsDigit(s[0]) ==> r.None?
    ensures (exists i :: 1 <= i < |s| && !IsDigit(s[i])) ==> r.None?
    ensures |s| > 0 && AllDigits(s) && DecimalValue(s) >= 0x8000_0000 ==> r.None?
    ensures |s| > 1 && (s[0] == '-' || s[0] == '+') && AllDigits(s[1..]) ==>
              var v := if s[0] == '-' then -(DecimalValue(s[1..]) as int) else DecimalValue(s[1..]);
              r == if -0x8000_0000 <= v < 0x8000_0000 then Some(v as Int32) else None
  {
    if |s| == 0 then None
    else
      var signed := s[0] == '-' || s[0] == '+';
      var digits := if signed then s[1..] else s;
      if |digits| == 0 || !AllDigits(digits) then None
      else
        var v: int := if s[0] == '-' then -(DecimalValue(digits) as int) else DecimalValue(digits);
        if -0x8000_0000 <= v < 0x8000_0000 then Some(v as Int32) else None
  }

  lemma {:induction false} DecimalValueOfNat(n: nat)
    ensures DecimalValue(NatToDecimal(n)) == n
  {
    if n >= 10 {
      var s := NatToDecimal(n);
      assert s[..|s| - 1] == NatToDecimal(n / 10);
      DecimalValueOfNat(n / 10);
    }
  }

  /** `toInt` reads back what `toString` wrote, for every `Int`. */
  lemma ParseIntToDecimal(n: Int32)
    ensures ParseInt32(IntToDecimal(n as int)) == Some(n)
  {
    if n < 0 {
      ParseNegativeDecimal(-(n as int));
    } else {
      ParseNonNegativeDecimal(n as int);
    }
  }

  lemma ParseNegativeDecimal(m: nat)
    requires 0 < m <= 0x8000_0000
    ensures ParseInt32("-" + NatToDecimal(m)) == Some((-(m as int)) as Int32)
  {
    var s := "-" + NatToDecimal(m);
    DecimalValueOfNat(m);
    assert s[0] == '-';
    assert s[1..] == NatToDecimal(m);
  }

  lemma ParseNonNegativeDecimal(m: nat)
    requires m < 0x8000_0000
    ensures ParseInt32(NatToDecimal(m)) == Some(m as Int32)
  {
    var s := NatToDecimal(m);
    DecimalValueOfNat(m);
    assert IsDigit(s[0]);
    assert s[0] != '-' && s[0] != '+';
  }

  /** A decimal numeral has neither line breaks nor spaces. */
  lemma IntToDecimalChars(n: int)
    ensures NoLineBreak(IntToDecimal(n)) && ' ' !in IntToDecimal(n)
  {
    var s := IntToDecimal(n);
    forall i | 0 <= i < |s| ensures s[i] != '\n' && s[i] != ' ' {
      if n < 0 && i > 0 {
        assert s[i] == NatToDecimal(-n)[i - 1];
      }
    }
  }
}
