/** The string operations the notification text is built from: printing a count
    in base 10, and joining lines with a separator. Each comes with the inverse
    that reads the text back. */
module Strings {

  predicate IsDigits(s: string)
  {
    forall i :: 0 <= i < |s| ==> '0' <= s[i] <= '9'
  }

  function DigitChar(d: nat): (c: char)
    requires d < 10
    ensures '0' <= c <= '9'
  {
    (('0' as int) + d) as char
  }

  function DigitValue(c: char): nat
    requires '0' <= c <= '9'
  {
    (c as int) - ('0' as int)
  }

  /** How a template literal prints a non-negative integer: base 10, no leading zero. */
  function Decimal(n: nat): (s: string)
    ensures |s| >= 1 && IsDigits(s)
    ensures |s| > 1 ==> s[0] != '0'
  {
    if n < 10 then [DigitChar(n)] else Decimal(n / 10) + [DigitChar(n % 10)]
  }

  /** The part of a three-part string between its first and last parts. */
  lemma Middle(prefix: string, middle: string, suffix: string)
    ensures var s := prefix + middle + suffix;
            |s| - |suffix| == |prefix| + |middle| && s[|prefix|..|s| - |suffix|] == middle &&
            prefix <= s && s[|s| - |suffix|..] == suffix
  {
  }

  /** Where each part of a string made of eight parts lies. */
  lemma EightParts(p0: string, p1: string, p2: string, p3: string, p4: string, p5: string, p6: string, p7: string)
    ensures var s := p0 + p1 + p2 + p3 + p4 + p5 + p6 + p7;
            var i3 := |p0| + |p1| + |p2|;
            var i5 := i3 + |p3| + |p4|;
            |s| == i5 + |p5| + |p6| + |p7| &&
            s[..|p0|] == p0 && s[|p0|..|p0| + |p1|] == p1 && s[i3 - |p2|..i3] == p2 && s[i3..i3 + |p3|] == p3 &&
            s[i5 - |p4|..i5] == p4 && s[i5..i5 + |p5|] == p5 && s[|s| - |p7| - |p6|..] == p6 + p7
  {
    var s := p0 + p1 + p2 + p3 + p4 + p5 + p6 + p7;
    var i3 := |p0| + |p1| + |p2|;
    var i5 := i3 + |p3| + |p4|;
    assert s == (p0 + p1 + p2) + (p3 + p4) + p5 + (p6 + p7);
  }

  /** Reads a string of base-10 digits as a number. */
  function ParseDecimal(s: string): nat
    requires IsDigits(s)
  {
    if s == [] then 0 else ParseDecimal(s[..|s| - 1]) * 10 + DigitValue(s[|s| - 1])
  }

  lemma {:induction false} DecimalRoundTrip(n: nat)
    ensures ParseDecimal(Decimal(n)) == n
  {
    if n >= 10 {
      DecimalRoundTrip(n / 10);
      var s := Decimal(n);
      assert s[..|s| - 1] == Decimal(n / 10);
    }
  }

  /** `lines.join(sep)` for a one-character separator: it starts with the first
      line, and for lines free of the separator puts exactly one separator between
      each two. */
  function Join(lines: seq<string>, sep: char): (s: string)
    ensures lines == [] ==> s == ""
    ensures lines != [] ==> lines[0] <= s
    ensures (forall k :: 0 <= k < |lines| ==> sep !in lines[k]) ==> multiset(s)[sep] == if lines == [] then 0 else |lines| - 1
  {
    if lines == [] then ""
    else if |lines| == 1 then lines[0]
    else lines[0] + [sep] + Join(lines[1..], sep)
  }

  /** `s.split(sep)`: the pieces between separators; never empty, since the empty
      string splits into one empty piece. */
  function Split(s: string, sep: char): (parts: seq<string>)
    ensures |parts| >= 1
    ensures forall k :: 0 <= k < |parts| ==> sep !in parts[k]
  {
    if s == [] then [""]
    else
      var rest := Split(s[1..], sep);
      if s[0] == sep then [""] + rest
      else [[s[0]] + rest[0]] + rest[1..]
  }

  lemma {:induction false} SplitWithoutSeparator(a: string, sep: char)
    requires sep !in a
    ensures Split(a, sep) == [a]
  {
    if a != [] {
      SplitWithoutSeparator(a[1..], sep);
      assert [a[0]] + a[1..] == a;
    }
  }

  lemma {:induction false} SplitAtFirstSeparator(a: string, b: string, sep: char)
    requires sep !in a
    ensures Split(a + [sep] + b, sep) == [a] + Split(b, sep)
  {
    var s := a + [sep] + b;
    if a == [] {
      assert s[0] == sep && s[1..] == b;
    } else {
      SplitAtFirstSeparator(a[1..], b, sep);
      assert s[0] == a[0] && s[1..] == a[1..] + [sep] + b;
      assert [a[0]] + a[1..] == a;
    }
  }

  /** Joining lines that do not contain the separator and splitting the result
      gives back the lines. */
  lemma {:induction false} SplitJoin(lines: seq<string>, sep: char)
    requires lines != []
    requires forall k :: 0 <= k < |lines| ==> sep !in lines[k]
    ensures Split(Join(lines, sep), sep) == lines
  {
    if |lines| == 1 {
      SplitWithoutSeparator(lines[0], sep);
    } else {
      SplitJoin(lines[1..], sep);
      SplitAtFirstSeparator(lines[0], Join(lines[1..], sep), sep);
      assert [lines[0]] + lines[1..] == lines;
    }
  }

  /** A first line followed by joined lines splits back into all of them. */
  lemma SplitAfterHeader(first: string, lines: seq<string>, sep: char)
    requires sep !in first
    requires lines != []
    requires forall k :: 0 <= k < |lines| ==> sep !in lines[k]
    ensures Split(first + [sep] + Join(lines, sep), sep) == [first] + lines
  {
    SplitJoin(lines, sep);
    SplitAtFirstSeparator(first, Join(lines, sep), sep);
  }
}
