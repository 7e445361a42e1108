/** The java.lang.String and java.lang.Long operations the core depends on:
    trim, split on a single literal character, decimal rendering and parsing
    of integers, and replace. Text is a sequence of chars; digits are ASCII. */
module JavaText {
  import opened Wrappers
  import opened Bytes

  /** String.trim strips every char whose code is at most U+0020, NUL included. */
  predicate IsWhite(c: char) {
    c as int <= 0x20
  }

  predicate AllWhite(s: string) {
    forall i :: 0 <= i < |s| ==> IsWhite(s[i])
  }

  /** Neither the first nor the last char is one that trim would remove. */
  predicate NoEdgeWhite(s: string) {
    |s| == 0 || (!IsWhite(s[0]) && !IsWhite(s[|s| - 1]))
  }

  function TrimStart(s: string): string
    decreases |s|
  {
    if |s| > 0 && IsWhite(s[0]) then TrimStart(s[1..]) else s
  }

  function TrimEnd(s: string): string
    decreases |s|
  {
    if |s| > 0 && IsWhite(s[|s| - 1]) then TrimEnd(s[..|s| - 1]) else s
  }

  /** String.trim. */
  function Trim(s: string): string {
    TrimEnd(TrimStart(s))
  }

  lemma {:induction false} TrimStartOfWhite(a: string, t: string)
    requires AllWhite(a)
    requires |t| == 0 || !IsWhite(t[0])
    ensures TrimStart(a + t) == t
    decreases |a|
  {
    if |a| > 0 {
      assert (a + t)[1..] == a[1..] + t;
      TrimStartOfWhite(a[1..], t);
    }
  }

  lemma {:induction false} TrimEndOfWhite(t: string, b: string)
    requires AllWhite(b)
    requires |t| == 0 || !IsWhite(t[|t| - 1])
    ensures TrimEnd(t + b) == t
    decreases |b|
  {
    if |b| > 0 {
      assert (t + b)[..|t + b| - 1] == t + b[..|b| - 1];
      TrimEndOfWhite(t, b[..|b| - 1]);
    } else {
      assert t + b == t;
    }
  }

  lemma {:induction false} TrimStartAllWhite(s: string)
    requires AllWhite(s)
    ensures TrimStart(s) == ""
    decreases |s|
  {
    if |s| > 0 {
      TrimStartAllWhite(s[1..]);
    }
  }

  /** Trim removes exactly the surrounding white: any text without white at its
      edges, wrapped in white on both sides, trims back to itself. */
  lemma TrimOfPadded(a: string, t: string, b: string)
    requires AllWhite(a) && AllWhite(b) && NoEdgeWhite(t)
    ensures Trim(a + t + b) == t
  {
    if |t| == 0 {
      assert a + t + b == a + b;
      TrimStartAllWhite(a + b);
      assert TrimEnd("") == "";
    } else {
      assert a + t + b == a + (t + b);
      TrimStartOfWhite(a, t + b);
      TrimEndOfWhite(t, b);
    }
  }

  /** A string without white at its edges is left as it is by trim. */
  lemma TrimNoEdgeWhite(t: string)
    requires NoEdgeWhite(t)
    ensures Trim(t) == t
  {
    assert "" + t + "" == t;
    TrimOfPadded("", t, "");
  }

  lemma {:induction false} TrimStartShape(s: string)
    ensures |TrimStart(s)| == 0 || !IsWhite(TrimStart(s)[0])
    ensures |TrimStart(s)| <= |s| && TrimStart(s) == s[|s| - |TrimStart(s)|..]
    ensures TrimStart(s) == "" <==> AllWhite(s)
    decreases |s|
  {
    if |s| > 0 && IsWhite(s[0]) {
      TrimStartShape(s[1..]);
      assert s[1..][|s[1..]| - |TrimStart(s)|..] == s[|s| - |TrimStart(s)|..];
      assert AllWhite(s[1..]) ==> AllWhite(s);
    }
  }

  lemma {:induction false} TrimEndShape(s: string)
    ensures |TrimEnd(s)| == 0 || !IsWhite(TrimEnd(s)[|TrimEnd(s)| - 1])
    ensures |TrimEnd(s)| <= |s| && TrimEnd(s) == s[..|TrimEnd(s)|]
    ensures TrimEnd(s) == "" <==> AllWhite(s)
    decreases |s|
  {
    if |s| > 0 && IsWhite(s[|s| - 1]) {
      var p := s[..|s| - 1];
      TrimEndShape(p);
      assert p[..|TrimEnd(s)|] == s[..|TrimEnd(s)|];
      assert AllWhite(p) ==> AllWhite(s) by {
        if AllWhite(p) {
          forall i | 0 <= i < |s| ensures IsWhite(s[i]) {
            if i < |p| { assert p[i] == s[i]; }
          }
        }
      }
    }
  }

  /** The result of trim has no white at its edges; the trimmed string is blank
      exactly when every char of the input is white. */
  lemma TrimShape(s: string)
    ensures NoEdgeWhite(Trim(s))
    ensures Trim(s) == "" <==> AllWhite(s)
  {
    TrimStartShape(s);
    var st := TrimStart(s);
    TrimEndShape(st);
    if |Trim(s)| > 0 {
      assert Trim(s)[0] == st[0];
    }
    assert AllWhite(st) <==> st == "";
  }

  // ------------------------------------------------------------------
  // String.split with a one-character literal separator

  /** Every piece between separators, leading and trailing empty pieces included. */
  function SplitAll(s: string, sep: char): (r: seq<string>)
    ensures |r| >= 1
    decreases |s|
  {
    if |s| == 0 then [""]
    else
      var rest := SplitAll(s[1..], sep);
      if s[0] == sep then [""] + rest else [[s[0]] + rest[0]] + rest[1..]
  }

  function DropTrailingEmpty(parts: seq<string>): (r: seq<string>)
    decreases |parts|
  {
    if |parts| > 0 && parts[|parts| - 1] == "" then DropTrailingEmpty(parts[..|parts| - 1]) else parts
  }

  /** String.split(sep): a string without the separator splits to itself (so "" gives [""]);
      otherwise all pieces, with trailing empty pieces removed. */
  function Split(s: string, sep: char): seq<string> {
    if sep !in s then [s] else DropTrailingEmpty(SplitAll(s, sep))
  }

  /** Collectors.joining / String.join with a one-character delimiter. */
  function Join(parts: seq<string>, sep: char): string
    decreases |parts|
  {
    if |parts| == 0 then ""
    else if |parts| == 1 then parts[0]
    else parts[0] + [sep] + Join(parts[1..], sep)
  }

  predicate NoneContains(parts: seq<string>, sep: char) {
    forall i :: 0 <= i < |parts| ==> sep !in parts[i]
  }

  /** Splitting undoes joining, every piece included. */
  lemma {:induction false} SplitAllJoin(parts: seq<string>, sep: char)
    requires |parts| >= 1 && NoneContains(parts, sep)
    ensures SplitAll(Join(parts, sep), sep) == parts
    decreases |parts|, |parts[0]|
  {
    var p := parts[0];
    if |parts| == 1 {
      SplitAllOfPlain(p, sep);
    } else if |p| == 0 {
      var rest := parts[1..];
      assert Join(parts, sep) == [sep] + Join(rest, sep);
      assert ([sep] + Join(rest, sep))[1..] == Join(rest, sep);
      SplitAllJoin(rest, sep);
      assert parts == [""] + rest;
    } else {
      var shorter := [p[1..]] + parts[1..];
      assert NoneContains(shorter, sep) by {
        assert forall i :: 1 <= i < |shorter| ==> shorter[i] == parts[i];
        assert sep !in p;
      }
      assert Join(parts, sep) == [p[0]] + Join(shorter, sep);
      assert ([p[0]] + Join(shorter, sep))[1..] == Join(shorter, sep);
      SplitAllJoin(shorter, sep);
      assert [p[0]] + p[1..] == p;
      assert parts == [p] + shorter[1..];
    }
  }

  lemma {:induction false} SplitAllOfPlain(p: string, sep: char)
    requires sep !in p
    ensures SplitAll(p, sep) == [p]
    decreases |p|
  {
    if |p| > 0 {
      SplitAllOfPlain(p[1..], sep);
      assert [p[0]] + p[1..] == p;
    }
  }

  lemma {:induction false} JoinContains(parts: seq<string>, sep: char)
    requires |parts| >= 2
    ensures sep in Join(parts, sep)
  {
    assert Join(parts, sep)[|parts[0]|] == sep;
  }

  lemma {:induction false} JoinPlain(parts: seq<string>, sep: char)
    requires |parts| == 1
    ensures Join(parts, sep) == parts[0]
  {
  }

  /** Java's split undoes a join whenever no piece holds the separator and the
      last piece is not empty (or there is only one piece). */
  lemma SplitJoin(parts: seq<string>, sep: char)
    requires |parts| >= 1 && NoneContains(parts, sep)
    requires |parts| == 1 || parts[|parts| - 1] != ""
    ensures Split(Join(parts, sep), sep) == parts
  {
    if |parts| == 1 {
      JoinPlain(parts, sep);
    } else {
      JoinContains(parts, sep);
      SplitAllJoin(parts, sep);
    }
  }

  // ------------------------------------------------------------------
  // Decimal text of integers

  function DigitChar(d: nat): char
    requires d < 10
  {
    ('0' as int + d) as char
  }

  predicate IsDigit(c: char) {
    '0' <= c <= '9'
  }

  predicate AllDigits(s: string) {
    forall i :: 0 <= i < |s| ==> IsDigit(s[i])
  }

  /** Decimal digits of a natural number, without leading zeros. */
  function NatToDecimal(n: nat): (r: string)
    ensures |r| >= 1 && AllDigits(r)
  {
    if n < 10 then [DigitChar(n)] else NatToDecimal(n / 10) + [DigitChar(n % 10)]
  }

  /** Long.toString / Integer.toString / string concatenation of a number. */
  function LongToString(n: int): string {
    if n < 0 then "-" + NatToDecimal(-n) else NatToDecimal(n)
  }

  /** The value of a run of decimal digits. */
  function DigitsValue(s: string): nat
    requires AllDigits(s)
  {
    if |s| == 0 then 0 else DigitsValue(s[..|s| - 1]) * 10 + (s[|s| - 1] as int - '0' as int)
  }

  /** Long.parseLong: an optional sign, then at least one digit, and a value that fits a long;
      anything else is a NumberFormatException, modelled as None. */
  function ParseLong(s: string): (r: Option<Int64>)
  {
    if |s| == 0 then None
    else
      var negative := s[0] == '-';
      var digits := if s[0] == '-' || s[0] == '+' then s[1..] else s;
      if |digits| == 0 || !AllDigits(digits) then None
      else
        var v := if negative then -(DigitsValue(digits) as int) else DigitsValue(digits);
        if INT64_MIN <= v <= INT64_MAX then Some(v) else None
  }

  lemma {:induction false} DigitsValueOfDecimal(n: nat)
    ensures DigitsValue(NatToDecimal(n)) == n
  {
    if n >= 10 {
      DigitsValueOfDecimal(n / 10);
      var s := NatToDecimal(n);
      assert s[..|s| - 1] == NatToDecimal(n / 10);
    }
  }

  /** Parsing the decimal text of a long gives the long back. */
  lemma ParseLongToString(n: Int64)
    ensures ParseLong(LongToString(n)) == Some(n)
  {
    var m: nat := if n < 0 then -(n as int) else n;
    var d := NatToDecimal(m);
    DigitsValueOfDecimal(m);
    if n < 0 {
      assert LongToString(n)[1..] == d;
    } else {
      assert LongToString(n)[0] != '-' && LongToString(n)[0] != '+';
    }
  }

  /** The decimal text of a number never holds a given non-digit, non-sign char. */
  lemma LongToStringChars(n: int, c: char)
    requires !IsDigit(c) && c != '-'
    ensures c !in LongToString(n)
  {
    var d := NatToDecimal(if n < 0 then -n else n);
    if n < 0 {
      assert LongToString(n) == "-" + d;
      assert forall i :: 0 <= i < |d| ==> d[i] != c;
    }
  }

  // ------------------------------------------------------------------
  // String.replace(target, replacement)

  /** Left-to-right replacement of every non-overlapping occurrence of target. */
  function Replace(s: string, target: string, replacement: string): string
    requires |target| > 0
    decreases |s|
  {
    if target <= s then replacement + Replace(s[|target|..], target, replacement)
    else if |s| == 0 then ""
    else [s[0]] + Replace(s[1..], target, replacement)
  }

  predicate OccursAt(s: string, target: string, i: nat) {
    i <= |s| && target <= s[i..]
  }

  predicate Contains(s: string, target: string) {
    exists i: nat | i <= |s| :: target <= s[i..]
  }

  /** Text without the target is returned unchanged. */
  lemma {:induction false} ReplaceAbsent(s: string, target: string, replacement: string)
    requires |target| > 0 && !Contains(s, target)
    ensures Replace(s, target, replacement) == s
    decreases |s|
  {
    assert !OccursAt(s, target, 0);
    if |s| > 0 {
      forall i: nat ensures !OccursAt(s[1..], target, i) {
        assert !OccursAt(s, target, i + 1);
        if i <= |s[1..]| { assert s[1..][i..] == s[i + 1..]; }
      }
      ReplaceAbsent(s[1..], target, replacement);
      assert [s[0]] + s[1..] == s;
    }
  }

  /** The first occurrence is replaced and scanning resumes right after it:
      with no occurrence starting inside a, a + target + b becomes
      a + replacement + (b with its occurrences replaced). */
  lemma {:induction false} ReplaceFirst(a: string, target: string, b: string, replacement: string)
    requires |target| > 0
    requires forall i: nat :: i < |a| ==> !OccursAt(a + target + b, target, i)
    ensures Replace(a + target + b, target, replacement) == a + replacement + Replace(b, target, replacement)
    decreases |a|
  {
    var s := a + target + b;
    if |a| == 0 {
      assert s == target + b;
      assert s[|target|..] == b;
    } else {
      assert !OccursAt(s, target, 0);
      assert s[1..] == a[1..] + target + b;
      forall i: nat | i < |a[1..]| ensures !OccursAt(a[1..] + target + b, target, i) {
        assert !OccursAt(s, target, i + 1);
        assert s[i + 1..] == (a[1..] + target + b)[i..];
      }
      ReplaceFirst(a[1..], target, b, replacement);
      assert [a[0]] + (a[1..] + replacement + Replace(b, target, replacement)) == a + replacement + Replace(b, target, replacement);
    }
  }
}
