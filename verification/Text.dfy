/** Strings as sequences of code points: trimming, separator-joined lines, decimal printing and
    the code-point order that both Go's and Python's string sorts use. */
module Text {
  import opened Sorting

  /** The white space Go's TrimSpace removes. */
  predicate IsSpace(c: char) {
    var n := c as int;
    || 9 <= n <= 13 || n == 0x20 || n == 0x85 || n == 0xA0 || n == 0x1680 || 0x2000 <= n <= 0x200A
    || n == 0x2028 || n == 0x2029 || n == 0x202F || n == 0x205F || n == 0x3000
  }

  /** What Python's str.strip removes. */
  predicate IsPythonSpace(c: char) {
    IsSpace(c) || 0x1C <= c as int <= 0x1F
  }

  /** ECMAScript white space and line terminators. */
  predicate IsEcmaSpace(c: char) {
    var n := c as int;
    || 9 <= n <= 13 || n == 0x20 || n == 0xA0 || n == 0x1680 || 0x2000 <= n <= 0x200A
    || n == 0x2028 || n == 0x2029 || n == 0x202F || n == 0x205F || n == 0x3000 || n == 0xFEFF
  }

  function TrimLeft(s: string, space: char -> bool): string {
    if s != [] && space(s[0]) then TrimLeft(s[1..], space) else s
  }

  function TrimRight(s: string, space: char -> bool): string {
    if s != [] && space(s[|s| - 1]) then TrimRight(s[..|s| - 1], space) else s
  }

  function TrimBy(s: string, space: char -> bool): string { TrimRight(TrimLeft(s, space), space) }

  /** Go's strings.TrimSpace. */
  function Trim(s: string): string { TrimBy(s, IsSpace) }

  predicate Blank(s: string) { Trim(s) == "" }

  /** A string that trimming leaves alone. */
  predicate Trimmed(s: string) { s == "" || (!IsSpace(s[0]) && !IsSpace(s[|s| - 1])) }

  lemma {:induction false} TrimLeftKeepsEnd(s: string, space: char -> bool)
    ensures var t := TrimLeft(s, space); t == "" || (!space(t[0]) && |t| <= |s| && t[|t| - 1] == s[|s| - 1])
  {
    if s != [] && space(s[0]) { TrimLeftKeepsEnd(s[1..], space); }
  }

  lemma {:induction false} TrimRightKeepsStart(s: string, space: char -> bool)
    ensures var t := TrimRight(s, space); t == "" || (!space(t[|t| - 1]) && |t| <= |s| && t[0] == s[0])
  {
    if s != [] && space(s[|s| - 1]) { TrimRightKeepsStart(s[..|s| - 1], space); }
  }

  lemma TrimIsTrimmed(s: string)
    ensures Trimmed(Trim(s))
  {
    TrimLeftKeepsEnd(s, IsSpace);
    TrimRightKeepsStart(TrimLeft(s, IsSpace), IsSpace);
  }

  lemma TrimTrimmed(s: string)
    requires Trimmed(s)
    ensures Trim(s) == s
  {}

  lemma TrimIdempotent(s: string)
    ensures Trim(Trim(s)) == Trim(s)
  {
    TrimIsTrimmed(s);
    TrimTrimmed(Trim(s));
  }

  /** Where the trimmed text starts: nothing but white space is cut off before it. */
  lemma {:induction false} TrimStart(s: string) returns (i: nat)
    ensures i + |Trim(s)| <= |s| && s[i..i + |Trim(s)|] == Trim(s)
    ensures forall k | 0 <= k < i :: IsSpace(s[k])
  {
    if s != "" && IsSpace(s[0]) {
      i := TrimStart(s[1..]);
      assert s[1..][i..i + |Trim(s)|] == s[i + 1..i + 1 + |Trim(s)|];
      assert forall k | 1 <= k < i + 1 :: s[k] == s[1..][k - 1];
      i := i + 1;
    } else {
      i := 0;
      TrimRightIsPrefix(s);
    }
  }

  lemma {:induction false} TrimRightIsPrefix(s: string)
    ensures TrimRight(s, IsSpace) <= s
  {
    if s != "" && IsSpace(s[|s| - 1]) { TrimRightIsPrefix(s[..|s| - 1]); }
  }

  ghost predicate AllOf(s: string, space: char -> bool) { forall c | c in s :: space(c) }

  lemma {:induction false} TrimLeftDrops(left: string, rest: string, space: char -> bool)
    requires AllOf(left, space) && (rest == "" || !space(rest[0]))
    ensures TrimLeft(left + rest, space) == rest
  {
    if left == "" {
      assert left + rest == rest;
    } else {
      assert left[0] in left && (left + rest)[1..] == left[1..] + rest;
      TrimLeftDrops(left[1..], rest, space);
    }
  }

  lemma {:induction false} TrimRightDrops(rest: string, right: string, space: char -> bool)
    requires AllOf(right, space) && (rest == "" || !space(rest[|rest| - 1]))
    ensures TrimRight(rest + right, space) == rest
  {
    if right == "" {
      assert rest + right == rest;
    } else {
      var last := |right| - 1;
      assert right[last] in right && (rest + right)[..|rest + right| - 1] == rest + right[..last];
      TrimRightDrops(rest, right[..last], space);
    }
  }

  /** Trimming leaves exactly what is between white space at both ends. */
  lemma TrimByExactly(left: string, t: string, right: string, space: char -> bool)
    requires AllOf(left, space) && AllOf(right, space)
    requires t == "" || (!space(t[0]) && !space(t[|t| - 1]))
    ensures TrimBy(left + t + right, space) == t
  {
    assert left + t + right == left + (t + right);
    if t == "" {
      assert left + t + right == (left + right) + "";
      TrimLeftDrops(left + right, "", space);
    } else {
      TrimLeftDrops(left, t + right, space);
      TrimRightDrops(t, right, space);
    }
  }

  /** Every string falls apart in that way. */
  lemma TrimByParts(s: string, space: char -> bool) returns (left: string, right: string)
    ensures s == left + TrimBy(s, space) + right && AllOf(left, space) && AllOf(right, space)
    ensures var t := TrimBy(s, space); t == "" || (!space(t[0]) && !space(t[|t| - 1]))
  {
    left := LeftPart(s, space);
    right := RightPart(TrimLeft(s, space), space);
    TrimLeftKeepsEnd(s, space);
    TrimRightKeepsStart(TrimLeft(s, space), space);
    assert left + (TrimBy(s, space) + right) == left + TrimBy(s, space) + right;
  }

  lemma {:induction false} LeftPart(s: string, space: char -> bool) returns (left: string)
    ensures s == left + TrimLeft(s, space) && AllOf(left, space)
  {
    left := "";
    if s != "" && space(s[0]) {
      var rest := LeftPart(s[1..], space);
      var t := TrimLeft(s[1..], space);
      assert s == [s[0]] + (rest + t) && [s[0]] + (rest + t) == ([s[0]] + rest) + t;
      left := [s[0]] + rest;
    }
  }

  lemma {:induction false} RightPart(s: string, space: char -> bool) returns (right: string)
    ensures s == TrimRight(s, space) + right && AllOf(right, space)
  {
    if s != "" && space(s[|s| - 1]) {
      var last := |s| - 1;
      var rest := RightPart(s[..last], space);
      right := rest + [s[last]];
      assert s == s[..last] + [s[last]];
    } else {
      right := "";
    }
  }

  /** Unicode's White_Space, which is what Go trims, and what Python trims besides. */
  lemma SpacesAreListed(c: char)
    ensures IsSpace(c) <==> c as int in {
      9, 10, 11, 12, 13, 32, 0x85, 0xA0, 0x1680, 0x2000, 0x2001, 0x2002, 0x2003, 0x2004, 0x2005, 0x2006, 0x2007,
      0x2008, 0x2009, 0x200A, 0x2028, 0x2029, 0x202F, 0x205F, 0x3000}
    ensures IsPythonSpace(c) <==> IsSpace(c) || c as int in {28, 29, 30, 31}
  {}

  // ---- lines -----------------------------------------------------------------------------

  function Join(lines: seq<string>, sep: char): string {
    if |lines| == 0 then ""
    else if |lines| == 1 then lines[0]
    else lines[0] + [sep] + Join(lines[1..], sep)
  }

  /** Cuts a string at every separator; always at least one piece. */
  function Split(s: string, sep: char): (lines: seq<string>)
    ensures lines != []
  {
    if s == "" then [""]
    else
      var rest := Split(s[1..], sep);
      if s[0] == sep then [""] + rest else [[s[0]] + rest[0]] + rest[1..]
  }

  lemma {:induction false} SplitFirstLine(line: string, rest: string, sep: char)
    requires sep !in line
    ensures Split(line + [sep] + rest, sep) == [line] + Split(rest, sep)
  {
    var s := line + [sep] + rest;
    if line == "" {
      assert s[1..] == rest;
    } else {
      assert s[1..] == line[1..] + [sep] + rest;
      SplitFirstLine(line[1..], rest, sep);
      assert [s[0]] + line[1..] == line;
    }
  }

  lemma {:induction false} SplitOneLine(line: string, sep: char)
    requires sep !in line
    ensures Split(line, sep) == [line]
  {
    if line != "" {
      SplitOneLine(line[1..], sep);
      assert [line[0]] + line[1..] == line;
    }
  }

  /** Splitting undoes joining when no line holds the separator. */
  lemma {:induction false} SplitJoin(lines: seq<string>, sep: char)
    requires lines != [] && forall line | line in lines :: sep !in line
    ensures Split(Join(lines, sep), sep) == lines
  {
    assert lines[0] in lines;
    if |lines| == 1 {
      SplitOneLine(lines[0], sep);
    } else {
      forall line | line in lines[1..] ensures sep !in line { assert line in lines; }
      SplitJoin(lines[1..], sep);
      SplitFirstLine(lines[0], Join(lines[1..], sep), sep);
    }
  }

  lemma JoinInjective(a: seq<string>, b: seq<string>, sep: char)
    requires a != [] && (forall line | line in a :: sep !in line)
    requires b != [] && (forall line | line in b :: sep !in line)
    requires Join(a, sep) == Join(b, sep)
    ensures a == b
  {
    SplitJoin(a, sep);
    SplitJoin(b, sep);
  }

  /** The lines of a prefix and the lines of what follows join to the whole. */
  lemma {:induction false} JoinAppend(a: seq<string>, b: seq<string>, sep: char)
    requires a != [] && b != []
    ensures Join(a + b, sep) == Join(a, sep) + [sep] + Join(b, sep)
  {
    if |a| == 1 {
      assert (a + b)[1..] == b;
    } else {
      assert (a + b)[1..] == a[1..] + b;
      JoinAppend(a[1..], b, sep);
    }
  }

  function Occurrences(s: string, c: char): nat {
    if s == "" then 0 else (if s[0] == c then 1 else 0) + Occurrences(s[1..], c)
  }

  lemma {:induction false} OccurrencesAppend(a: string, b: string, c: char)
    ensures Occurrences(a + b, c) == Occurrences(a, c) + Occurrences(b, c)
  {
    if a == "" {
      assert a + b == b;
    } else {
      assert (a + b)[1..] == a[1..] + b;
      OccurrencesAppend(a[1..], b, c);
    }
  }

  lemma {:induction false} NoOccurrences(s: string, c: char)
    ensures Occurrences(s, c) == 0 <==> c !in s
  {
    if s != "" {
      assert s == [s[0]] + s[1..];
      NoOccurrences(s[1..], c);
    }
  }

  /** Counting separators tells whether some line holds one. */
  lemma {:induction false} OccurrencesInJoin(lines: seq<string>, sep: char)
    requires lines != []
    ensures Occurrences(Join(lines, sep), sep) >= |lines| - 1
    ensures Occurrences(Join(lines, sep), sep) == |lines| - 1 <==> forall line | line in lines :: sep !in line
  {
    NoOccurrences(lines[0], sep);
    if |lines| > 1 {
      var rest := Join(lines[1..], sep);
      OccurrencesInJoin(lines[1..], sep);
      OccurrencesAppend(lines[0] + [sep], rest, sep);
      OccurrencesAppend(lines[0], [sep], sep);
      assert lines == [lines[0]] + lines[1..];
    } else {
      assert lines == [lines[0]];
    }
  }

  /** The text after the last separator is determined. */
  lemma LastLine(a: string, x: string, b: string, y: string, sep: char)
    requires sep !in x && sep !in y && a + [sep] + x == b + [sep] + y
    ensures a == b && x == y
  {
    var s, t := a + [sep] + x, b + [sep] + y;
    assert s[|a|] == sep && forall k | |a| < k < |s| :: s[k] == x[k - |a| - 1] != sep;
    assert t[|b|] == sep && forall k | |b| < k < |t| :: t[k] == y[k - |b| - 1] != sep;
    assert |a| == |b|;
    assert s[..|a|] == a && t[..|b|] == b;
    assert s[|a| + 1..] == x && t[|b| + 1..] == y;
  }

  lemma CommonPrefix(p: string, a: string, b: string)
    requires p + a == p + b
    ensures a == b
  {
    assert (p + a)[|p|..] == a && (p + b)[|p|..] == b;
  }

  // ---- order -----------------------------------------------------------------------------

  predicate LexLe(a: string, b: string) {
    a == "" || (b != "" && (a[0] < b[0] || (a[0] == b[0] && LexLe(a[1..], b[1..]))))
  }

  lemma {:induction false} LexTotal(a: string, b: string)
    ensures LexLe(a, b) || LexLe(b, a)
    ensures LexLe(a, b) && LexLe(b, a) ==> a == b
  {
    if a != "" && b != "" && a[0] == b[0] {
      LexTotal(a[1..], b[1..]);
      assert a == [a[0]] + a[1..] && b == [b[0]] + b[1..];
    }
  }

  lemma {:induction false} LexTransitive(a: string, b: string, c: string)
    requires LexLe(a, b) && LexLe(b, c)
    ensures LexLe(a, c)
  {
    if a != "" && a[0] == b[0] == c[0] { LexTransitive(a[1..], b[1..], c[1..]); }
  }

  lemma LexIsTotalOrder()
    ensures TotalOrder(LexLe)
  {
    forall a, b ensures LexLe(a, b) || LexLe(b, a) { LexTotal(a, b); }
    forall a, b | LexLe(a, b) && LexLe(b, a) ensures a == b { LexTotal(a, b); }
    forall a, b, c | LexLe(a, b) && LexLe(b, c) ensures LexLe(a, c) { LexTransitive(a, b, c); }
  }

  /** Where two strings first differ. */
  predicate SmallerAt(a: string, b: string, k: nat) { k < |a| && k < |b| && a[..k] == b[..k] && a[k] < b[k] }

  lemma DiffersAtStart(a: string, b: string, k: nat)
    requires SmallerAt(a, b, k)
    ensures k == 0 || a[0] == b[0]
  {
    if k > 0 { assert a[..k][0] == b[..k][0]; }
  }

  /** The order is that of the code points at the first difference, a prefix coming first. */
  lemma {:induction false} LexLeExactly(a: string, b: string)
    ensures LexLe(a, b) <==> a <= b || exists k: nat :: SmallerAt(a, b, k)
  {
    if a != "" && b != "" {
      assert a == [a[0]] + a[1..] && b == [b[0]] + b[1..];
      LexLeExactly(a[1..], b[1..]);
      if a[0] < b[0] {
        assert SmallerAt(a, b, 0);
      } else if a[0] == b[0] {
        if k: nat :| SmallerAt(a[1..], b[1..], k) {
          assert a[..k + 1] == [a[0]] + a[1..][..k] && b[..k + 1] == [b[0]] + b[1..][..k];
          assert SmallerAt(a, b, k + 1);
        }
        if k: nat :| SmallerAt(a, b, k) {
          assert a[1..][..k - 1] == a[..k][1..] && b[1..][..k - 1] == b[..k][1..];
          assert SmallerAt(a[1..], b[1..], k - 1);
        }
        assert a <= b <==> a[1..] <= b[1..];
      } else if k: nat :| SmallerAt(a, b, k) {
        DiffersAtStart(a, b, k);
      }
    }
  }

  // ---- decimal numbers -------------------------------------------------------------------

  predicate IsDigit(c: char) { '0' <= c <= '9' }

  lemma DigitsAreListed(c: char)
    ensures IsDigit(c) <==> c in "0123456789"
  {}

  function Digit(d: nat): char
    requires d < 10
  {
    '0' + d as char
  }

  /** The digits of n, at least width of them, padded with zeros on the left. */
  function Padded(n: nat, width: nat): (s: string)
    decreases n, width
  {
    if n < 10 && width <= 1 then [Digit(n)]
    else Padded(n / 10, if width == 0 then 0 else width - 1) + [Digit(n % 10)]
  }

  function Decimal(n: nat): string { Padded(n, 1) }

  function Number(s: string): nat
    requires forall c | c in s :: IsDigit(c)
  {
    if s == "" then 0
    else
      assert IsDigit(s[|s| - 1]);
      10 * Number(s[..|s| - 1]) + (s[|s| - 1] as int - '0' as int)
  }

  function Pow10(k: nat): nat { if k == 0 then 1 else 10 * Pow10(k - 1) }

  /** A printed number reads back as itself, and it is exactly width long when it fits. */
  lemma {:induction false} NumberPadded(n: nat, width: nat)
    requires width >= 1
    ensures forall c | c in Padded(n, width) :: IsDigit(c)
    ensures Number(Padded(n, width)) == n
    ensures |Padded(n, width)| >= width
    ensures n < Pow10(width) ==> |Padded(n, width)| == width
    ensures n >= Pow10(width) ==> |Padded(n, width)| > width
    decreases n, width
  {
    var s := Padded(n, width);
    if n < 10 && width <= 1 {
      assert s == [Digit(n)];
      assert s[..0] == "";
    } else if width == 1 {
      NumberPadded(n / 10, 1);
      assert Padded(n / 10, 0) == Padded(n / 10, 1) by { PaddedZero(n / 10); }
      assert s[..|s| - 1] == Padded(n / 10, 1);
      assert Pow10(0) == 1;
    } else {
      NumberPadded(n / 10, width - 1);
      assert s[..|s| - 1] == Padded(n / 10, width - 1);
    }
  }

  lemma {:induction false} PaddedZero(n: nat)
    ensures Padded(n, 0) == Padded(n, 1)
  {
    if n >= 10 { assert Padded(n, 1) == Padded(n / 10, 0) + [Digit(n % 10)]; }
  }

  lemma DecimalInjective(a: nat, b: nat)
    requires Decimal(a) == Decimal(b)
    ensures a == b
  {
    NumberPadded(a, 1);
    NumberPadded(b, 1);
  }

  /** A decimal has no leading zero. */
  lemma {:induction false} DecimalIsShortest(n: nat)
    ensures (forall c | c in Decimal(n) :: IsDigit(c)) && Number(Decimal(n)) == n
    ensures if n == 0 then Decimal(n) == "0" else Decimal(n)[0] != '0'
  {
    NumberPadded(n, 1);
    if n >= 10 {
      PaddedZero(n / 10);
      DecimalIsShortest(n / 10);
      assert Decimal(n) == Decimal(n / 10) + [Digit(n % 10)];
    }
  }

  lemma DecimalHasOnlyDigits(n: nat)
    ensures forall c | c in Decimal(n) :: IsDigit(c)
  {
    NumberPadded(n, 1);
  }
}
