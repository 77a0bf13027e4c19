/** The string primitives of Go's strings and strconv packages that the modelled code relies on. */
module Strings {
  import opened Wrappers

  // ---------------------------------------------------------------- decimal numerals

  predicate IsDigit(c: char) { '0' <= c <= '9' }

  predicate AllDigits(s: string) { forall c :: c in s ==> IsDigit(c) }

  function DigitChar(d: nat): (c: char)
    requires d < 10
    ensures IsDigit(c)
  {
    ('0' as int + d) as char
  }

  function Digits(n: nat): (s: string)
    ensures s != [] && AllDigits(s)
  {
    if n < 10 then [DigitChar(n)] else Digits(n / 10) + [DigitChar(n % 10)]
  }

  function DigitsValue(s: string): nat
    requires AllDigits(s)
  {
    if s == [] then 0
    else
      assert IsDigit(s[|s| - 1]);
      DigitsValue(s[..|s| - 1]) * 10 + (s[|s| - 1] as int - '0' as int)
  }

  /** strconv.Itoa and strconv.FormatInt in base ten. */
  function Itoa(n: int): string {
    if n < 0 then "-" + Digits(-n) else Digits(n)
  }

  /** An optional sign and at least one digit; None is Go's syntax error. */
  function ParseNumeral(s: string): Option<int> {
    if s == [] then None
    else
      var signed := s[0] == '+' || s[0] == '-';
      var body := if signed then s[1..] else s;
      if body == [] || !AllDigits(body) then None
      else 
        var value: int := DigitsValue(body);
        Some(if s[0] == '-' then -value else value)
  }

  /** The value of strconv.Atoi or ParseInt when the error is dropped: 0 on a syntax error, clamped out of range. */
  function Atoi(s: string): int64 {
    match ParseNumeral(s)
    case None => 0
    case Some(n) =>
      if n < -0x8000_0000_0000_0000 then -0x8000_0000_0000_0000
      else if n >= 0x8000_0000_0000_0000 then 0x7fff_ffff_ffff_ffff
      else n
  }

  lemma {:induction false} DigitsRoundTrip(n: nat)
    ensures DigitsValue(Digits(n)) == n
  {
    if n < 10 {
      assert Digits(n)[..0] == [];
    } else {
      DigitsRoundTrip(n / 10);
      var s := Digits(n);
      assert s[..|s| - 1] == Digits(n / 10);
    }
  }

  lemma ParseDigits(m: nat)
    ensures ParseNumeral(Digits(m)) == Some(m)
    ensures ParseNumeral("-" + Digits(m)) == Some(0 - m)
  {
    hide Digits, DigitsValue;
    DigitsRoundTrip(m);
    var s := Digits(m);
    assert IsDigit(s[0]);
    assert ("-" + s)[1..] == s;
  }

  lemma ItoaRoundTrip(n: int)
    ensures ParseNumeral(Itoa(n)) == Some(n)
  {
    hide Digits, ParseNumeral;
    ParseDigits(if n < 0 then -n else n);
  }

  lemma AtoiItoa(n: int64)
    ensures Atoi(Itoa(n)) == n
  {
    ItoaRoundTrip(n);
  }

  /** A text that is not an optional sign and digits has the value 0; a numeral has its own value, cut off at the ends
      of the 64-bit range. */
  lemma AtoiMeaning(s: string, n: int)
    ensures s == "" || s == "+" || s == "-" ==> Atoi(s) == 0
    ensures (exists i :: 0 <= i < |s| && !IsDigit(s[i]) && (i > 0 || (s[i] != '+' && s[i] != '-'))) ==> Atoi(s) == 0
    ensures s == Itoa(n) || (n >= 0 && s == "+" + Itoa(n)) ==>
              Atoi(s) == if n < -9_223_372_036_854_775_808 then -9_223_372_036_854_775_808
                         else if n > 9_223_372_036_854_775_807 then 9_223_372_036_854_775_807 else n
  {
    hide Digits, DigitsValue;
    if exists i :: 0 <= i < |s| && !IsDigit(s[i]) && (i > 0 || (s[i] != '+' && s[i] != '-')) {
      var i :| 0 <= i < |s| && !IsDigit(s[i]) && (i > 0 || (s[i] != '+' && s[i] != '-'));
      var signed := s[0] == '+' || s[0] == '-';
      var body := if signed then s[1..] else s;
      assert s[i] == body[if signed then i - 1 else i];
      assert !AllDigits(body);
    }
    ItoaRoundTrip(n);
    if n >= 0 {
      DigitsRoundTrip(n);
      assert ("+" + Itoa(n))[1..] == Digits(n);
    }
  }

  /** Printed numerals contain digits and at most a minus sign. */
  lemma ItoaAlphabet(n: int, c: char)
    requires !IsDigit(c) && c != '-'
    ensures c !in Itoa(n)
  {
    assert AllDigits(Digits(if n < 0 then -n else n));
  }

  // ---------------------------------------------------------------- Split and Join

  /** The parts of a string that starts with x, from the parts of what follows x. */
  function PrefixParts(x: char, parts: seq<string>, c: char): (r: seq<string>)
    requires parts != []
    ensures r != []
  {
    if x == c then [""] + parts else [[x] + parts[0]] + parts[1..]
  }

  /** strings.Split with a one-character separator. */
  function Split(s: string, c: char): (parts: seq<string>)
    ensures parts != []
  {
    if s == [] then [""] else PrefixParts(s[0], Split(s[1..], c), c)
  }

  /** strings.Join with a one-character separator. */
  function Join(parts: seq<string>, c: char): string {
    if parts == [] then ""
    else if |parts| == 1 then parts[0]
    else parts[0] + [c] + Join(parts[1..], c)
  }

  lemma {:induction false} SplitWhole(s: string, c: char)
    ensures |Split(s, c)| == 1 <==> c !in s
    ensures c !in s ==> Split(s, c) == [s]
  {
    if s == [] {
    } else {
      SplitWhole(s[1..], c);
      assert s == [s[0]] + s[1..];
    }
  }

  lemma PrefixPartsConcat(x: char, left: seq<string>, right: seq<string>, c: char)
    requires left != []
    ensures PrefixParts(x, left + right, c) == PrefixParts(x, left, c) + right
  {
    assert (left + right)[1..] == left[1..] + right;
  }

  lemma {:induction false} SplitAtSeparator(a: string, b: string, c: char)
    ensures Split(a + [c] + b, c) == Split(a, c) + Split(b, c)
  {
    var s := a + [c] + b;
    if a == [] {
      assert s[1..] == b;
      assert Split(s, c) == PrefixParts(c, Split(b, c), c);
    } else {
      SplitAtSeparator(a[1..], b, c);
      assert s[1..] == a[1..] + [c] + b;
      PrefixPartsConcat(a[0], Split(a[1..], c), Split(b, c), c);
    }
  }

  /** Splitting a joined list gives it back when no part contains the separator. */
  lemma {:induction false} SplitJoin(parts: seq<string>, c: char)
    requires parts != [] && forall p :: p in parts ==> c !in p
    ensures Split(Join(parts, c), c) == parts
  {
    SplitWhole(parts[0], c);
    if |parts| == 1 {
      assert parts == [parts[0]];
    } else {
      SplitJoin(parts[1..], c);
      SplitAtSeparator(parts[0], Join(parts[1..], c), c);
      assert parts == [parts[0]] + parts[1..];
    }
  }

  /** Joining a split string gives it back, always. */
  lemma {:induction false} JoinSplit(s: string, c: char)
    ensures Join(Split(s, c), c) == s
  {
    if s == [] {
    } else {
      JoinSplit(s[1..], c);
      var rest := Split(s[1..], c);
      if s[0] == c {
        assert ([""] + rest)[1..] == rest;
      } else {
        assert ([[s[0]] + rest[0]] + rest[1..])[1..] == rest[1..];
      }
    }
  }

  /** The first separator determines what is before and after it. */
  lemma FirstSeparator(a: string, x: string, b: string, y: string, c: char)
    requires c !in a && c !in b && a + [c] + x == b + [c] + y
    ensures a == b && x == y
  {
    SplitWhole(a, c);
    SplitWhole(b, c);
    SplitAtSeparator(a, x, c);
    SplitAtSeparator(b, y, c);
    assert a == ([a] + Split(x, c))[0] == ([b] + Split(y, c))[0] == b;
    assert x == (a + [c] + x)[|a| + 1..] && y == (b + [c] + y)[|b| + 1..];
  }

  /** The last separator determines what is before and after it. */
  lemma LastSeparator(a: string, x: string, b: string, y: string, c: char)
    requires c !in x && c !in y && a + [c] + x == b + [c] + y
    ensures a == b && x == y
  {
    SplitWhole(x, c);
    SplitWhole(y, c);
    SplitAtSeparator(a, x, c);
    SplitAtSeparator(b, y, c);
    var p, q := Split(a, c) + [x], Split(b, c) + [y];
    assert x == p[|p| - 1] == q[|q| - 1] == y;
    assert a == (a + [c] + x)[..|a|] && b == (b + [c] + y)[..|b|];
  }

  // ---------------------------------------------------------------- searching and trimming

  predicate OccursAt(s: string, pat: string, j: int) {
    0 <= j && j + |pat| <= |s| && s[j..j + |pat|] == pat
  }

  /** strings.Index: the first position of a pattern, or -1. */
  function IndexOf(s: string, pat: string): (i: int)
    ensures i == -1 || OccursAt(s, pat, i)
    ensures forall j :: OccursAt(s, pat, j) ==> 0 <= i <= j
  {
    if |s| < |pat| then -1
    else if s[..|pat|] == pat then 0
    else
      var r := IndexOf(s[1..], pat);
      OccursLater(s, pat);
      if r == -1 then -1 else r + 1
  }

  lemma SliceOfTail(s: string, j: int, n: nat)
    requires 1 <= j && j + n <= |s|
    ensures s[1..][j - 1..j - 1 + n] == s[j..j + n]
  {
    var a, b := s[1..][j - 1..j - 1 + n], s[j..j + n];
    forall k | 0 <= k < n ensures a[k] == b[k] {
      assert a[k] == s[1..][j - 1 + k] == s[j + k];
    }
  }

  lemma OccursLater(s: string, pat: string)
    requires |pat| <= |s| && s[..|pat|] != pat
    ensures forall j :: OccursAt(s, pat, j) <==> OccursAt(s[1..], pat, j - 1)
  {
    forall j ensures OccursAt(s, pat, j) <==> OccursAt(s[1..], pat, j - 1) {
      if 1 <= j && j + |pat| <= |s| {
        SliceOfTail(s, j, |pat|);
      }
      assert s[0..0 + |pat|] == s[..|pat|];
    }
  }

  /** unicode.IsSpace. */
  predicate IsSpace(c: char) {
    || c == '\t' || c == '\n' || c == '\U{0B}' || c == '\U{0C}' || c == '\r' || c == ' '
    || c == '\U{85}' || c == '\U{A0}' || c == '\U{1680}' || '\U{2000}' <= c <= '\U{200A}'
    || c == '\U{2028}' || c == '\U{2029}' || c == '\U{202F}' || c == '\U{205F}' || c == '\U{3000}'
  }

  /** The code points that count as white space. */
  lemma WhiteSpace(c: char)
    ensures IsSpace(c) <==>
            var n := c as int;
            || 9 <= n <= 13 || n == 32 || n == 133 || n == 160 || n == 5760 || 8192 <= n <= 8202
            || n == 8232 || n == 8233 || n == 8239 || n == 8287 || n == 12288
  {
  }

  function TrimLeft(s: string): string {
    if s != [] && IsSpace(s[0]) then TrimLeft(s[1..]) else s
  }

  function TrimRight(s: string): string {
    if s != [] && IsSpace(s[|s| - 1]) then TrimRight(s[..|s| - 1]) else s
  }

  /** strings.TrimSpace. */
  function TrimSpace(s: string): string { TrimRight(TrimLeft(s)) }
}
