/** Optional values and results shared by every module. */
module Wrappers {
  datatype Option<+T> = None | Some(value: T)

  datatype Result<+T, +E> = Ok(value: T) | Err(error: E)
}

/** The string operations of the Go and JavaScript runtimes and of SQLite that the
    modelled code relies on. A string is a sequence of characters. */
module Text {

  // ----- digits and decimal notation -----

  predicate IsDigit(c: char) { '0' <= c <= '9' }

  function DigitChar(n: int): char
    requires 0 <= n < 10
  {
    ('0' as int + n) as char
  }

  function DigitValue(c: char): int
    requires IsDigit(c)
  {
    c as int - '0' as int
  }

  predicate AllDigits(s: string) { forall i :: 0 <= i < |s| ==> IsDigit(s[i]) }

  function Pow10(w: nat): (p: nat)
    ensures p >= 1
  {
    if w == 0 then 1 else 10 * Pow10(w - 1)
  }

  /** The last w decimal digits of n, zero padded. */
  function Pad(n: nat, w: nat): (s: string)
    ensures |s| == w && AllDigits(s)
  {
    if w == 0 then [] else Pad(n / 10, w - 1) + [DigitChar(n % 10)]
  }

  /** The decimal notation of n without leading zeros. */
  function Decimal(n: nat): (s: string)
    ensures |s| >= 1 && AllDigits(s)
  {
    if n < 10 then [DigitChar(n)] else Decimal(n / 10) + [DigitChar(n % 10)]
  }

  /** The number a digit string denotes. */
  function Number(s: string): nat
    requires AllDigits(s)
  {
    if s == [] then 0 else 10 * Number(s[..|s| - 1]) + DigitValue(s[|s| - 1])
  }

  lemma {:induction false} NumberPad(n: nat, w: nat)
    requires n < Pow10(w)
    ensures Number(Pad(n, w)) == n
  {
    if w > 0 {
      NumberPad(n / 10, w - 1);
      assert Pad(n, w)[..w - 1] == Pad(n / 10, w - 1);
    }
  }

  lemma {:induction false} PadNumber(s: string)
    requires AllDigits(s)
    ensures Number(s) < Pow10(|s|) && Pad(Number(s), |s|) == s
  {
    if s != [] {
      var t := s[..|s| - 1];
      PadNumber(t);
      assert Number(s) / 10 == Number(t) && Number(s) % 10 == DigitValue(s[|s| - 1]);
      assert s == t + [s[|s| - 1]];
    }
  }

  lemma {:induction false} DecimalNumber(n: nat)
    ensures Number(Decimal(n)) == n
  {
    if n >= 10 {
      DecimalNumber(n / 10);
      assert Decimal(n)[..|Decimal(n)| - 1] == Decimal(n / 10);
    }
  }

  lemma {:induction false} DecimalIsPad(n: nat, w: nat)
    requires w >= 1 && n < Pow10(w) && (w == 1 || n >= Pow10(w - 1))
    ensures Decimal(n) == Pad(n, w)
  {
    if w == 1 {
      assert Pad(n, 1) == Pad(n / 10, 0) + [DigitChar(n % 10)];
    } else {
      DecimalIsPad(n / 10, w - 1);
    }
  }

  lemma {:induction false} DecimalLength(n: nat, w: nat)
    requires w >= 1
    ensures |Decimal(n)| <= w <==> n < Pow10(w)
  {
    if n >= 10 && w > 1 {
      DecimalLength(n / 10, w - 1);
    }
  }

  // ----- binary (code point) string order -----

  predicate LexLess(a: string, b: string) {
    if b == [] then false
    else if a == [] then true
    else a[0] < b[0] || (a[0] == b[0] && LexLess(a[1..], b[1..]))
  }

  lemma {:induction false} LexAppend(a: string, b: string, x: string, y: string)
    requires |a| == |b|
    ensures LexLess(a + x, b + y) <==> LexLess(a, b) || (a == b && LexLess(x, y))
  {
    if a == [] {
      assert a + x == x && b + y == y;
    } else {
      assert (a + x)[1..] == a[1..] + x && (b + y)[1..] == b[1..] + y;
      LexAppend(a[1..], b[1..], x, y);
      assert a == [a[0]] + a[1..] && b == [b[0]] + b[1..];
    }
  }

  lemma {:induction false} LexDigits(a: string, b: string)
    requires |a| == |b| && AllDigits(a) && AllDigits(b)
    ensures LexLess(a, b) <==> Number(a) < Number(b)
    ensures a == b <==> Number(a) == Number(b)
  {
    if a != [] {
      var n := |a| - 1;
      LexDigits(a[..n], b[..n]);
      assert a == a[..n] + [a[n]] && b == b[..n] + [b[n]];
      LexAppend(a[..n], b[..n], [a[n]], [b[n]]);
    }
  }

  lemma {:induction false} LexTotal(a: string, b: string)
    ensures !(LexLess(a, b) && LexLess(b, a))
    ensures a == b ==> !LexLess(a, b)
    ensures a != b ==> LexLess(a, b) || LexLess(b, a)
  {
    if a != [] && b != [] {
      LexTotal(a[1..], b[1..]);
      assert a == [a[0]] + a[1..] && b == [b[0]] + b[1..];
    }
  }

  lemma {:induction false} LexTransitive(a: string, b: string, c: string)
    requires LexLess(a, b) && LexLess(b, c)
    ensures LexLess(a, c)
  {
    if a != [] && a[0] == b[0] == c[0] {
      LexTransitive(a[1..], b[1..], c[1..]);
    }
  }

  // ----- letter case -----

  function LowerChar(c: char): char {
    if 'A' <= c <= 'Z' then (c as int + 32) as char else c
  }

  function Lower(s: string): (t: string)
    ensures |t| == |s|
    ensures forall i :: 0 <= i < |s| ==> t[i] == LowerChar(s[i])
  {
    seq(|s|, i requires 0 <= i < |s| => LowerChar(s[i]))
  }

  // ----- searching -----

  predicate Contains(s: string, sub: string) { exists i :: 0 <= i <= |s| && ContainsAt(s, sub, i) }

  predicate ContainsAt(s: string, sub: string, i: int) {
    0 <= i <= |s| - |sub| && s[i..i + |sub|] == sub
  }

  /** c does not occur in s. */
  predicate Lacks(s: string, c: char) { forall i :: 0 <= i < |s| ==> s[i] != c }

  /** The first index of c in s, or -1. */
  function IndexOf(s: string, c: char): (r: int)
    ensures -1 <= r < |s|
    ensures r >= 0 ==> s[r] == c
    ensures forall i :: 0 <= i < (if r < 0 then |s| else r) ==> s[i] != c
  {
    IndexFrom(s, c, 0)
  }

  function IndexFrom(s: string, c: char, from: nat): (r: int)
    requires from <= |s|
    ensures r == -1 || from <= r < |s|
    ensures r >= 0 ==> s[r] == c
    ensures forall i :: from <= i < (if r < 0 then |s| else r) ==> s[i] != c
    decreases |s| - from
  {
    if from == |s| then -1 else if s[from] == c then from else IndexFrom(s, c, from + 1)
  }

  /** The last index of c in s, or -1. */
  function LastIndexOf(s: string, c: char): (r: int)
    ensures -1 <= r < |s|
    ensures r >= 0 ==> s[r] == c
    ensures forall i :: r < i < |s| ==> s[i] != c
  {
    LastIndexBelow(s, c, |s|)
  }

  function LastIndexBelow(s: string, c: char, end: nat): (r: int)
    requires end <= |s|
    ensures -1 <= r < end
    ensures r >= 0 ==> s[r] == c
    ensures forall i :: r < i < end ==> s[i] != c
  {
    if end == 0 then -1 else if s[end - 1] == c then end - 1 else LastIndexBelow(s, c, end - 1)
  }

  predicate HasPrefix(s: string, p: string) { |p| <= |s| && s[..|p|] == p }

  predicate HasSuffix(s: string, p: string) { |p| <= |s| && s[|s| - |p|..] == p }

  // ----- white space -----

  /** The white space of unicode.IsSpace, as ranges of code points. */
  const SPACES: seq<(int, int)> := [
    (0x20, 0x20), (0x09, 0x0D), (0x85, 0x85), (0xA0, 0xA0), (0x1680, 0x1680), (0x2000, 0x200A),
    (0x2028, 0x2029), (0x202F, 0x202F), (0x205F, 0x205F), (0x3000, 0x3000)]

  predicate InRanges(n: int, ranges: seq<(int, int)>) {
    ranges != [] && (ranges[0].0 <= n <= ranges[0].1 || InRanges(n, ranges[1..]))
  }

  predicate IsSpace(c: char) { InRanges(c as int, SPACES) }

  /** White space: the blank, the controls from tab to carriage return, and those of Unicode. */
  lemma SpaceExactly(c: char)
    ensures IsSpace(c) <==>
            || c in {' ', '\t', '\n', '\U{B}', '\U{C}', '\r'}
            || c as int in {0x85, 0xA0, 0x1680, 0x2028, 0x2029, 0x202F, 0x205F, 0x3000}
            || 0x2000 <= c as int <= 0x200A
  {
    RangesUnfold(c as int, SPACES);
  }

  lemma RangesUnfold(n: int, r: seq<(int, int)>)
    requires |r| == 10
    ensures InRanges(n, r) <==>
            || r[0].0 <= n <= r[0].1 || r[1].0 <= n <= r[1].1 || r[2].0 <= n <= r[2].1 || r[3].0 <= n <= r[3].1
            || r[4].0 <= n <= r[4].1 || r[5].0 <= n <= r[5].1 || r[6].0 <= n <= r[6].1 || r[7].0 <= n <= r[7].1
            || r[8].0 <= n <= r[8].1 || r[9].0 <= n <= r[9].1
  {
    InSomeRange(n, r);
  }

  lemma {:induction false} InSomeRange(n: int, r: seq<(int, int)>)
    ensures InRanges(n, r) <==> exists k :: 0 <= k < |r| && r[k].0 <= n <= r[k].1
  {
    if r != [] {
      InSomeRange(n, r[1..]);
      assert forall k :: 0 < k < |r| ==> r[k] == r[1..][k - 1];
    }
  }

  lemma NotSpace(c: char)
    requires '!' <= c <= '~'
    ensures !IsSpace(c)
  {
    OutOfRanges(c as int, SPACES);
  }

  lemma {:induction false} OutOfRanges(n: int, ranges: seq<(int, int)>)
    requires forall i :: 0 <= i < |ranges| ==> n < ranges[i].0 || n > ranges[i].1
    ensures !InRanges(n, ranges)
  {
    if ranges != [] {
      OutOfRanges(n, ranges[1..]);
    }
  }

  predicate AllSpace(s: string) { forall i :: 0 <= i < |s| ==> IsSpace(s[i]) }

  predicate NoSpace(s: string) { forall i :: 0 <= i < |s| ==> !IsSpace(s[i]) }

  predicate Trimmed(s: string) { s == [] || (!IsSpace(s[0]) && !IsSpace(s[|s| - 1])) }

  /** The first index at or after from that holds no white space, or the length. */
  function SkipSpace(s: string, from: nat): (k: nat)
    requires from <= |s|
    ensures from <= k <= |s|
    ensures forall i :: from <= i < k ==> IsSpace(s[i])
    ensures k < |s| ==> !IsSpace(s[k])
    decreases |s| - from
  {
    if from < |s| && IsSpace(s[from]) then SkipSpace(s, from + 1) else from
  }

  /** The length of s[..end] without its trailing white space. */
  function TextEnd(s: string, end: nat): (k: nat)
    requires end <= |s|
    ensures k <= end
    ensures forall i :: k <= i < end ==> IsSpace(s[i])
    ensures k > 0 ==> !IsSpace(s[k - 1])
  {
    if end > 0 && IsSpace(s[end - 1]) then TextEnd(s, end - 1) else end
  }

  function TrimLeft(s: string): string { s[SkipSpace(s, 0)..] }

  function TrimRight(s: string): string { s[..TextEnd(s, |s|)] }

  /** strings.TrimSpace. */
  function TrimSpace(s: string): (t: string)
    ensures Trimmed(t) && |t| <= |s|
    ensures forall c :: c in t ==> c in s
  {
    TrimRight(TrimLeft(s))
  }

  lemma TrimTrimmed(s: string)
    requires Trimmed(s)
    ensures TrimLeft(s) == s && TrimSpace(s) == s
  {
    assert SkipSpace(s, 0) == 0;
    assert TextEnd(s, |s|) == |s|;
  }

  /** What strings.TrimSpace takes away: the white space around the text, no more and no less. */
  lemma TrimTakesSpaceAround(a: string, s: string, b: string)
    requires Trimmed(s) && AllSpace(a) && AllSpace(b)
    ensures TrimSpace(a + s + b) == s
  {
    var t := a + s + b;
    assert forall i :: 0 <= i < |a| ==> t[i] == a[i];
    assert forall i :: |a| + |s| <= i < |t| ==> t[i] == b[i - |a| - |s|];
    if s == [] {
      assert forall i :: 0 <= i < |t| ==> IsSpace(t[i]);
      assert SkipSpace(t, 0) == |t|;
    } else {
      assert t[|a|] == s[0];
      assert SkipSpace(t, 0) == |a|;
      TrimEnd(s, b);
      assert t[|a|..] == s + b;
    }
  }

  lemma TrimEnd(s: string, b: string)
    requires Trimmed(s) && s != [] && AllSpace(b)
    ensures TrimRight(s + b) == s
  {
    var u := s + b;
    assert forall i :: |s| <= i < |u| ==> u[i] == b[i - |s|];
    assert u[|s| - 1] == s[|s| - 1];
    assert TextEnd(u, |u|) == |s|;
  }

  lemma LeftSplits(s: string) returns (a: string)
    ensures s == a + TrimLeft(s) && AllSpace(a)
  {
    a := s[..SkipSpace(s, 0)];
  }

  lemma RightSplits(s: string) returns (b: string)
    ensures s == TrimRight(s) + b && AllSpace(b)
  {
    var k := TextEnd(s, |s|);
    b := s[k..];
    forall i | 0 <= i < |b|
      ensures IsSpace(b[i])
    {
      SpaceBehind(s, k + i);
    }
  }

  lemma SpaceBehind(s: string, i: nat)
    requires TextEnd(s, |s|) <= i < |s|
    ensures IsSpace(s[i])
  {
  }

  /** Every text is its trimmed form with white space around it. */
  lemma TrimSplits(s: string) returns (a: string, b: string)
    ensures s == a + TrimSpace(s) + b && AllSpace(a) && AllSpace(b)
  {
    a := LeftSplits(s);
    b := RightSplits(TrimLeft(s));
    Regroup(a, TrimSpace(s), b);
  }

  lemma LowerSpace(c: char)
    ensures IsSpace(LowerChar(c)) <==> IsSpace(c)
  {
    if 'A' <= c <= 'Z' {
      NotSpace(c);
      NotSpace(LowerChar(c));
    }
  }

  lemma LowerKeepsSpace(s: string)
    ensures AllSpace(Lower(s)) <==> AllSpace(s)
    ensures Trimmed(Lower(s)) <==> Trimmed(s)
  {
    forall i | 0 <= i < |s|
      ensures IsSpace(Lower(s)[i]) <==> IsSpace(s[i])
    {
      LowerSpace(s[i]);
    }
  }

  /** Trimming and lowering do not disturb each other. */
  lemma TrimLower(s: string)
    ensures TrimSpace(Lower(s)) == Lower(TrimSpace(s))
  {
    var a, b := TrimSplits(s);
    var t := TrimSpace(s);
    LowerKeepsSpace(a);
    LowerKeepsSpace(b);
    LowerKeepsSpace(t);
    LowerParts(s, a, t, b);
    TrimTakesSpaceAround(Lower(a), Lower(t), Lower(b));
  }

  lemma LowerParts(s: string, a: string, t: string, b: string)
    requires s == a + t + b
    ensures Lower(s) == Lower(a) + Lower(t) + Lower(b)
  {
  }

  lemma TrimTrailingSpace(s: string)
    requires Trimmed(s) && s != []
    ensures TrimSpace(s + " ") == s
  {
    var t := s + " ";
    assert t[0] == s[0] && t[|s| - 1] == s[|s| - 1];
    assert SkipSpace(t, 0) == 0 && t[0..] == t;
    assert IsSpace(t[|s|]);
    assert TextEnd(t, |t|) == |s|;
  }

  // ----- concatenation -----

  lemma Regroup<T>(a: seq<T>, b: seq<T>, c: seq<T>)
    ensures (a + b) + c == a + (b + c)
  {
  }
}
