/**
 * The string helpers of Go's `strings` and `strconv` packages that the gateway relies on.
 * Case folding is the ASCII one; white space is Unicode's White_Space property, as in `strings.TrimSpace`.
 */
module Text {

  predicate IsSpace(c: char) {
    var n := c as int;
    || 9 <= n <= 13 || n == 32 || n == 0x85 || n == 0xA0 || n == 0x1680
    || 0x2000 <= n <= 0x200A || n == 0x2028 || n == 0x2029 || n == 0x202F || n == 0x205F || n == 0x3000
  }

  function LowerChar(c: char): char {
    if 'A' <= c <= 'Z' then (c as int + 32) as char else c
  }

  /** Exactly the 26 capitals change, each to its own small letter. */
  lemma LowerCharMeaning(c: char)
    ensures LowerChar(c) != c <==> c in "ABCDEFGHIJKLMNOPQRSTUVWXYZ"
    ensures LowerChar(c) != c ==> LowerChar(c) as int - 'a' as int == c as int - 'A' as int
  {
    var capitals := "ABCDEFGHIJKLMNOPQRSTUVWXYZ";
    assert forall k :: 0 <= k < 26 ==> capitals[k] as int == 'A' as int + k;
    if 'A' <= c <= 'Z' {
      assert capitals[c as int - 'A' as int] == c;
    }
  }

  function ToLower(s: string): string {
    seq(|s|, i requires 0 <= i < |s| => LowerChar(s[i]))
  }

  /** `strings.EqualFold` on ASCII names. */
  predicate EqualFold(a: string, b: string) {
    ToLower(a) == ToLower(b)
  }

  function TrimLeft(s: string): string {
    if s != [] && IsSpace(s[0]) then TrimLeft(s[1..]) else s
  }

  function TrimRight(s: string): string {
    if s != [] && IsSpace(s[|s| - 1]) then TrimRight(s[..|s| - 1]) else s
  }

  function TrimSpace(s: string): string {
    TrimRight(TrimLeft(s))
  }

  /** No white space at either end. */
  predicate Trimmed(s: string) {
    s == [] || (!IsSpace(s[0]) && !IsSpace(s[|s| - 1]))
  }

  lemma {:induction false} TrimLeftStarts(s: string)
    ensures TrimLeft(s) == [] || !IsSpace(TrimLeft(s)[0])
  {
    if s != [] && IsSpace(s[0]) {
      TrimLeftStarts(s[1..]);
    }
  }

  lemma {:induction false} TrimRightShape(s: string)
    ensures TrimRight(s) <= s
    ensures TrimRight(s) == [] || !IsSpace(TrimRight(s)[|TrimRight(s)| - 1])
  {
    if s != [] && IsSpace(s[|s| - 1]) {
      TrimRightShape(s[..|s| - 1]);
    }
  }

  /** Trimming leaves no outer white space, and changes nothing that has none. */
  lemma TrimSpaceTrimmed(s: string)
    ensures Trimmed(TrimSpace(s))
    ensures Trimmed(s) ==> TrimSpace(s) == s
  {
    TrimLeftStarts(s);
    TrimRightShape(TrimLeft(s));
  }

  lemma {:induction false} TrimLeftCuts(s: string) returns (front: string)
    ensures s == front + TrimLeft(s) && forall c | c in front :: IsSpace(c)
  {
    front := [];
    if s != [] && IsSpace(s[0]) {
      var more := TrimLeftCuts(s[1..]);
      front := [s[0]] + more;
      assert s == [s[0]] + s[1..];
    }
  }

  lemma {:induction false} TrimRightCuts(s: string) returns (back: string)
    ensures s == TrimRight(s) + back && forall c | c in back :: IsSpace(c)
  {
    back := [];
    if s != [] && IsSpace(s[|s| - 1]) {
      var more := TrimRightCuts(s[..|s| - 1]);
      back := more + [s[|s| - 1]];
      assert s == s[..|s| - 1] + [s[|s| - 1]];
    }
  }

  /** Trimming cuts off white space at either end and nothing else. */
  lemma TrimSpaceCuts(s: string) returns (front: string, back: string)
    ensures s == front + TrimSpace(s) + back && Trimmed(TrimSpace(s))
    ensures forall c | c in front + back :: IsSpace(c)
  {
    front := TrimLeftCuts(s);
    back := TrimRightCuts(TrimLeft(s));
    TrimSpaceTrimmed(s);
  }

  lemma TrimSpacePart(s: string)
    ensures forall c :: c in TrimSpace(s) ==> c in s
  {
    var front, back := TrimSpaceCuts(s);
  }

  lemma LowerFacts(s: string)
    ensures |ToLower(s)| == |s|
    ensures ToLower(ToLower(s)) == ToLower(s)
    ensures Trimmed(ToLower(s)) == Trimmed(s)
  {
  }

  lemma {:induction false} LowerTrimLeft(s: string)
    ensures ToLower(TrimLeft(s)) == TrimLeft(ToLower(s))
  {
    if s != [] && IsSpace(s[0]) {
      LowerTrimLeft(s[1..]);
      assert ToLower(s)[1..] == ToLower(s[1..]);
    }
  }

  lemma {:induction false} LowerTrimRight(s: string)
    ensures ToLower(TrimRight(s)) == TrimRight(ToLower(s))
  {
    if s != [] && IsSpace(s[|s| - 1]) {
      LowerTrimRight(s[..|s| - 1]);
      assert ToLower(s)[..|s| - 1] == ToLower(s[..|s| - 1]);
    }
  }

  /** Folding case and trimming commute, and each is idempotent. */
  lemma LowerTrim(s: string)
    ensures ToLower(TrimSpace(s)) == TrimSpace(ToLower(s))
    ensures TrimSpace(TrimSpace(s)) == TrimSpace(s)
    ensures ToLower(ToLower(s)) == ToLower(s)
  {
    LowerTrimLeft(s);
    LowerTrimRight(TrimLeft(s));
    TrimSpaceTrimmed(s);
    TrimSpaceTrimmed(TrimSpace(s));
    LowerFacts(s);
  }

  /** Go's `<` on strings. */
  predicate Less(a: string, b: string) {
    b != [] && (a == [] || a[0] < b[0] || (a[0] == b[0] && Less(a[1..], b[1..])))
  }

  lemma {:induction false} LessIrreflexive(a: string)
    ensures !Less(a, a)
  {
    if a != [] {
      LessIrreflexive(a[1..]);
    }
  }

  lemma {:induction false} LessTransitive(a: string, b: string, c: string)
    requires Less(a, b) && Less(b, c)
    ensures Less(a, c)
  {
    if a != [] && a[0] == b[0] == c[0] {
      LessTransitive(a[1..], b[1..], c[1..]);
    }
  }

  lemma {:induction false} LessTotal(a: string, b: string)
    ensures a == b || Less(a, b) || Less(b, a)
  {
    if a != [] && b != [] && a[0] == b[0] {
      LessTotal(a[1..], b[1..]);
      assert a == [a[0]] + a[1..];
      assert b == [b[0]] + b[1..];
    }
  }

  /** The two agree up to `k`, where `a` ends or has the smaller character. */
  predicate LessFrom(a: string, b: string, k: nat) {
    k <= |a| && k < |b| && a[..k] == b[..k] && (k == |a| || a[k] < b[k])
  }

  lemma {:induction false} LessHasPlace(a: string, b: string) returns (k: nat)
    requires Less(a, b)
    ensures LessFrom(a, b, k)
  {
    k := 0;
    if a != [] && a[0] == b[0] {
      var rest := LessHasPlace(a[1..], b[1..]);
      k := rest + 1;
      assert a[..k] == [a[0]] + a[1..][..rest] && b[..k] == [b[0]] + b[1..][..rest];
    }
  }

  lemma {:induction false} PlaceMakesLess(a: string, b: string, k: nat)
    requires LessFrom(a, b, k)
    ensures Less(a, b)
  {
    if k > 0 {
      assert a[0] == a[..k][0] && b[0] == b[..k][0];
      assert a[1..][..k - 1] == a[..k][1..] && b[1..][..k - 1] == b[..k][1..];
      PlaceMakesLess(a[1..], b[1..], k - 1);
    }
  }

  /** A string is less when it is a proper prefix, or is smaller at the first place where the two differ. */
  lemma LessMeaning(a: string, b: string)
    ensures Less(a, b) <==> exists k :: LessFrom(a, b, k)
  {
    if Less(a, b) {
      var k := LessHasPlace(a, b);
    }
    if k :| LessFrom(a, b, k) {
      PlaceMakesLess(a, b, k);
    }
  }

  /** `strings.Join`. */
  function Join(parts: seq<string>, sep: char): string {
    if parts == [] then []
    else if |parts| == 1 then parts[0]
    else parts[0] + [sep] + Join(parts[1..], sep)
  }

  /** The pieces of `s` around every single character of `seps`; never empty, and keeps empty pieces. */
  function Split(s: string, seps: set<char>): (r: seq<string>)
    ensures |r| > 0
  {
    if s == [] then [[]]
    else
      var rest := Split(s[1..], seps);
      if s[0] in seps then [[]] + rest else [[s[0]] + rest[0]] + rest[1..]
  }

  lemma {:induction false} SplitNoSeparator(p: string, seps: set<char>)
    requires forall c | c in p :: c !in seps
    ensures Split(p, seps) == [p]
  {
    if p != [] {
      SplitNoSeparator(p[1..], seps);
      assert p == [p[0]] + p[1..];
    }
  }

  lemma {:induction false} SplitAppend(p: string, sep: char, rest: string, seps: set<char>)
    requires sep in seps && forall c | c in p :: c !in seps
    ensures Split(p + [sep] + rest, seps) == [p] + Split(rest, seps)
  {
    var s := p + [sep] + rest;
    if p == [] {
      assert s[1..] == rest;
    } else {
      SplitAppend(p[1..], sep, rest, seps);
      assert s[1..] == p[1..] + [sep] + rest;
      assert p == [p[0]] + p[1..];
    }
  }

  /** Splitting undoes joining when no piece holds a separator. */
  lemma {:induction false} SplitJoin(parts: seq<string>, sep: char, seps: set<char>)
    requires parts != [] && sep in seps
    requires forall p, c | p in parts && c in p :: c !in seps
    ensures Split(Join(parts, sep), seps) == parts
  {
    if |parts| == 1 {
      SplitNoSeparator(parts[0], seps);
    } else {
      SplitAppend(parts[0], sep, Join(parts[1..], sep), seps);
      SplitJoin(parts[1..], sep, seps);
    }
  }

  function DigitChar(d: nat): char
    requires d < 10
  {
    ('0' as int + d) as char
  }

  function Digits(n: nat): string {
    if n < 10 then [DigitChar(n)] else Digits(n / 10) + [DigitChar(n % 10)]
  }

  /** `strconv.Itoa`. */
  function Itoa(n: int): string {
    if n < 0 then ['-'] + Digits(-n) else Digits(n)
  }

  predicate IsDigit(c: char) {
    '0' <= c <= '9'
  }

  lemma {:induction false} DigitsAreDigits(n: nat)
    ensures Digits(n) != [] && forall c | c in Digits(n) :: IsDigit(c)
  {
    if n >= 10 {
      DigitsAreDigits(n / 10);
    }
  }

  lemma {:induction false} DigitsInjective(m: nat, n: nat)
    requires Digits(m) == Digits(n)
    ensures m == n
  {
    var a, b := Digits(m), Digits(n);
    DigitsAreDigits(m / 10);
    DigitsAreDigits(n / 10);
    assert a[|a| - 1] == DigitChar(m % 10) && b[|b| - 1] == DigitChar(n % 10);
    if m >= 10 && n >= 10 {
      assert a[..|a| - 1] == Digits(m / 10) && b[..|b| - 1] == Digits(n / 10);
      DigitsInjective(m / 10, n / 10);
    }
  }

  lemma ItoaSign(n: int)
    ensures Itoa(n) != []
    ensures n < 0 <==> Itoa(n)[0] == '-'
    ensures forall c | c in Itoa(n) :: c == '-' || IsDigit(c)
  {
    DigitsAreDigits(if n < 0 then -n else n);
    if n >= 0 {
      assert Itoa(n)[0] in Digits(n);
    }
  }

  /** Decimal numerals are injective. */
  lemma ItoaInjective(m: int, n: int)
    requires Itoa(m) == Itoa(n)
    ensures m == n
  {
    ItoaSign(m);
    ItoaSign(n);
    if m < 0 {
      assert Itoa(m)[1..] == Digits(-m) && Itoa(n)[1..] == Digits(-n);
      DigitsInjective(-m, -n);
    } else {
      DigitsInjective(m, n);
    }
  }

  lemma SeparatorInLonger(a: string, x: string, b: string, y: string, sep: char)
    requires a + [sep] + x == b + [sep] + y && |x| < |y|
    ensures sep in y
  {
    var k := |y| - |x| - 1;
    assert (b + [sep] + y)[|a|] == y[k] && (a + [sep] + x)[|a|] == sep;
  }

  /** A text splits in only one way at its last separator. */
  lemma LastSeparator(a: string, x: string, b: string, y: string, sep: char)
    requires a + [sep] + x == b + [sep] + y && sep !in x && sep !in y
    ensures a == b && x == y
  {
    if |x| < |y| {
      SeparatorInLonger(a, x, b, y, sep);
    } else if |y| < |x| {
      SeparatorInLonger(b, y, a, x, sep);
    } else {
      var s := a + [sep] + x;
      assert s[..|a|] == a && s[|a| + 1..] == x;
      assert (b + [sep] + y)[..|b|] == b && (b + [sep] + y)[|b| + 1..] == y;
    }
  }

  /** A name and a number joined by a separator that numerals never hold. */
  lemma NumberedNameInjective(a: string, m: int, b: string, n: int, sep: char)
    requires sep != '-' && !IsDigit(sep)
    ensures a + [sep] + Itoa(m) == b + [sep] + Itoa(n) <==> a == b && m == n
  {
    if a + [sep] + Itoa(m) == b + [sep] + Itoa(n) {
      ItoaSign(m);
      ItoaSign(n);
      LastSeparator(a, Itoa(m), b, Itoa(n), sep);
      ItoaInjective(m, n);
    }
  }
}
