/** The string operations of Rust's standard library that the modelled code relies on:
    split, join, trim, prefix and suffix tests, and printing and parsing of unsigned decimals. */
module Text {
  import opened Wrappers

  const U8_MAX: nat := 0xFF
  const U16_MAX: nat := 0xFFFF
  const U32_MAX: nat := 0xFFFF_FFFF
  const U64_MAX: nat := 0xFFFF_FFFF_FFFF_FFFF

  ghost predicate FreeOf(s: string, seps: set<char>) {
    forall i :: 0 <= i < |s| ==> s[i] !in seps
  }

  predicate EndsWith(s: string, t: string) {
    |t| <= |s| && s[|s| - |t|..] == t
  }

  predicate OccursAt(s: string, t: string, i: nat) {
    i + |t| <= |s| && s[i..i + |t|] == t
  }

  predicate Contains(s: string, t: string) {
    exists i | 0 <= i <= |s| :: OccursAt(s, t, i)
  }

  function StripPrefix(s: string, p: string): Option<string> {
    if p <= s then Some(s[|p|..]) else None
  }

  function StripSuffix(s: string, t: string): Option<string> {
    if EndsWith(s, t) then Some(s[..|s| - |t|]) else None
  }

  /* ---------- split and join ---------- */

  /** `str::split` on a set of characters: one more piece than there are separators. */
  function Split(s: string, seps: set<char>): (parts: seq<string>)
    ensures |parts| > 0
  {
    if s == [] then [""]
    else
      var rest := Split(s[1..], seps);
      if s[0] in seps then [""] + rest else [[s[0]] + rest[0]] + rest[1..]
  }

  function Join(parts: seq<string>, sep: string): string {
    if |parts| == 0 then ""
    else if |parts| == 1 then parts[0]
    else parts[0] + sep + Join(parts[1..], sep)
  }

  lemma {:induction false} SplitFree(s: string, seps: set<char>)
    requires FreeOf(s, seps)
    ensures Split(s, seps) == [s]
  {
    if s != [] {
      SplitFree(s[1..], seps);
      assert [s[0]] + s[1..] == s;
    }
  }

  lemma {:induction false} SplitPiecesFree(s: string, seps: set<char>)
    ensures forall p :: p in Split(s, seps) ==> FreeOf(p, seps)
  {
    if s != [] {
      var rest := Split(s[1..], seps);
      SplitPiecesFree(s[1..], seps);
      assert rest[0] in rest && forall p :: p in rest[1..] ==> p in rest;
    }
  }

  lemma {:induction false} SplitAt(a: string, c: char, b: string, seps: set<char>)
    requires c in seps
    ensures Split(a + [c] + b, seps) == Split(a, seps) + Split(b, seps)
  {
    var s := a + [c] + b;
    if a == [] {
      assert s[1..] == b;
    } else {
      assert s[1..] == a[1..] + [c] + b;
      SplitAt(a[1..], c, b, seps);
    }
  }

  /** Splitting a joined list splits every member; in particular separator-free members come back. */
  lemma {:induction false} SplitJoin(parts: seq<string>, c: char, seps: set<char>)
    requires parts != [] && c in seps
    ensures Split(Join(parts, [c]), seps) == Flatten(seq(|parts|, i requires 0 <= i < |parts| => Split(parts[i], seps)))
  {
    var pieces := seq(|parts|, i requires 0 <= i < |parts| => Split(parts[i], seps));
    if |parts| == 1 {
      assert pieces == [Split(parts[0], seps)];
      assert pieces[1..] == [];
    } else {
      SplitJoin(parts[1..], c, seps);
      SplitAt(parts[0], c, Join(parts[1..], [c]), seps);
      assert pieces[1..] == seq(|parts[1..]|, i requires 0 <= i < |parts[1..]| => Split(parts[1..][i], seps));
    }
  }

  lemma {:induction false} SplitJoinFree(parts: seq<string>, c: char, seps: set<char>)
    requires parts != [] && c in seps
    requires forall p :: p in parts ==> FreeOf(p, seps)
    ensures Split(Join(parts, [c]), seps) == parts
  {
    if |parts| == 1 {
      SplitFree(parts[0], seps);
    } else {
      SplitAt(parts[0], c, Join(parts[1..], [c]), seps);
      SplitFree(parts[0], seps);
      SplitJoinFree(parts[1..], c, seps);
      assert [parts[0]] + parts[1..] == parts;
    }
  }

  lemma {:induction false} JoinSplit(s: string, c: char)
    ensures Join(Split(s, {c}), [c]) == s
  {
    if s != [] {
      var rest := Split(s[1..], {c});
      JoinSplit(s[1..], c);
      assert [s[0]] + s[1..] == s;
      if s[0] in {c} {
        assert Split(s, {c}) == [""] + rest;
        assert ([""] + rest)[1..] == rest;
      } else {
        var here := [[s[0]] + rest[0]] + rest[1..];
        assert Split(s, {c}) == here;
        assert here[1..] == rest[1..];
      }
    }
  }

  lemma {:induction false} JoinFree(parts: seq<string>, sep: string, cs: set<char>)
    requires FreeOf(sep, cs) && forall p :: p in parts ==> FreeOf(p, cs)
    ensures FreeOf(Join(parts, sep), cs)
  {
    if |parts| > 1 {
      assert parts[0] in parts && forall p :: p in parts[1..] ==> p in parts;
      JoinFree(parts[1..], sep, cs);
    } else if |parts| == 1 {
      assert parts[0] in parts;
    }
  }

  /** The last piece of a key that is cut at slashes. */
  function LastSegment(key: string): string {
    var parts := Split(key, {'/'});
    parts[|parts| - 1]
  }

  lemma LastSegmentOf(dir: string, file: string)
    requires FreeOf(file, {'/'})
    ensures LastSegment(dir + "/" + file) == file
  {
    SplitAt(dir, '/', file, {'/'});
    SplitFree(file, {'/'});
  }

  /* ---------- whitespace ---------- */

  /** `char::is_whitespace`: the Unicode property White_Space. */
  predicate IsWhitespace(c: char) {
    '\t' <= c <= '\r' || c == ' ' || c == '\U{0085}' || c == '\U{00A0}' || c == '\U{1680}'
    || '\U{2000}' <= c <= '\U{200A}' || c == '\U{2028}' || c == '\U{2029}' || c == '\U{202F}'
    || c == '\U{205F}' || c == '\U{3000}'
  }

  function TrimStart(s: string): string {
    if s != [] && IsWhitespace(s[0]) then TrimStart(s[1..]) else s
  }

  function TrimEnd(s: string): string {
    if s != [] && IsWhitespace(s[|s| - 1]) then TrimEnd(s[..|s| - 1]) else s
  }

  function Trim(s: string): string { TrimEnd(TrimStart(s)) }

  predicate AllWhitespace(s: string) { forall i :: 0 <= i < |s| ==> IsWhitespace(s[i]) }

  lemma {:induction false} TrimStartParts(s: string) returns (a: string)
    ensures s == a + TrimStart(s) && AllWhitespace(a)
    ensures TrimStart(s) != "" ==> !IsWhitespace(TrimStart(s)[0])
  {
    a := "";
    if s != [] && IsWhitespace(s[0]) {
      var rest := TrimStartParts(s[1..]);
      a := [s[0]] + rest;
      assert s == [s[0]] + s[1..];
    }
  }

  lemma {:induction false} TrimEndParts(s: string) returns (b: string)
    ensures s == TrimEnd(s) + b && AllWhitespace(b)
    ensures TrimEnd(s) != "" ==> !IsWhitespace(TrimEnd(s)[|TrimEnd(s)| - 1])
  {
    b := "";
    if s != [] && IsWhitespace(s[|s| - 1]) {
      var rest := TrimEndParts(s[..|s| - 1]);
      b := rest + [s[|s| - 1]];
      assert s == s[..|s| - 1] + [s[|s| - 1]];
    }
  }

  /** Trimming takes the white space at both ends and nothing else. */
  lemma TrimTakesWhitespace(s: string) returns (a: string, b: string)
    ensures s == a + Trim(s) + b && AllWhitespace(a) && AllWhitespace(b)
    ensures Trim(s) != "" ==> !IsWhitespace(Trim(s)[0]) && !IsWhitespace(Trim(s)[|Trim(s)| - 1])
  {
    a := TrimStartParts(s);
    b := TrimEndParts(TrimStart(s));
  }

  /* ---------- unsigned decimals ---------- */

  predicate IsDigit(c: char) { '0' <= c <= '9' }

  predicate AllDigits(s: string) { forall i :: 0 <= i < |s| ==> IsDigit(s[i]) }

  function Digit(d: nat): (c: char)
    requires d < 10
    ensures IsDigit(c) && DigitValue(c) == d
  {
    ('0' as int + d) as char
  }

  function DigitValue(c: char): nat
    requires IsDigit(c)
  {
    c as int - '0' as int
  }

  /** The decimal digits of an unsigned integer. */
  function Decimal(n: nat): (s: string)
    ensures s != [] && AllDigits(s)
  {
    if n < 10 then [Digit(n)] else Decimal(n / 10) + [Digit(n % 10)]
  }

  function DigitsValue(s: string): nat
    requires AllDigits(s)
  {
    if s == [] then 0 else 10 * DigitsValue(s[..|s| - 1]) + DigitValue(s[|s| - 1])
  }

  /** `str::parse` of an unsigned integer type whose greatest value is `max`: an optional plus
      sign, at least one digit, and no overflow. */
  function ParseUnsigned(s: string, max: nat): Option<nat> {
    var digits := if |s| > 1 && s[0] == '+' then s[1..] else s;
    if digits != [] && AllDigits(digits) && DigitsValue(digits) <= max
    then Some(DigitsValue(digits)) else None
  }

  lemma {:induction false} DecimalValue(n: nat)
    ensures DigitsValue(Decimal(n)) == n
  {
    if n >= 10 {
      DecimalValue(n / 10);
      var s := Decimal(n);
      assert s[..|s| - 1] == Decimal(n / 10);
    } else {
      assert Decimal(n)[..0] == [];
    }
  }

  lemma DecimalInjective(m: nat, n: nat)
    requires Decimal(m) == Decimal(n)
    ensures m == n
  {
    DecimalValue(m);
    DecimalValue(n);
  }

  lemma ParseDecimal(n: nat, max: nat)
    ensures ParseUnsigned(Decimal(n), max) == (if n <= max then Some(n) else None)
  {
    DecimalValue(n);
    assert IsDigit(Decimal(n)[0]);
  }

  /** Which texts are numbers: digits, at least one, perhaps behind a plus sign, that do not overflow. */
  lemma ParseIff(s: string, max: nat, n: nat)
    ensures ParseUnsigned(s, max) == Some(n) <==>
              exists digits: string :: digits != "" && AllDigits(digits) && DigitsValue(digits) == n && n <= max
                                       && (s == digits || s == "+" + digits)
  {
    if digits: string :| digits != "" && AllDigits(digits) && DigitsValue(digits) == n && n <= max
                         && (s == digits || s == "+" + digits)
    {
      if s == digits {
        assert IsDigit(s[0]);
      } else {
        assert s[1..] == digits;
      }
    }
    if ParseUnsigned(s, max) == Some(n) && |s| > 1 && s[0] == '+' { assert s == "+" + s[1..]; }
  }

  /** A digit string is worth at least any of its prefixes. */
  lemma {:induction false} PrefixValue(p: string, s: string)
    requires p <= s && AllDigits(s)
    ensures AllDigits(p) && DigitsValue(p) <= DigitsValue(s)
    decreases |s|
  {
    if |p| == |s| {
      assert p == s;
    } else {
      assert p <= s[..|s| - 1];
      PrefixValue(p, s[..|s| - 1]);
    }
  }

  lemma DecimalPrefixIsSmaller(m: nat, n: nat)
    requires Decimal(m) <= Decimal(n)
    ensures m <= n
  {
    PrefixValue(Decimal(m), Decimal(n));
    DecimalValue(m);
    DecimalValue(n);
  }

  /** A string that holds a character other than digits and plus is not a number. */
  lemma ParseRejects(s: string, i: nat, max: nat)
    requires i < |s| && !IsDigit(s[i]) && s[i] != '+'
    ensures ParseUnsigned(s, max) == None
  {
    if |s| > 1 && s[0] == '+' {
      assert s[1..][i - 1] == s[i];
    }
  }

  /** Where a digit-only tail starts after the last underscore is unambiguous. */
  lemma UnderscoreTail(a: string, x: string, y: string)
    requires AllDigits(x) && AllDigits(y)
    ensures EndsWith(a + "_" + x, "_" + y) <==> x == y
  {
    var s := a + "_" + x;
    assert s[|a|] == '_' && s[|a| + 1..] == x;
    assert forall i :: |a| < i < |s| ==> s[i] == x[i - |a| - 1] && s[i] != '_';
    if EndsWith(s, "_" + y) {
      var p := |s| - |y| - 1;
      assert s[p..] == "_" + y;
      assert s[p] == s[p..][0] == '_';
      assert forall i :: p < i < |s| ==> s[i] == s[p..][i - p] == y[i - p - 1] && s[i] != '_';
      assert p == |a|;
      assert s[p..][1..] == y;
    }
    if x == y {
      assert s[|s| - |y| - 1..] == "_" + y;
    }
  }

  lemma ContainsLeft(a: string, b: string, t: string)
    requires Contains(a, t)
    ensures Contains(a + b, t)
  {
    var i :| 0 <= i <= |a| && OccursAt(a, t, i);
    assert (a + b)[i..i + |t|] == a[i..i + |t|];
    assert OccursAt(a + b, t, i);
  }

  /** An occurrence of `_<digits>` in `a_<digits>` lies in `a` or starts at the last underscore. */
  lemma UnderscoreOccurs(a: string, x: string, y: string, i: nat)
    requires AllDigits(x) && AllDigits(y)
    requires OccursAt(a + "_" + x, "_" + y, i)
    ensures OccursAt(a, "_" + y, i) || y <= x
  {
    var s := a + "_" + x;
    var t := s[i..i + |y| + 1];
    assert s[|a|] == '_' && t == "_" + y;
    assert forall j :: |a| < j < |s| ==> s[j] == x[j - |a| - 1] && s[j] != '_';
    assert forall j :: i < j <= i + |y| ==> s[j] == t[j - i] == y[j - i - 1] && s[j] != '_';
    assert s[i] == t[0] == '_';
    if i == |a| {
      assert y == t[1..] == x[..|y|];
    } else {
      assert a[i..i + |t|] == t;
    }
  }

  lemma UnderscoreContains(a: string, x: string, y: string)
    requires AllDigits(x) && AllDigits(y)
    ensures Contains(a + "_" + x, "_" + y) <==> Contains(a, "_" + y) || y <= x
  {
    var s := a + "_" + x;
    var t := "_" + y;
    if Contains(s, t) {
      var i :| 0 <= i <= |s| && OccursAt(s, t, i);
      UnderscoreOccurs(a, x, y, i);
    }
    if y <= x {
      assert s[|a|..|a| + |t|] == t;
      assert OccursAt(s, t, |a|);
    }
    if Contains(a, t) {
      ContainsLeft(a, "_" + x, t);
      assert a + ("_" + x) == s;
    }
  }

  /** Appending text without digits and underscores adds no occurrence of `_<digits>`. */
  lemma PlainTailContains(a: string, z: string, y: string)
    requires AllDigits(y) && y != []
    requires forall i :: 0 <= i < |z| ==> z[i] != '_' && !IsDigit(z[i])
    ensures Contains(a + z, "_" + y) <==> Contains(a, "_" + y)
  {
    var s := a + z;
    var t := "_" + y;
    assert forall i :: |a| <= i < |s| ==> s[i] == z[i - |a|] && !IsDigit(s[i]);
    if Contains(s, t) {
      var i :| 0 <= i <= |s| && OccursAt(s, t, i);
      var last := i + |t| - 1;
      assert t[|t| - 1] == y[|y| - 1] && IsDigit(y[|y| - 1]);
      assert s[last] == s[i..i + |t|][|t| - 1] == t[|t| - 1];
      assert a[i..i + |t|] == s[i..i + |t|];
      assert OccursAt(a, t, i);
    }
    if Contains(a, t) { ContainsLeft(a, z, t); }
  }

  /* ---------- addresses ---------- */

  function HostPort(host: string, port: nat): string {
    host + ":" + Decimal(port)
  }

  /** An address determines its host and port, even when the host holds colons. */
  lemma HostPortInjective(h1: string, p1: nat, h2: string, p2: nat)
    requires HostPort(h1, p1) == HostPort(h2, p2)
    ensures h1 == h2 && p1 == p2
  {
    var s, d1, d2 := HostPort(h1, p1), Decimal(p1), Decimal(p2);
    assert s[|h1|] == ':' && s[|h2|] == ':';
    assert s == h1 + ":" + d1 && s == h2 + ":" + d2;
    assert forall i :: |h1| < i < |s| ==> s[i] == d1[i - |h1| - 1] && s[i] != ':';
    assert forall i :: |h2| < i < |s| ==> s[i] == d2[i - |h2| - 1] && s[i] != ':';
    assert |h1| == |h2|;
    assert h1 == s[..|h1|] && h2 == s[..|h2|];
    assert d1 == s[|h1| + 1..] && d2 == s[|h2| + 1..];
    DecimalInjective(p1, p2);
  }

  lemma HostPortFree(h: string, p: nat, cs: set<char>)
    requires FreeOf(h, cs) && ':' !in cs && forall c :: c in cs ==> !IsDigit(c)
    ensures FreeOf(HostPort(h, p), cs)
  {
    var d := Decimal(p);
    assert forall i :: 0 <= i < |d| ==> IsDigit(d[i]);
  }
}
