/** The `str` operations the proxy relies on: replacement, splitting, trimming, decimal numbers, UTF-8. */
module Text {
  import opened Common

  // ---------------------------------------------------------------- substrings

  predicate OccursAt(s: string, sub: string, i: int) {
    0 <= i && i + |sub| <= |s| && s[i..i + |sub|] == sub
  }

  predicate Occurs(s: string, sub: string) {
    exists i | 0 <= i <= |s| :: OccursAt(s, sub, i)
  }

  /** `str::find`: the first position at or after `start`. */
  function FindFrom(s: string, sub: string, start: nat): (r: Option<nat>)
    requires start <= |s|
    ensures r.Some? ==> start <= r.value && OccursAt(s, sub, r.value)
    ensures r.Some? ==> forall j | start <= j < r.value :: !OccursAt(s, sub, j)
    ensures r.None? ==> forall j | start <= j <= |s| :: !OccursAt(s, sub, j)
    decreases |s| - start
  {
    if OccursAt(s, sub, start) then Some(start)
    else if start == |s| then None
    else FindFrom(s, sub, start + 1)
  }

  // ---------------------------------------------------------------- str::replace

  /** `str::replace`: replace the first match, go on behind it. */
  function Replace(s: string, from: string, to: string): string
    requires from != ""
    decreases |s|
  {
    match FindFrom(s, from, 0)
    case None => s
    case Some(i) => s[..i] + to + Replace(s[i + |from|..], from, to)
  }

  /** How many matches `Replace` replaces. */
  function Replacements(s: string, from: string): nat
    requires from != ""
    decreases |s|
  {
    match FindFrom(s, from, 0)
    case None => 0
    case Some(i) => 1 + Replacements(s[i + |from|..], from)
  }

  function Join(pieces: seq<string>, sep: string): string {
    if |pieces| == 0 then ""
    else if |pieces| == 1 then pieces[0]
    else pieces[0] + sep + Join(pieces[1..], sep)
  }

  /** `pieces` is what is left of `s` around the leftmost non-overlapping matches of `from`:
      no match starts before the one that ends a piece. */
  ghost predicate LeftmostSplit(s: string, from: string, pieces: seq<string>)
    requires from != ""
    decreases |pieces|
  {
    if |pieces| == 0 then false
    else if |pieces| == 1 then s == pieces[0] && !Occurs(s, from)
    else
      var n := |pieces[0]|;
      && pieces[0] <= s
      && OccursAt(s, from, n)
      && (forall j | 0 <= j < n :: !OccursAt(s, from, j))
      && LeftmostSplit(s[n + |from|..], from, pieces[1..])
  }

  /** The leftmost split exists. */
  lemma {:induction false} LeftmostSplitExists(s: string, from: string) returns (pieces: seq<string>)
    requires from != ""
    ensures LeftmostSplit(s, from, pieces)
    decreases |s|
  {
    match FindFrom(s, from, 0)
    case None =>
      pieces := [s];
    case Some(i) =>
      var rest := LeftmostSplitExists(s[i + |from|..], from);
      pieces := [s[..i]] + rest;
      assert pieces[1..] == rest;
  }

  lemma SplitHead(s: string, from: string, pieces: seq<string>) returns (rest: string)
    requires from != "" && |pieces| > 1 && LeftmostSplit(s, from, pieces)
    ensures FindFrom(s, from, 0) == Some(|pieces[0]|)
    ensures s == pieces[0] + from + rest && rest == s[|pieces[0]| + |from|..]
    ensures LeftmostSplit(rest, from, pieces[1..])
  {
    rest := s[|pieces[0]| + |from|..];
  }

  /** Putting the needle back between the pieces gives the text. */
  lemma {:induction false} SplitJoins(s: string, from: string, pieces: seq<string>)
    requires from != "" && LeftmostSplit(s, from, pieces)
    ensures Join(pieces, from) == s
    decreases |pieces|
  {
    if |pieces| > 1 {
      var rest := SplitHead(s, from, pieces);
      SplitJoins(rest, from, pieces[1..]);
    }
  }

  /** Putting `to` between the pieces gives the replaced text, whichever leftmost split is taken. */
  lemma {:induction false} ReplaceIsJoin(s: string, from: string, to: string, pieces: seq<string>)
    requires from != "" && LeftmostSplit(s, from, pieces)
    ensures Replace(s, from, to) == Join(pieces, to)
    ensures Replacements(s, from) == |pieces| - 1
    decreases |pieces|
  {
    if |pieces| > 1 {
      var rest := SplitHead(s, from, pieces);
      ReplaceIsJoin(rest, from, to, pieces[1..]);
      assert s[..|pieces[0]|] == pieces[0];
    }
  }

  /** |out| + k * |from| == |in| + k * |to|. */
  lemma {:induction false} ReplaceLength(s: string, from: string, to: string)
    requires from != ""
    ensures |Replace(s, from, to)| + Replacements(s, from) * |from| == |s| + Replacements(s, from) * |to|
    decreases |s|
  {
    match FindFrom(s, from, 0)
    case None =>
    case Some(i) =>
      var rest := s[i + |from|..];
      ReplaceLength(rest, from, to);
      var k := Replacements(rest, from);
      MulSucc(k, |from|);
      MulSucc(k, |to|);
      assert |Replace(s, from, to)| == i + |to| + |Replace(rest, from, to)|;
  }

  lemma MulSucc(k: nat, a: nat)
    ensures (k + 1) * a == k * a + a
  {
  }

  lemma {:induction false} ReplaceBySelf(s: string, from: string)
    requires from != ""
    ensures Replace(s, from, from) == s
  {
    var pieces := LeftmostSplitExists(s, from);
    ReplaceIsJoin(s, from, from, pieces);
    SplitJoins(s, from, pieces);
  }

  /** Replacement changes a text exactly when the needle occurs in it and differs from its replacement. */
  lemma ReplaceChangesIff(s: string, from: string, to: string)
    requires from != ""
    ensures Replace(s, from, to) != s <==> Occurs(s, from) && from != to
    ensures Replacements(s, from) > 0 <==> Occurs(s, from)
  {
    ReplaceBySelf(s, from);
    match FindFrom(s, from, 0)
    case None =>
    case Some(i) =>
      if Replace(s, from, to) == s {
        ReplaceLength(s, from, to);
        MulCancel(Replacements(s, from), |from|, |to|);
        assert s[i..i + |from|] == to;
      }
  }

  lemma MulCancel(k: nat, a: nat, b: nat)
    requires k > 0 && k * a == k * b
    ensures a == b
  {
    assert k * (a - b) == 0;
  }

  // ---------------------------------------------------------------- split on a character, trim, lower case

  function SplitOn(s: string, c: char): (parts: seq<string>)
    ensures parts != []
    ensures forall part | part in parts :: c !in part
  {
    if s == "" then [""]
    else
      var rest := SplitOn(s[1..], c);
      if s[0] == c then [""] + rest else [[s[0]] + rest[0]] + rest[1..]
  }

  /** The parts, put together with the separator, are the text; as none of them holds it, no others would be. */
  lemma {:induction false} SplitOnJoins(s: string, c: char)
    ensures Join(SplitOn(s, c), [c]) == s
  {
    if s != "" {
      var rest, parts := SplitOn(s[1..], c), SplitOn(s, c);
      SplitOnJoins(s[1..], c);
      if s[0] == c {
        assert parts[1..] == rest;
        assert Join(parts, [c]) == "" + [c] + Join(rest, [c]);
      } else {
        assert parts[1..] == rest[1..];
        if |rest| > 1 {
          assert Join(parts, [c]) == [s[0]] + (rest[0] + [c] + Join(rest[1..], [c]));
        }
      }
    }
  }

  lemma {:induction false} SplitOnHead(head: string, rest: string, c: char)
    requires c !in head
    ensures SplitOn(head + ([c] + rest), c) == [head] + SplitOn(rest, c)
  {
    var whole := head + ([c] + rest);
    if head == "" {
      assert whole == [c] + rest && whole[1..] == rest;
    } else {
      assert whole[0] == head[0] && whole[1..] == head[1..] + ([c] + rest);
      SplitOnHead(head[1..], rest, c);
      assert [head[0]] + head[1..] == head;
    }
  }

  lemma {:induction false} SplitOnPlain(s: string, c: char)
    requires c !in s
    ensures SplitOn(s, c) == [s]
  {
    if s != "" {
      SplitOnPlain(s[1..], c);
      assert [s[0]] + s[1..] == s;
    }
  }

  /** The Unicode White_Space property, which `str::trim` uses. */
  predicate IsWhitespace(c: char) {
    var n := c as int;
    || 0x09 <= n <= 0x0D || n == 0x20 || n == 0x85 || n == 0xA0 || n == 0x1680 || 0x2000 <= n <= 0x200A
    || n == 0x2028 || n == 0x2029 || n == 0x202F || n == 0x205F || n == 0x3000
  }

  /** The code points that have the property, one by one. */
  lemma WhitespaceIff(c: char)
    ensures IsWhitespace(c) <==> c as int in {
      0x09, 0x0A, 0x0B, 0x0C, 0x0D, 0x20, 0x85, 0xA0, 0x1680, 0x2000, 0x2001, 0x2002, 0x2003, 0x2004, 0x2005, 0x2006,
      0x2007, 0x2008, 0x2009, 0x200A, 0x2028, 0x2029, 0x202F, 0x205F, 0x3000}
  {
  }

  predicate Trimmed(s: string) {
    s != "" ==> !IsWhitespace(s[0]) && !IsWhitespace(s[|s| - 1])
  }

  function TrimStart(s: string): (r: string)
    ensures r != "" ==> !IsWhitespace(r[0])
    ensures |r| <= |s| && r == s[|s| - |r|..]
  {
    if s != "" && IsWhitespace(s[0]) then TrimStart(s[1..]) else s
  }

  function TrimEnd(s: string): (r: string)
    ensures r != "" ==> !IsWhitespace(r[|r| - 1])
    ensures r <= s
  {
    if s != "" && IsWhitespace(s[|s| - 1]) then TrimEnd(s[..|s| - 1]) else s
  }

  function Trim(s: string): (r: string)
    ensures Trimmed(r)
    ensures Trimmed(s) ==> r == s
    ensures forall c | c in r :: c in s
  {
    TrimEnd(TrimStart(s))
  }

  predicate AllWhitespace(s: string) { forall i | 0 <= i < |s| :: IsWhitespace(s[i]) }

  lemma {:induction false} TrimStartCuts(s: string)
    ensures AllWhitespace(s[..|s| - |TrimStart(s)|])
  {
    if s != "" && IsWhitespace(s[0]) {
      TrimStartCuts(s[1..]);
      var n := |s| - |TrimStart(s)|;
      assert s[..n] == [s[0]] + s[1..][..n - 1];
    }
  }

  lemma {:induction false} TrimEndCuts(s: string)
    ensures AllWhitespace(s[|TrimEnd(s)|..])
  {
    if s != "" && IsWhitespace(s[|s| - 1]) {
      var front := s[..|s| - 1];
      TrimEndCuts(front);
      var n := |TrimEnd(s)|;
      assert s[n..] == front[n..] + [s[|s| - 1]];
    }
  }

  lemma CutTwice(s: string, rest: string, kept: string) returns (before: string, after: string)
    requires |rest| <= |s| && rest == s[|s| - |rest|..] && AllWhitespace(s[..|s| - |rest|])
    requires kept <= rest && AllWhitespace(rest[|kept|..])
    ensures s == before + kept + after && AllWhitespace(before) && AllWhitespace(after)
  {
    before, after := s[..|s| - |rest|], rest[|kept|..];
    assert rest == kept + after && s == before + rest;
  }

  /** Trimming takes off white space at both ends and nothing else. */
  lemma TrimCuts(s: string) returns (before: string, after: string)
    ensures s == before + Trim(s) + after && AllWhitespace(before) && AllWhitespace(after)
  {
    var rest := TrimStart(s);
    var kept := TrimEnd(rest);
    assert kept == Trim(s);
    TrimStartCuts(s);
    TrimEndCuts(rest);
    before, after := CutTwice(s, rest, kept);
  }

  function LowerChar(c: char): (r: char)
    ensures !('A' <= r <= 'Z')
    ensures 'A' <= c <= 'Z' ==> 'a' <= r <= 'z' && r as int - 'a' as int == c as int - 'A' as int
    ensures !('A' <= c <= 'Z') ==> r == c
  {
    if 'A' <= c <= 'Z' then (c as int + 32) as char else c
  }

  function Lower(s: string): (r: string)
    ensures |r| == |s|
    ensures forall i | 0 <= i < |s| :: r[i] == LowerChar(s[i])
  {
    seq(|s|, i requires 0 <= i < |s| => LowerChar(s[i]))
  }

  // ---------------------------------------------------------------- decimal numbers

  const I64_MAX: int := 0x7FFF_FFFF_FFFF_FFFF
  const U64_MAX: int := 0xFFFF_FFFF_FFFF_FFFF

  predicate IsDigit(c: char) { '0' <= c <= '9' }

  predicate AllDigits(s: string) { forall i | 0 <= i < |s| :: IsDigit(s[i]) }

  function Digit(n: nat): char
    requires n < 10
  {
    ('0' as int + n) as char
  }

  /** `to_string` of an unsigned integer. */
  function Decimal(n: nat): (s: string)
    ensures s != "" && AllDigits(s)
  {
    if n < 10 then [Digit(n)] else Decimal(n / 10) + [Digit(n % 10)]
  }

  function DigitsValue(s: string): nat
    requires AllDigits(s)
  {
    if s == "" then 0 else 10 * DigitsValue(s[..|s| - 1]) + (s[|s| - 1] as int - '0' as int)
  }

  /** `parse::<u64>` and, on a 64-bit machine, `parse::<usize>`: one optional `+`, digits, no overflow. */
  function ParseU64(s: string): Option<nat> {
    var digits := if s != "" && s[0] == '+' then s[1..] else s;
    if digits != "" && AllDigits(digits) && DigitsValue(digits) <= U64_MAX then Some(DigitsValue(digits)) else None
  }

  /** `parse::<i64>`. */
  function ParseI64(s: string): Option<int> {
    var negative := s != "" && s[0] == '-';
    var digits := if s != "" && (s[0] == '+' || s[0] == '-') then s[1..] else s;
    if digits == "" || !AllDigits(digits) then None
    else if negative then (if DigitsValue(digits) <= I64_MAX + 1 then Some(0 - DigitsValue(digits)) else None)
    else if DigitsValue(digits) <= I64_MAX then Some(DigitsValue(digits))
    else None
  }

  lemma {:induction false} DecimalValue(n: nat)
    ensures DigitsValue(Decimal(n)) == n
  {
    if n >= 10 {
      DecimalValue(n / 10);
      var s := Decimal(n);
      assert s[..|s| - 1] == Decimal(n / 10);
    } else {
      assert Decimal(n)[..0] == "";
    }
  }

  /** Printing then parsing a number gives it back, up to the width of the parsed type. */
  lemma DecimalRoundTrip(n: nat)
    ensures ParseU64(Decimal(n)) == (if n <= U64_MAX then Some(n) else None)
    ensures ParseI64(Decimal(n)) == (if n <= I64_MAX then Some(n) else None)
  {
    DecimalValue(n);
    assert IsDigit(Decimal(n)[0]);
  }

  function Zeros(n: nat): (s: string)
    ensures |s| == n && AllDigits(s) && forall i | 0 <= i < n :: s[i] == '0'
  {
    seq(n, i => '0')
  }

  lemma {:induction false} ZerosValue(n: nat)
    ensures DigitsValue(Zeros(n)) == 0
  {
    if n > 0 {
      ZerosValue(n - 1);
      assert Zeros(n)[..n - 1] == Zeros(n - 1);
    }
  }

  lemma {:induction false} PaddedValue(zeros: nat, s: string)
    requires AllDigits(s)
    ensures AllDigits(Zeros(zeros) + s) && DigitsValue(Zeros(zeros) + s) == DigitsValue(s)
    decreases |s|
  {
    if s == "" {
      ZerosValue(zeros);
      assert Zeros(zeros) + s == Zeros(zeros);
    } else {
      var front := s[..|s| - 1];
      PaddedValue(zeros, front);
      var whole := Zeros(zeros) + s;
      assert whole[..|whole| - 1] == Zeros(zeros) + front;
    }
  }

  lemma AppendDigit(n: nat, digit: nat)
    requires digit < 10 && n > 0
    ensures Decimal(10 * n + digit) == Decimal(n) + [Digit(digit)]
  {
    assert (10 * n + digit) / 10 == n && (10 * n + digit) % 10 == digit;
  }

  lemma LastDigit(s: string) returns (front: string, digit: nat)
    requires s != "" && AllDigits(s)
    ensures digit < 10 && AllDigits(front) && s == front + [Digit(digit)] && |front| == |s| - 1
    ensures DigitsValue(s) == 10 * DigitsValue(front) + digit
  {
    front, digit := s[..|s| - 1], s[|s| - 1] as int - '0' as int;
  }

  /** A string of digits is a number in decimal with some zeros before it. */
  lemma {:induction false} DigitsArePadded(s: string) returns (zeros: nat)
    requires s != "" && AllDigits(s)
    ensures s == Zeros(zeros) + Decimal(DigitsValue(s))
    decreases |s|
  {
    var front, digit := LastDigit(s);
    if front == "" {
      zeros := 0;
      assert DigitsValue(front) == 0;
    } else {
      zeros := DigitsArePadded(front);
      var n := DigitsValue(front);
      if n == 0 {
        assert front == Zeros(zeros) + ['0'];
        zeros := zeros + 1;
        assert front == Zeros(zeros);
      } else {
        AppendDigit(n, digit);
      }
    }
  }

  /** A number is written with an optional sign, any zeros, and its decimal digits. */
  ghost predicate Writes(s: string, sign: string, n: nat) {
    exists zeros: nat :: s == sign + (Zeros(zeros) + Decimal(n))
  }

  lemma DigitsWrite(s: string, sign: string, digits: string, n: nat)
    requires s == sign + digits
    ensures digits != "" && AllDigits(digits) && DigitsValue(digits) == n <==> Writes(s, sign, n)
  {
    if digits != "" && AllDigits(digits) && DigitsValue(digits) == n {
      var zeros := DigitsArePadded(digits);
      assert s == sign + (Zeros(zeros) + Decimal(n));
    }
    if Writes(s, sign, n) {
      var zeros: nat :| s == sign + (Zeros(zeros) + Decimal(n));
      assert digits == s[|sign|..] && Zeros(zeros) + Decimal(n) == s[|sign|..];
      PaddedValue(zeros, Decimal(n));
      DecimalValue(n);
    }
  }

  lemma SignIsFirst(s: string, sign: char, n: nat)
    requires !IsDigit(sign)
    ensures Writes(s, [sign], n) ==> s != "" && s[0] == sign
    ensures Writes(s, "", n) ==> s != "" && IsDigit(s[0])
  {
    if Writes(s, "", n) {
      var zeros: nat :| s == "" + (Zeros(zeros) + Decimal(n));
      assert s == Zeros(zeros) + Decimal(n);
      if zeros > 0 {
        assert s[0] == Zeros(zeros)[0];
      } else {
        assert s == Decimal(n);
      }
    }
  }

  /** What is parsed as an unsigned number: its digits, perhaps after zeros and a plus, if it is not too large. */
  lemma ParseU64Iff(s: string, n: nat)
    ensures ParseU64(s) == Some(n) <==> n <= U64_MAX && (Writes(s, "", n) || Writes(s, "+", n))
  {
    SignIsFirst(s, '+', n);
    assert s == "" + s;
    if s != "" && s[0] == '+' {
      assert s == "+" + s[1..];
      DigitsWrite(s, "+", s[1..], n);
    } else {
      DigitsWrite(s, "", s, n);
    }
  }

  /** And as a signed one; a minus is allowed too. */
  lemma ParseI64Iff(s: string, n: nat)
    ensures ParseI64(s) == Some(n) <==>
      (n <= I64_MAX && (Writes(s, "", n) || Writes(s, "+", n))) || (n == 0 && Writes(s, "-", 0))
  {
    SignIsFirst(s, '+', n);
    SignIsFirst(s, '-', n);
    assert s == "" + s;
    if s != "" && s[0] == '+' {
      assert s == "+" + s[1..];
      DigitsWrite(s, "+", s[1..], n);
    } else if s != "" && s[0] == '-' {
      assert s == "-" + s[1..];
      DigitsWrite(s, "-", s[1..], n);
    } else {
      DigitsWrite(s, "", s, n);
    }
  }

  lemma ParseNegativeIff(s: string, n: nat)
    requires n > 0
    ensures ParseI64(s) == Some(0 - n) <==> n <= I64_MAX + 1 && Writes(s, "-", n)
  {
    SignIsFirst(s, '-', n);
    if s != "" && s[0] == '-' {
      assert s == "-" + s[1..];
      DigitsWrite(s, "-", s[1..], n);
    }
  }

  // ---------------------------------------------------------------- UTF-8

  function EncodeChar(c: char): (bytes: seq<byte>)
    ensures bytes != []
    ensures c as int < 0x80 ==> bytes == [c as int]
  {
    var n := c as int;
    if n < 0x80 then [n]
    else if n < 0x800 then [0xC0 + n / 0x40, 0x80 + n % 0x40]
    else if n < 0x1_0000 then [0xE0 + n / 0x1000, 0x80 + n / 0x40 % 0x40, 0x80 + n % 0x40]
    else [0xF0 + n / 0x4_0000, 0x80 + n / 0x1000 % 0x40, 0x80 + n / 0x40 % 0x40, 0x80 + n % 0x40]
  }

  /** `String::into_bytes`. */
  function Encode(s: string): seq<byte> {
    if s == "" then [] else EncodeChar(s[0]) + Encode(s[1..])
  }

  predicate IsContinuation(b: byte) { 0x80 <= b < 0xC0 }

  /** How many bytes the first byte of a character announces (section 3 of RFC 3629). */
  function Announced(first: byte): nat {
    if first < 0x80 then 1 else if first < 0xE0 then 2 else if first < 0xF0 then 3 else 4
  }

  predicate IsEncoding(bytes: seq<byte>, c: char) {
    && bytes != [] && |bytes| == Announced(bytes[0]) && (bytes[0] < 0x80 || 0xC0 <= bytes[0] < 0xF8)
    && (forall i | 1 <= i < |bytes| :: IsContinuation(bytes[i]))
    && PayloadOf(bytes) == c as int
  }

  /** The payload bits of a byte. */
  function Bits(b: int, modulus: int): int
    requires modulus > 0
  {
    b % modulus
  }

  function PayloadOf(bytes: seq<byte>): int
    requires bytes != []
  {
    match |bytes|
    case 1 => bytes[0]
    case 2 => Bits(bytes[0], 0x20) * 0x40 + Bits(bytes[1], 0x40)
    case 3 => Bits(bytes[0], 0x10) * 0x1000 + Bits(bytes[1], 0x40) * 0x40 + Bits(bytes[2], 0x40)
    case 4 =>
      Bits(bytes[0], 0x08) * 0x4_0000 + Bits(bytes[1], 0x40) * 0x1000
      + Bits(bytes[2], 0x40) * 0x40 + Bits(bytes[3], 0x40)
    case _ => -1
  }

  lemma LeadBits(payload: int)
    requires 0 <= payload
    ensures payload < 0x20 ==> Bits(0xC0 + payload, 0x20) == payload
    ensures payload < 0x10 ==> Bits(0xE0 + payload, 0x10) == payload
    ensures payload < 0x08 ==> Bits(0xF0 + payload, 0x08) == payload
  {
  }

  lemma SixBits(n: int)
    requires 0 <= n
    ensures n == n / 0x40 * 0x40 + n % 0x40 && 0 <= n % 0x40 < 0x40
    ensures Bits(0x80 + n % 0x40, 0x40) == n % 0x40
  {
  }

  /** Every character is encoded as RFC 3629 has it, so it can be read back. */
  lemma EncodeCharIs(c: char)
    ensures IsEncoding(EncodeChar(c), c)
  {
    var n := c as int;
    if 0x80 <= n < 0x800 {
      SixBits(n);
      LeadBits(n / 0x40);
    } else if 0x800 <= n < 0x1_0000 {
      SixBits(n);
      SixBits(n / 0x40);
      assert n / 0x40 / 0x40 == n / 0x1000;
      LeadBits(n / 0x1000);
    } else if 0x1_0000 <= n {
      SixBits(n);
      SixBits(n / 0x40);
      SixBits(n / 0x1000);
      assert n / 0x40 / 0x40 == n / 0x1000 && n / 0x1000 / 0x40 == n / 0x4_0000;
      LeadBits(n / 0x4_0000);
    }
  }

  /** A text is encoded character by character. */
  lemma {:induction false} EncodeConcat(a: string, b: string)
    ensures Encode(a + b) == Encode(a) + Encode(b)
  {
    if a == "" {
      assert a + b == b;
    } else {
      assert (a + b)[0] == a[0] && (a + b)[1..] == a[1..] + b;
      EncodeConcat(a[1..], b);
    }
  }

  lemma {:induction false} EncodeAscii(s: string)
    requires forall i | 0 <= i < |s| :: s[i] as int < 0x80
    ensures |Encode(s)| == |s|
    ensures forall i | 0 <= i < |s| :: Encode(s)[i] == s[i] as int
  {
    if s != "" {
      EncodeAscii(s[1..]);
    }
  }

  // ---------------------------------------------------------------- control characters

  /** A control character that no header value may hold; the tab is allowed. */
  predicate IsControl(c: char) { (c as int < 32 && c as int != 9) || c as int == 127 }

  predicate HasControl(s: string) { exists i | 0 <= i < |s| :: IsControl(s[i]) }

  lemma HasControlConcat(a: string, b: string)
    ensures HasControl(a + b) <==> HasControl(a) || HasControl(b)
  {
    if i :| 0 <= i < |a| && IsControl(a[i]) { assert IsControl((a + b)[i]); }
    if i :| 0 <= i < |b| && IsControl(b[i]) { assert IsControl((a + b)[|a| + i]); }
  }

  lemma HasControlPart(s: string, from: nat, to: nat)
    requires from <= to <= |s| && !HasControl(s)
    ensures !HasControl(s[from..to])
  {
    assert forall i | 0 <= i < to - from :: s[from..to][i] == s[from + i];
  }

  /** Replacement in a text without control characters brings one in exactly if the needle occurs and its replacement
      holds one. */
  lemma {:induction false} ReplaceControl(s: string, from: string, to: string)
    requires from != "" && !HasControl(s)
    ensures HasControl(Replace(s, from, to)) <==> Occurs(s, from) && HasControl(to)
    decreases |s|
  {
    match FindFrom(s, from, 0)
    case None =>
    case Some(i) =>
      var rest := s[i + |from|..];
      HasControlPart(s, 0, i);
      HasControlPart(s, i + |from|, |s|);
      ReplaceControl(rest, from, to);
      HasControlConcat(s[..i] + to, Replace(rest, from, to));
      HasControlConcat(s[..i], to);
  }
}
