/** The parts of Go's strings and strconv packages that the exporter's parsers rely on, over ASCII. */
module GoText {
  import opened Bits

  predicate IsSpace(c: char) { c in {' ', '\t', '\n', '\r'} || c as int in {11, 12} }

  function TrimLeft(s: string): string {
    if s != [] && IsSpace(s[0]) then TrimLeft(s[1..]) else s
  }

  function TrimRight(s: string): string {
    if s != [] && IsSpace(s[|s| - 1]) then TrimRight(s[..|s| - 1]) else s
  }

  function TrimSpace(s: string): string { TrimRight(TrimLeft(s)) }

  function LowerChar(c: char): char {
    if 'A' <= c <= 'Z' then (c as int + 32) as char else c
  }

  function ToLower(s: string): (r: string)
    ensures |r| == |s|
  {
    seq(|s|, i requires 0 <= i < |s| => LowerChar(s[i]))
  }

  predicate EqualFold(a: string, b: string) { ToLower(a) == ToLower(b) }

  /** White space: blank, tab, line feed, vertical tab, form feed and carriage return. */
  ghost predicate AllSpace(s: string) {
    forall i :: 0 <= i < |s| ==> s[i] in {' ', '\t', '\n', '\r'} || s[i] as int == 11 || s[i] as int == 12
  }

  lemma {:induction false} TrimLeftOf(a: string, t: string)
    requires AllSpace(a) && (t != [] ==> !AllSpace([t[0]]))
    ensures TrimLeft(a + t) == t
  {
    if a == [] {
      assert a + t == t;
      if t != [] {
        assert [t[0]][0] == t[0];
      }
    } else {
      assert (a + t)[1..] == a[1..] + t;
      TrimLeftOf(a[1..], t);
    }
  }

  lemma {:induction false} TrimRightOf(t: string, b: string)
    requires AllSpace(b) && (t != [] ==> !AllSpace([t[|t| - 1]]))
    ensures TrimRight(t + b) == t
  {
    if b == [] {
      assert t + b == t;
    } else {
      assert (t + b)[..|t + b| - 1] == t + b[..|b| - 1];
      TrimRightOf(t, b[..|b| - 1]);
    }
  }

  /** Trimming takes off exactly the white space around a text that neither starts nor ends with any. */
  lemma TrimSpaceOf(a: string, t: string, b: string)
    requires AllSpace(a) && AllSpace(b) && t != [] && !AllSpace([t[0]]) && !AllSpace([t[|t| - 1]])
    ensures TrimSpace(a + t + b) == t
  {
    assert a + t + b == a + (t + b) && (t + b)[0] == t[0];
    TrimLeftOf(a, t + b);
    TrimRightOf(t, b);
  }

  /** The characters are one, or one is the capital of the other. */
  ghost predicate SameLetter(c: char, d: char) {
    c == d || ('A' <= c <= 'Z' && d as int == c as int + 32) || ('A' <= d <= 'Z' && c as int == d as int + 32)
  }

  lemma LowerIff(c: char, d: char)
    ensures LowerChar(c) == LowerChar(d) <==> SameLetter(c, d)
  {
  }

  /** Two texts fold to one exactly if they differ in nothing but the case of letters. */
  lemma EqualFoldIff(a: string, b: string)
    ensures EqualFold(a, b) <==> |a| == |b| && forall i :: 0 <= i < |a| ==> SameLetter(a[i], b[i])
  {
    if |a| == |b| {
      forall i | 0 <= i < |a| ensures ToLower(a)[i] == ToLower(b)[i] <==> SameLetter(a[i], b[i]) {
        LowerIff(a[i], b[i]);
      }
    }
  }

  // ---- Numbers ----

  function DigitValue(c: char): nat {
    if '0' <= c <= '9' then c as int - '0' as int
    else if 'a' <= c <= 'z' then c as int - 'a' as int + 10
    else if 'A' <= c <= 'Z' then c as int - 'A' as int + 10
    else 255
  }

  datatype Scanned = Number(value: nat) | BadDigit | TooLarge

  /** The digits of s in this base, read until one is none or the number reaches the limit. */
  function ScanDigits(s: string, base: nat, limit: nat): Scanned {
    if s == [] then Number(0)
    else
      match ScanDigits(s[..|s| - 1], base, limit)
      case Number(n) =>
        var d := DigitValue(s[|s| - 1]);
        if d >= base then BadDigit else if n * base + d >= limit then TooLarge else Number(n * base + d)
      case r => r
  }

  /** strconv.ParseUint(s, 10, bits), with limit 2^bits. */
  function ParseUint(s: string, limit: nat): (r: Option<nat>)
    ensures r.Some? ==> r.value < limit
  {
    if s == [] then None
    else
      match ScanDigits(s, 10, limit)
      case Number(n) => Some(n)
      case _ => None
  }

  datatype Parsed = Parsed(value: int, ok: bool)

  /** strconv.ParseInt(s, base, bits), with limit 2^(bits-1): an out-of-range number yields the nearest
      one that fits, even if what follows is no digit; anything else that does not parse yields zero. */
  function ParseInt(s: string, base: nat, limit: nat): Parsed
    requires limit > 0
  {
    var neg := s != [] && s[0] == '-';
    var body := if s != [] && (s[0] == '-' || s[0] == '+') then s[1..] else s;
    var nearest := if neg then 0 - limit else limit - 1;
    if body == [] then Parsed(0, false)
    else
      match ScanDigits(body, base, 2 * limit)
      case BadDigit => Parsed(0, false)
      case TooLarge => Parsed(nearest, false)
      case Number(n) =>
        if neg then (if n <= limit then Parsed(0 - n, true) else Parsed(nearest, false))
        else (if n < limit then Parsed(n, true) else Parsed(nearest, false))
  }

  lemma ParseIntUnsigned(s: string, base: nat, limit: nat, n: nat)
    requires s != [] && s[0] != '-' && s[0] != '+' && ScanDigits(s, base, 2 * limit) == Number(n) && n < limit
    ensures ParseInt(s, base, limit) == Parsed(n, true)
  {
  }

  function Atoi(s: string): Parsed { ParseInt(s, 10, TWO_63) }

  function DigitChar(d: nat): char
    requires d < 10
  {
    ('0' as int + d) as char
  }

  /** Decimal form without leading zeros. */
  function Decimal(n: nat): (s: string)
    ensures s != [] && forall i :: 0 <= i < |s| ==> '0' <= s[i] <= '9'
  {
    if n < 10 then [DigitChar(n)] else Decimal(n / 10) + [DigitChar(n % 10)]
  }

  lemma {:induction false} ScanOfDecimal(n: nat, limit: nat)
    ensures ScanDigits(Decimal(n), 10, limit) == if n < limit then Number(n) else TooLarge
  {
    var s := Decimal(n);
    assert s[..|s| - 1] == if n < 10 then [] else Decimal(n / 10);
    if n >= 10 { ScanOfDecimal(n / 10, limit); }
  }

  function HexChar(d: nat): char
    requires d < 16
  {
    if d < 10 then ('0' as int + d) as char else ('a' as int + d - 10) as char
  }

  /** Hexadecimal form without leading zeros. */
  function Hexadecimal(n: nat): (s: string)
    ensures s != [] && forall i :: 0 <= i < |s| ==> '0' <= s[i] <= '9' || 'a' <= s[i] <= 'f'
  {
    if n < 16 then [HexChar(n)] else Hexadecimal(n / 16) + [HexChar(n % 16)]
  }

  lemma {:induction false} ScanOfHexadecimal(n: nat, limit: nat)
    ensures ScanDigits(Hexadecimal(n), 16, limit) == if n < limit then Number(n) else TooLarge
  {
    var s := Hexadecimal(n);
    assert s[..|s| - 1] == if n < 16 then [] else Hexadecimal(n / 16);
    assert DigitValue(s[|s| - 1]) == n % 16;
    if n >= 16 { ScanOfHexadecimal(n / 16, limit); }
  }

  function Zeros(k: nat): string { seq(k, i => '0') }

  lemma {:induction false} ScanOfZeros(k: nat, base: nat, limit: nat)
    requires base > 0 && limit > 0
    ensures ScanDigits(Zeros(k), base, limit) == Number(0)
  {
    if k > 0 {
      assert Zeros(k)[..k - 1] == Zeros(k - 1);
      ScanOfZeros(k - 1, base, limit);
    }
  }

  /** Leading zeros do not matter. */
  lemma {:induction false} ScanAfterZeros(k: nat, s: string, base: nat, limit: nat)
    requires base > 0 && limit > 0
    ensures ScanDigits(Zeros(k) + s, base, limit) == ScanDigits(s, base, limit)
  {
    if s == [] {
      assert Zeros(k) + s == Zeros(k);
      ScanOfZeros(k, base, limit);
    } else {
      assert (Zeros(k) + s)[..k + |s| - 1] == Zeros(k) + s[..|s| - 1];
      ScanAfterZeros(k, s[..|s| - 1], base, limit);
    }
  }

  /** Reading back what was printed gives the number, exactly when it fits. */
  lemma ParseUintOfDecimal(n: nat, limit: nat)
    ensures ParseUint(Decimal(n), limit) == if n < limit then Some(n) else None
  {
    ScanOfDecimal(n, limit);
  }

  lemma AtoiOfDecimal(n: nat)
    requires n < TWO_63
    ensures Atoi(Decimal(n)) == Parsed(n, true)
  {
    ScanOfDecimal(n, 2 * TWO_63);
  }

  /** A sign is read with the number after it, down to the smallest integer. */
  lemma AtoiOfSigned(n: nat)
    ensures n <= TWO_63 ==> Atoi(['-'] + Decimal(n)) == Parsed(0 - n, true)
    ensures n < TWO_63 ==> Atoi(['+'] + Decimal(n)) == Parsed(n, true)
  {
    ScanOfDecimal(n, 2 * TWO_63);
    assert (['-'] + Decimal(n))[1..] == Decimal(n) && (['+'] + Decimal(n))[1..] == Decimal(n);
  }

  lemma {:induction false} BadDigitStays(a: string, b: string, base: nat, limit: nat)
    requires ScanDigits(a, base, limit).BadDigit?
    ensures ScanDigits(a + b, base, limit).BadDigit?
  {
    if b == [] {
      assert a + b == a;
    } else {
      assert (a + b)[..|a + b| - 1] == a + b[..|b| - 1];
      BadDigitStays(a, b[..|b| - 1], base, limit);
    }
  }

  /** Anything but a digit after a number that fits makes it no number. */
  lemma AtoiOfBad(n: nat, c: char, rest: string)
    requires n < TWO_64 && !('0' <= c <= '9')
    ensures Atoi(Decimal(n) + [c] + rest) == Parsed(0, false) && ParseUint(Decimal(n) + [c] + rest, TWO_64).None?
  {
    ScanOfDecimal(n, TWO_64);
    var s := Decimal(n) + [c];
    assert s[..|s| - 1] == Decimal(n);
    BadDigitStays(s, rest, 10, TWO_64);
    assert (s + rest)[0] == Decimal(n)[0];
  }

  lemma {:induction false} TooLargeStays(a: string, b: string, base: nat, limit: nat)
    requires ScanDigits(a, base, limit).TooLarge?
    ensures ScanDigits(a + b, base, limit).TooLarge?
  {
    if b == [] {
      assert a + b == a;
    } else {
      assert (a + b)[..|a + b| - 1] == a + b[..|b| - 1];
      TooLargeStays(a, b[..|b| - 1], base, limit);
    }
  }

  /** A number too large for 64 bits reads as the largest one whatever follows it: the range error comes first. */
  lemma AtoiOfTooLarge(n: nat, rest: string)
    requires n >= TWO_64
    ensures Atoi(Decimal(n) + rest) == Parsed(TWO_63 - 1, false)
  {
    ScanOfDecimal(n, TWO_64);
    TooLargeStays(Decimal(n), rest, 10, TWO_64);
  }

  lemma ReadsAs(s: string, n: nat, limit: nat)
    requires s == Decimal(n) && n < limit
    ensures ScanDigits(s, 10, limit) == Number(n)
  {
    ScanOfDecimal(n, limit);
  }

  /** Different numbers print differently. */
  lemma DecimalInjective(m: nat, n: nat, s: string, limit: nat)
    requires s == Decimal(m) == Decimal(n) && m < limit && n < limit
    ensures m == n
  {
    ReadsAs(s, m, limit);
    ReadsAs(s, n, limit);
  }

  lemma TrimSpaceOfDecimal(n: nat)
    ensures TrimSpace(Decimal(n)) == Decimal(n)
  {
    var s := Decimal(n);
    assert !IsSpace(s[0]) && !IsSpace(s[|s| - 1]);
  }

  /** strings.SplitN(s, sep, 2) on a one-character separator: the parts around its first occurrence. */
  function Cut(s: string, sep: char): Option<(string, string)> {
    if s == [] then None
    else if s[0] == sep then Some(([], s[1..]))
    else
      match Cut(s[1..], sep)
      case None => None
      case Some(p) => Some(([s[0]] + p.0, p.1))
  }

  lemma {:induction false} CutJoined(a: string, b: string, sep: char)
    requires sep !in a
    ensures Cut(a + [sep] + b, sep) == Some((a, b))
  {
    var s := a + [sep] + b;
    if a == [] {
      assert s[1..] == b;
    } else {
      assert s[1..] == a[1..] + [sep] + b;
      CutJoined(a[1..], b, sep);
      assert [a[0]] + a[1..] == a;
    }
  }

  // ---- Splitting ----

  function WordLength(s: string): (n: nat)
    ensures n <= |s|
  {
    if s == [] || IsSpace(s[0]) then 0 else 1 + WordLength(s[1..])
  }

  /** strings.Fields: the runs of characters between white space. */
  function Fields(s: string): seq<string>
    decreases |s|
  {
    if s == [] then []
    else if IsSpace(s[0]) then Fields(s[1..])
    else [s[..WordLength(s)]] + Fields(s[WordLength(s)..])
  }

  predicate IsWord(w: string) {
    w != [] && forall i :: 0 <= i < |w| ==> !IsSpace(w[i])
  }

  lemma {:induction false} WordLengthBefore(w: string, rest: string)
    requires forall i :: 0 <= i < |w| ==> !IsSpace(w[i])
    ensures WordLength(w + [' '] + rest) == |w| == WordLength(w)
  {
    var s := w + [' '] + rest;
    if w != [] {
      assert s[1..] == w[1..] + [' '] + rest;
      WordLengthBefore(w[1..], rest);
    }
  }

  lemma {:induction false} FieldsOfJoined(words: seq<string>)
    requires words != [] && forall i :: 0 <= i < |words| ==> IsWord(words[i])
    ensures Fields(Joined(words, ' ')) == words
  {
    var w := words[0];
    if |words| == 1 {
      WordLengthBefore(w, []);
      assert w[..|w|] == w && w[|w|..] == [];
    } else {
      var rest := Joined(words[1..], ' ');
      var s := w + [' '] + rest;
      WordLengthBefore(w, rest);
      FieldsOfJoined(words[1..]);
      assert s[..|w|] == w && s[|w|..] == [' '] + rest && ([' '] + rest)[1..] == rest;
      assert Fields(s) == [w] + Fields([' '] + rest);
    }
  }

  /** Puts a character before the first part, or starts a new part with a separator. */
  function Prepended(c: char, parts: seq<string>, sep: char): seq<string>
    requires parts != []
  {
    if c == sep then [[]] + parts else [[c] + parts[0]] + parts[1..]
  }

  /** The parts of s between separators; at least one. */
  function Split(s: string, sep: char): (r: seq<string>)
    ensures |r| >= 1 && forall i :: 0 <= i < |r| ==> sep !in r[i]
  {
    if s == [] then [[]] else Prepended(s[0], Split(s[1..], sep), sep)
  }

  lemma PrependedConcat(c: char, a: seq<string>, b: seq<string>, sep: char)
    requires a != []
    ensures Prepended(c, a + b, sep) == Prepended(c, a, sep) + b
  {
    assert (a + b)[1..] == a[1..] + b;
  }

  lemma {:induction false} SplitWhole(s: string, sep: char)
    requires sep !in s
    ensures Split(s, sep) == [s]
  {
    if s != [] {
      SplitWhole(s[1..], sep);
      assert [s[0]] + s[1..] == s;
    }
  }

  lemma {:induction false} SplitConcat(a: string, b: string, sep: char)
    ensures Split(a + [sep] + b, sep) == Split(a, sep) + Split(b, sep)
  {
    var s := a + [sep] + b;
    if a == [] {
      assert s[1..] == b;
    } else {
      assert s[1..] == a[1..] + [sep] + b;
      SplitConcat(a[1..], b, sep);
      PrependedConcat(a[0], Split(a[1..], sep), Split(b, sep), sep);
    }
  }

  function Joined(parts: seq<string>, sep: char): string
    requires parts != []
  {
    if |parts| == 1 then parts[0] else parts[0] + [sep] + Joined(parts[1..], sep)
  }

  lemma {:induction false} SplitOfJoined(parts: seq<string>, sep: char)
    requires parts != [] && forall i :: 0 <= i < |parts| ==> sep !in parts[i]
    ensures Split(Joined(parts, sep), sep) == parts
  {
    SplitWhole(parts[0], sep);
    if |parts| > 1 {
      SplitOfJoined(parts[1..], sep);
      SplitConcat(parts[0], Joined(parts[1..], sep), sep);
    }
  }

  lemma {:induction false} JoinedOfSplit(s: string, sep: char)
    ensures Joined(Split(s, sep), sep) == s
  {
    if s != [] {
      JoinedOfSplit(s[1..], sep);
      var rest := Split(s[1..], sep);
      if s[0] == sep {
        assert Split(s, sep)[1..] == rest;
      } else {
        assert Split(s, sep)[1..] == rest[1..];
      }
    }
  }

  lemma {:induction false} JoinedConcat(a: seq<string>, b: seq<string>, sep: char)
    requires a != [] && b != []
    ensures Joined(a + b, sep) == Joined(a, sep) + [sep] + Joined(b, sep)
  {
    if |a| == 1 {
      assert (a + b)[1..] == b;
    } else {
      assert (a + b)[1..] == a[1..] + b;
      JoinedConcat(a[1..], b, sep);
    }
  }
}
