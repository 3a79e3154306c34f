/** Decimal text and the small string helpers (`std::to_string`, `std::stoi`, `source/core/string_utility.h`).
    A string holds bytes, as characters with codes below 256. */
module Text {
  import opened Integers
  import opened Wrappers

  // ----- to_string -----

  function Digit(d: nat): char
    requires d < 10
  {
    '0' + d as char
  }

  function Digits(n: nat): (s: string)
    ensures s != [] && forall i | 0 <= i < |s| :: IsDigit(s[i])
  {
    if n < 10 then [Digit(n)] else Digits(n / 10) + [Digit(n % 10)]
  }

  function ToDec(n: int): (s: string)
    ensures s != []
  {
    if n < 0 then "-" + Digits(-n) else Digits(n)
  }

  // ----- stoi -----

  predicate IsDigit(c: char) {
    '0' <= c <= '9'
  }

  predicate IsSpace(c: char) {
    c == ' ' || '\t' <= c <= '\r'
  }

  /** The value of a text of digits. */
  function Number(s: string): int {
    if s == [] then 0 else Number(s[..|s| - 1]) * 10 + s[|s| - 1] as int - '0' as int
  }

  function LeadingDigits(s: string): (k: nat)
    ensures k <= |s|
  {
    if s != [] && IsDigit(s[0]) then 1 + LeadingDigits(s[1..]) else 0
  }

  function SkipSpace(s: string): string {
    if s != [] && IsSpace(s[0]) then SkipSpace(s[1..]) else s
  }

  /** The int written by a sign and these digits. */
  function Signed(negative: bool, digits: string): (r: Option<int>)
    ensures r.Some? ==> INT_MIN <= r.value <= INT_MAX
  {
    var v := if negative then -Number(digits) else Number(digits);
    if digits != [] && INT_MIN <= v <= INT_MAX then Some(v) else None
  }

  /** Spaces, an optional sign, at least one digit; what follows is ignored. None stands for the exceptions:
      no number, or one that does not fit an int. */
  function StoI(s: string): (r: Option<int>)
    ensures r.Some? ==> INT_MIN <= r.value <= INT_MAX
  {
    var t := SkipSpace(s);
    var negative := t != [] && t[0] == '-';
    var u := if t != [] && (t[0] == '-' || t[0] == '+') then t[1..] else t;
    Signed(negative, u[..LeadingDigits(u)])
  }

  predicate Blank(c: char) {
    c == ' ' || 9 <= c as int <= 13
  }

  /** A text that begins with this sign and these digits, as far as they go. */
  ghost predicate Begins(s: string, sign: string, digits: string, rest: string) {
    && s == sign + (digits + rest)
    && (sign == "" || sign == "+" || sign == "-")
    && (forall i | 0 <= i < |digits| :: '0' <= digits[i] <= '9')
    && (rest == "" || !('0' <= rest[0] <= '9'))
    && (sign + digits == "" && rest != "" ==> rest[0] != '+' && rest[0] != '-' && !Blank(rest[0]))
  }

  /** What stoi makes of every text: the blanks, the sign and the digits it begins with, and whether these digits stand
      for an int. */
  lemma StoIExactly(s: string) returns (blanks: string, sign: string, digits: string, rest: string)
    ensures forall i | 0 <= i < |blanks| :: Blank(blanks[i])
    ensures blanks <= s && Begins(s[|blanks|..], sign, digits, rest)
    ensures var v := if sign == "-" then -Number(digits) else Number(digits);
            StoI(s) == if digits != "" && -0x8000_0000 <= v <= 0x7fff_ffff then Some(v) else None
  {
    var t := SkipSpace(s);
    SkipSpaceBlanks(s);
    blanks := s[..|s| - |t|];
    sign, digits, rest := SignExactly(t);
  }

  lemma SignExactly(t: string) returns (sign: string, digits: string, rest: string)
    requires t != "" ==> !Blank(t[0])
    ensures Begins(t, sign, digits, rest)
    ensures var u := if t != [] && (t[0] == '-' || t[0] == '+') then t[1..] else t;
            digits == u[..LeadingDigits(u)] && (sign == "-" <==> t != [] && t[0] == '-')
  {
    sign := if t != "" && (t[0] == '-' || t[0] == '+') then t[..1] else "";
    digits, rest := DigitsExactly(t[|sign|..]);
    assert t == sign + t[|sign|..];
  }

  lemma DigitsExactly(u: string) returns (digits: string, rest: string)
    ensures u == digits + rest && (forall i | 0 <= i < |digits| :: '0' <= digits[i] <= '9')
    ensures rest == "" || !('0' <= rest[0] <= '9')
    ensures digits == u[..LeadingDigits(u)] && (digits == "" ==> rest == u)
  {
    digits, rest := u[..LeadingDigits(u)], u[LeadingDigits(u)..];
    LeadingDigitsAre(u);
  }

  lemma SkipSpaceBlanks(s: string)
    ensures |SkipSpace(s)| <= |s| && SkipSpace(s) == s[|s| - |SkipSpace(s)|..]
    ensures forall i | 0 <= i < |s| - |SkipSpace(s)| :: IsSpace(s[i])
    ensures SkipSpace(s) != "" ==> !IsSpace(SkipSpace(s)[0])
  {
  }

  lemma LeadingDigitsAre(s: string)
    ensures forall i | 0 <= i < LeadingDigits(s) :: IsDigit(s[i])
    ensures LeadingDigits(s) < |s| ==> !IsDigit(s[LeadingDigits(s)])
  {
  }

  lemma NumberOfDigits(n: nat)
    ensures Number(Digits(n)) == n
  {
    if n >= 10 {
      NumberOfDigits(n / 10);
      assert Digits(n)[..|Digits(n)| - 1] == Digits(n / 10);
    }
  }

  /** The base is ten, and the highest digit comes first. */
  lemma NumberSamples()
    ensures Number("120") == 120 && ToDec(-120) == "-120" && ToDec(1024) == "1024"
  {
    assert "120"[..2] == "12" && "12"[..1] == "1" && "1"[..0] == "";
    assert Digits(12) == "12" && Digits(120) == "120";
    assert Digits(10) == "10" && Digits(102) == "102" && Digits(1024) == "1024";
  }

  lemma AllLeading(s: string)
    requires forall i | 0 <= i < |s| :: IsDigit(s[i])
    ensures LeadingDigits(s) == |s|
  {
  }

  /** What to_string writes, stoi reads back, as far as an int reaches. */
  lemma StoIOfToDec(n: int)
    ensures StoI(ToDec(n)) == if INT_MIN <= n <= INT_MAX then Some(n) else None
  {
    var d := Digits(if n < 0 then -n else n);
    NumberOfDigits(if n < 0 then -n else n);
    if n < 0 { StoIMinus(d); } else { StoIPlain(d); }
  }

  lemma StoIPlain(d: string)
    requires d != [] && forall i | 0 <= i < |d| :: IsDigit(d[i])
    ensures StoI(d) == Signed(false, d)
  {
    AllLeading(d);
    assert IsDigit(d[0]) && d[..|d|] == d;
  }

  lemma StoIMinus(d: string)
    requires d != [] && forall i | 0 <= i < |d| :: IsDigit(d[i])
    ensures StoI("-" + d) == Signed(true, d)
  {
    AllLeading(d);
    assert ("-" + d)[1..] == d && d[..|d|] == d;
  }

  lemma ToDecPlain(n: int, c: char)
    requires !IsDigit(c) && c != '-'
    ensures c !in ToDec(n)
  {
  }

  /** Different numbers are written differently. */
  lemma ToDecInjective(m: int, n: int)
    requires INT_MIN <= m <= INT_MAX && ToDec(m) == ToDec(n)
    ensures m == n
  {
    StoIOfToDec(m);
    StoIOfToDec(n);
  }

  /** How many digits a number has. */
  lemma DigitsLength(n: nat)
    ensures (|Digits(n)| == 1 <==> n < 10) && (|Digits(n)| == 2 <==> 10 <= n < 100)
    ensures (|Digits(n)| == 3 <==> 100 <= n < 1000) && (|Digits(n)| == 4 <==> 1000 <= n < 10000)
  {
  }

  // ----- string_utility.h -----

  /** The tokens that getline yields: a separator at the very end adds none. */
  function Split(input: string, separator: char): seq<string>
    decreases |input|
  {
    if input == "" then []
    else
      var k := Find(input, separator);
      if k == |input| then [input] else [input[..k]] + Split(input[k + 1..], separator)
  }

  function Find(s: string, c: char): (k: nat)
    ensures k <= |s| && c !in s[..k] && (k < |s| ==> s[k] == c)
  {
    if s == "" || s[0] == c then 0 else 1 + Find(s[1..], c)
  }

  lemma FindAfter(s: string, c: char, rest: string)
    requires c !in s
    ensures Find(s + [c] + rest, c) == |s|
  {
    if s != "" {
      assert (s + [c] + rest)[1..] == s[1..] + [c] + rest;
      FindAfter(s[1..], c, rest);
    }
  }

  /** Every part with a separator behind it. */
  function Terminated(parts: seq<string>, separator: char): string {
    if parts == [] then "" else parts[0] + [separator] + Terminated(parts[1..], separator)
  }

  lemma SplitFirst(a: string, rest: string, c: char)
    requires c !in a
    ensures Split(a + [c] + rest, c) == [a] + Split(rest, c)
  {
    var text := a + [c] + rest;
    FindAfter(a, c, rest);
    assert text[..|a|] == a && text[|a| + 1..] == rest;
  }

  lemma Regroup(a: string, b: string, c: string)
    ensures (a + b) + c == a + (b + c)
  {
  }

  lemma FirstAndRest<T>(s: seq<T>, t: seq<T>)
    requires s != []
    ensures [s[0]] + (s[1..] + t) == s + t
  {
  }

  /** Splitting undoes joining, for any number of parts; only a last part without a separator may be empty and is then
      not seen. */
  lemma {:induction false} SplitJoined(parts: seq<string>, last: string, c: char)
    requires c !in last && forall i | 0 <= i < |parts| :: c !in parts[i]
    ensures Split(Terminated(parts, c) + last, c) == parts + if last == "" then [] else [last]
    decreases |parts|
  {
    if parts == [] {
      assert Find(last, c) == |last| && "" + last == last;
    } else {
      var rest, tail := Terminated(parts[1..], c), if last == "" then [] else [last];
      SplitFirst(parts[0], rest + last, c);
      SplitJoined(parts[1..], last, c);
      Regroup(parts[0] + [c], rest, last);
      FirstAndRest(parts, tail);
    }
  }

  /** The separator at the very end adds no token, one at the start adds an empty one. */
  lemma SplitSamples()
    ensures Split("12,7", ',') == ["12", "7"] && Split("a,", ',') == ["a"] && Split(",a", ',') == ["", "a"]
  {
    SplitTwo("12", "7", ',');
    SplitTwo("", "a", ',');
    FindAfter("a", ',', "");
    assert "12" + [','] + "7" == "12,7" && "" + [','] + "a" == ",a" && "a" + [','] + "" == "a,";
    assert "a,"[..1] == "a" && "a,"[2..] == "";
  }

  lemma SplitTwo(a: string, b: string, c: char)
    requires c !in a && c !in b && b != ""
    ensures Split(a + [c] + b, c) == [a, b]
  {
    var text := a + [c] + b;
    FindAfter(a, c, b);
    assert text[..|a|] == a && text[|a| + 1..] == b;
    assert Find(b, c) == |b|;
    assert Split(b, c) == [b];
  }

  function PadLeft(input: string, number: nat, padChar: char): (s: string)
    ensures |s| == if number > |input| then number else |input|
    ensures s[|s| - |input|..] == input && forall i | 0 <= i < |s| - |input| :: s[i] == padChar
  {
    seq(if number > |input| then number - |input| else 0, i => padChar) + input
  }

  function LowerChar(c: char): char {
    if 'A' <= c <= 'Z' then c - 'A' + 'a' else c
  }

  function Lower(s: string): (t: string)
    ensures |t| == |s| && forall i | 0 <= i < |s| :: t[i] == LowerChar(s[i])
  {
    seq(|s|, i requires 0 <= i < |s| => LowerChar(s[i]))
  }

  /** The part of a string that strcmp looks at. */
  function BeforeNul(s: string): (t: string)
    ensures t <= s && '\0' !in t && (|t| < |s| ==> s[|t|] == '\0')
  {
    if s == [] || s[0] == '\0' then [] else [s[0]] + BeforeNul(s[1..])
  }

  predicate Compare(first: string, second: string) {
    BeforeNul(Lower(first)) == BeforeNul(Lower(second))
  }

  lemma CompareLiteral(first: string, second: string)
    requires '\0' !in first && '\0' !in second
    ensures Compare(first, second) <==>
            |first| == |second| && forall i | 0 <= i < |first| :: LowerChar(first[i]) == LowerChar(second[i])
  {
    NoNul(Lower(first));
    NoNul(Lower(second));
    if |first| == |second| && forall i | 0 <= i < |first| :: LowerChar(first[i]) == LowerChar(second[i]) {
      assert Lower(first) == Lower(second);
    } else if |first| == |second| {
      var i :| 0 <= i < |first| && LowerChar(first[i]) != LowerChar(second[i]);
      assert Lower(first)[i] != Lower(second)[i];
    }
  }

  lemma NoNul(s: string)
    requires '\0' !in s
    ensures BeforeNul(s) == s
  {
  }

  /** The same letter in either case of ASCII. */
  predicate SameLetter(c: char, d: char) {
    || c == d
    || ('A' <= c <= 'Z' && d as int == c as int + 32)
    || ('A' <= d <= 'Z' && c as int == d as int + 32)
  }

  /** A C string ends at its first NUL. */
  predicate EndsAt(s: string, n: nat) {
    n <= |s| && '\0' !in s[..n] && (n < |s| ==> s[n] == '\0')
  }

  /** The same text up to case, as far as C strings go. */
  ghost predicate SameText(first: string, second: string) {
    exists n: nat :: EndsAt(first, n) && EndsAt(second, n) && forall i | 0 <= i < n :: SameLetter(first[i], second[i])
  }

  lemma LowerSame(c: char, d: char)
    ensures LowerChar(c) == LowerChar(d) <==> SameLetter(c, d)
    ensures LowerChar(c) == '\0' <==> c == '\0'
  {
  }

  lemma LowerEnd(s: string, n: nat)
    requires EndsAt(s, n)
    ensures BeforeNul(Lower(s)) == Lower(s)[..n]
  {
    var t := Lower(s);
    forall i | 0 <= i < n ensures t[i] != '\0' {
      assert s[i] in s[..n];
      LowerSame(s[i], s[i]);
    }
    if n < |s| { LowerSame(s[n], s[n]); }
    PrefixOfNul(t, n);
  }

  lemma PrefixOfNul(t: string, n: nat)
    requires n <= |t| && (forall i | 0 <= i < n :: t[i] != '\0') && (n < |t| ==> t[n] == '\0')
    ensures BeforeNul(t) == t[..n]
  {
    if n > 0 { PrefixOfNul(t[1..], n - 1); }
  }

  lemma EndExists(s: string) returns (n: nat)
    ensures EndsAt(s, n)
  {
    n := |BeforeNul(s)|;
    assert s[..n] == BeforeNul(s);
  }

  /** The comparison through lower case is equality up to ASCII case. */
  lemma CompareExactly(first: string, second: string)
    ensures Compare(first, second) <==> SameText(first, second)
  {
    var m := EndExists(first);
    var n := EndExists(second);
    LowerEnd(first, m);
    LowerEnd(second, n);
    var t, u := Lower(first), Lower(second);
    if t[..m] == u[..n] {
      forall i | 0 <= i < n ensures SameLetter(first[i], second[i]) {
        assert t[..m][i] == u[..n][i];
        LowerSame(first[i], second[i]);
      }
    }
    if SameText(first, second) {
      var k: nat :| EndsAt(first, k) && EndsAt(second, k) && forall i | 0 <= i < k :: SameLetter(first[i], second[i]);
      LowerEnd(first, k);
      LowerEnd(second, k);
      forall i | 0 <= i < k ensures t[i] == u[i] { LowerSame(first[i], second[i]); }
      assert t[..k] == u[..k];
    }
  }
}
