/**
 Byte-string primitives shared by the models: searching, optional-whitespace
 trimming, ASCII case folding and the number conversions of `<charconv>`.
 One Dafny `char` stands for one byte of the source.
 */
module Text {

  datatype Option<+T> = None | Some(value: T)

  const UINT16_MAX: nat := 0xFFFF
  const SIZE_MAX: nat := 0xFFFF_FFFF_FFFF_FFFF

  // ---------------------------------------------------------------- searching

  /** Index of the first `c` at or after `from`; `|s|` plays the role of npos. */
  function FindFrom(s: string, c: char, from: nat): (r: nat)
    requires from <= |s|
    ensures from <= r <= |s|
    ensures forall i :: from <= i < r ==> s[i] != c
    ensures r < |s| ==> s[r] == c
    decreases |s| - from
  {
    if from == |s| || s[from] == c then from else FindFrom(s, c, from + 1)
  }

  function Find(s: string, c: char): (r: nat)
    ensures r <= |s|
    ensures c !in s[..r]
    ensures r < |s| ==> s[r] == c
  {
    FindFrom(s, c, 0)
  }

  /** Index just past the last `c`, or 0 when `c` does not occur. */
  function AfterLast(s: string, c: char): (r: nat)
    ensures r <= |s|
    ensures c !in s[r..]
    ensures r == 0 || s[r - 1] == c
  {
    if s == [] || s[|s| - 1] == c then |s| else AfterLast(s[..|s| - 1], c)
  }

  predicate IsPrefix(a: string, b: string) {
    |a| <= |b| && b[..|a|] == a
  }

  /** A search that succeeds in a prefix succeeds at the same place in the whole. */
  lemma FindFromInPrefix(a: string, b: string, c: char, from: nat)
    requires IsPrefix(a, b) && from <= |a|
    ensures FindFrom(a, c, from) < |a| ==> FindFrom(b, c, from) == FindFrom(a, c, from)
    ensures FindFrom(a, c, from) == |a| ==> FindFrom(b, c, from) >= |a|
  {
  }

  /** The characterisation of a search result pins it down. */
  lemma FindFromAt(s: string, c: char, from: nat, at: nat)
    requires from <= at < |s| && s[at] == c
    requires forall i :: from <= i < at ==> s[i] != c
    ensures FindFrom(s, c, from) == at
  {
  }

  lemma FindAt(s: string, c: char, at: nat)
    requires at < |s| && s[at] == c && c !in s[..at]
    ensures Find(s, c) == at
  {
  }

  lemma FindAbsent(s: string, c: char)
    requires c !in s
    ensures Find(s, c) == |s|
  {
  }

  /** A slice of a slice is a slice of the whole. */
  lemma SliceOfSlice(s: string, at: nat, end: nat, i: nat, j: nat)
    requires i <= j <= end - at && end <= |s|
    ensures s[at..end][i..j] == s[at + i..at + j]
  {
    var a, b := s[at..end][i..j], s[at + i..at + j];
    assert |a| == |b|;
    forall k | 0 <= k < |a| ensures a[k] == b[k] {
      assert a[k] == s[at..end][i + k] == s[at + i + k];
    }
  }

  // -------------------------------------------------------------------- lines

  /** Text that one newline-terminated line can hold. */
  ghost predicate IsLine(text: string) { '\n' !in text }

  /** Lines, then a closing line, each followed by a newline. */
  function RenderLines(lines: seq<string>, last: string): string {
    if lines == [] then last + "\n" else lines[0] + "\n" + RenderLines(lines[1..], last)
  }

  /** `text` occurs in `buffer` at offset `at`. */
  ghost predicate At(buffer: string, at: nat, text: string) {
    at + |text| <= |buffer| && buffer[at..at + |text|] == text
  }

  lemma AtSplit(buffer: string, at: nat, a: string, b: string)
    ensures At(buffer, at, a + b) <==> At(buffer, at, a) && At(buffer, at + |a|, b)
  {
    if At(buffer, at, a + b) {
      assert (a + b)[..|a|] == a && (a + b)[|a|..] == b;
      assert buffer[at..at + |a + b|][..|a|] == buffer[at..at + |a|];
      assert buffer[at..at + |a + b|][|a|..] == buffer[at + |a|..at + |a| + |b|];
    }
    if At(buffer, at, a) && At(buffer, at + |a|, b) {
      assert buffer[at..at + |a + b|] == buffer[at..at + |a|] + buffer[at + |a|..at + |a| + |b|];
    }
  }

  /** A newline-terminated line at the cursor is what a search from there finds. */
  lemma LineAt(buffer: string, at: nat, line: string)
    requires IsLine(line) && At(buffer, at, line + "\n")
    ensures at <= |buffer|
    ensures FindFrom(buffer, '\n', at) == at + |line| < |buffer|
    ensures buffer[at..at + |line|] == line
  {
    AtSplit(buffer, at, line, "\n");
    assert buffer[at + |line|..at + |line| + 1] == "\n";
    assert buffer[at + |line|] == "\n"[0];
    forall i | at <= i < at + |line| ensures buffer[i] != '\n' {
      assert buffer[i] == buffer[at..at + |line|][i - at];
      assert line[i - at] in line;
    }
    FindFromAt(buffer, '\n', at, at + |line|);
  }

  /** The line a search delimits, with its newline. */
  lemma FoundLine(buffer: string, at: nat)
    requires at <= |buffer|
    ensures var nl := FindFrom(buffer, '\n', at);
            nl < |buffer| ==> IsLine(buffer[at..nl]) && buffer[at..nl + 1] == buffer[at..nl] + "\n"
  {
  }

  // ----------------------------------------------------------------- trimming

  predicate IsOws(c: char) { c == ' ' || c == '\t' }

  /** Number of leading SP / HTAB bytes. */
  function OwsStart(s: string): (r: nat)
    ensures r <= |s|
    ensures forall i :: 0 <= i < r ==> IsOws(s[i])
    ensures r < |s| ==> !IsOws(s[r])
  {
    if s == [] || !IsOws(s[0]) then 0 else 1 + OwsStart(s[1..])
  }

  /** End of the text once trailing SP / HTAB bytes past `from` are dropped. */
  function OwsEnd(s: string, from: nat): (r: nat)
    requires from <= |s|
    ensures from <= r <= |s|
    ensures forall i :: r <= i < |s| ==> IsOws(s[i])
    ensures from < r ==> !IsOws(s[r - 1])
  {
    if |s| == from || !IsOws(s[|s| - 1]) then |s| else OwsEnd(s[..|s| - 1], from)
  }

  function TrimOws(s: string): (r: string)
    ensures r != [] ==> !IsOws(r[0]) && !IsOws(r[|r| - 1])
    ensures OwsStart(s) + |r| <= |s|
  {
    s[OwsStart(s)..OwsEnd(s, OwsStart(s))]
  }

  predicate Trimmed(s: string) {
    s != [] ==> !IsOws(s[0]) && !IsOws(s[|s| - 1])
  }

  /** Trimming keeps exactly the text between the surrounding whitespace. */
  lemma TrimOwsAround(pre: string, s: string, post: string)
    requires forall c :: c in pre ==> c == ' ' || c == '\t'
    requires forall c :: c in post ==> c == ' ' || c == '\t'
    requires Trimmed(s)
    ensures TrimOws(pre + s + post) == s
  {
    forall i | 0 <= i < |pre| ensures IsOws(pre[i]) { assert pre[i] in pre; }
    forall i | 0 <= i < |post| ensures IsOws(post[i]) { assert post[i] in post; }
    TrimBetween(pre, s, post);
  }

  lemma TrimBetween(pre: string, s: string, post: string)
    requires forall i :: 0 <= i < |pre| ==> IsOws(pre[i])
    requires forall i :: 0 <= i < |post| ==> IsOws(post[i])
    requires Trimmed(s)
    ensures TrimOws(pre + s + post) == s
  {
    hide IsOws;
    var t := pre + s + post;
    var a := OwsStart(t);
    var b := OwsEnd(t, a);
    assert forall i :: 0 <= i < |pre| ==> t[i] == pre[i];
    assert forall i :: |pre| + |s| <= i < |t| ==> t[i] == post[i - |pre| - |s|];
    if s == [] {
      assert forall i :: 0 <= i < |t| ==> IsOws(t[i]);
      assert a == |t|;
    } else {
      assert t[|pre|] == s[0] && t[|pre| + |s| - 1] == s[|s| - 1];
      assert a == |pre|;
      assert b == |pre| + |s|;
      assert t[a..b] == s;
    }
  }

  lemma TrimOwsIdentity(s: string)
    requires Trimmed(s)
    ensures TrimOws(s) == s
  {
  }

  // ------------------------------------------------------------- case folding

  function ToLower(c: char): char {
    if 'A' <= c <= 'Z' then (c as int + 32) as char else c
  }

  function Lower(s: string): (r: string)
    ensures |r| == |s|
    ensures forall i :: 0 <= i < |s| ==> r[i] == ToLower(s[i])
  {
    if s == [] then [] else [ToLower(s[0])] + Lower(s[1..])
  }

  /** Case-insensitive comparison with a name written in lower case. */
  predicate EqualIgnoreCase(s: string, lower: string) {
    Lower(s) == lower
  }

  /** The same letter in either case, or the same character. */
  predicate SameLetter(a: char, b: char) {
    a == b || ('a' <= a <= 'z' && b as int == a as int - 32) || ('A' <= a <= 'Z' && b as int == a as int + 32)
  }

  /** The text spells the name, in letters of any case. */
  predicate Spells(s: string, name: string) {
    |s| == |name| && forall i :: 0 <= i < |s| ==> SameLetter(s[i], name[i])
  }

  lemma FoldedAlike(a: char, b: char)
    ensures ToLower(a) == ToLower(b) <==> SameLetter(a, b)
  {
  }

  /** Comparing with a folded name finds exactly the spellings of that name. */
  lemma EqualMeansSpells(s: string, name: string, lower: string)
    requires Lower(name) == lower
    ensures EqualIgnoreCase(s, lower) <==> Spells(s, name)
  {
    hide ToLower, SameLetter;
    if |s| == |name| {
      forall i | 0 <= i < |s| ensures Lower(s)[i] == lower[i] <==> SameLetter(s[i], name[i]) {
        FoldedAlike(s[i], name[i]);
      }
      assert Spells(s, name) ==> Lower(s) == lower;
    }
  }

  lemma LowerIs(s: string, lower: string)
    requires |s| == |lower| && forall i :: 0 <= i < |s| ==> ToLower(s[i]) == lower[i]
    ensures Lower(s) == lower
  {
  }

  // -------------------------------------------------------------- conversions

  /** Value of a digit character, 36 for anything that is not a digit below 16. */
  function DigitValue(c: char): nat {
    if '0' <= c <= '9' then c as int - '0' as int
    else if 'a' <= c <= 'f' then c as int - 'a' as int + 10
    else if 'A' <= c <= 'F' then c as int - 'A' as int + 10
    else 36
  }

  predicate AllDigits(s: string, base: nat) {
    forall i :: 0 <= i < |s| ==> DigitValue(s[i]) < base
  }

  function NumberValue(s: string, base: nat): nat {
    if s == [] then 0 else NumberValue(s[..|s| - 1], base) * base + DigitValue(s[|s| - 1])
  }

  /**
   `std::from_chars` into an unsigned type of maximum `max`, together with the
   caller's `ec == errc{} && ptr == end` test: the whole text must be digits.
   */
  function FromChars(s: string, base: nat, max: nat): Option<nat> {
    if s != [] && AllDigits(s, base) && NumberValue(s, base) <= max
    then Some(NumberValue(s, base)) else None
  }

  const DIGITS: string := "0123456789abcdef"

  lemma Smaller(n: nat, base: nat)
    requires 2 <= base <= n
    ensures 0 < n / base < n && 0 <= n % base < base
  {
    DivideIdentity(n, base);
    AtLeastDouble(n / base, base);
  }

  /** `std::to_chars` of an unsigned value. */
  function ToChars(n: nat, base: nat): (r: string)
    requires 2 <= base <= 16
    ensures r != []
  {
    if n < base then [DIGITS[n]] else Smaller(n, base); ToChars(n / base, base) + [DIGITS[n % base]]
  }

  lemma DigitRoundTrip(d: nat)
    requires d < 16
    ensures DigitValue(DIGITS[d]) == d
  {
  }

  lemma DivideStep(n: nat, base: nat) returns (q: nat, d: nat)
    requires 2 <= base <= n
    ensures q == n / base && d == n % base
    ensures q < n && d < base && q * base + d == n
  {
    q, d := n / base, n % base;
    DivideIdentity(n, base);
    AtLeastDouble(q, base);
  }

  lemma DivideIdentity(n: nat, base: nat)
    requires base > 0
    ensures n / base * base + n % base == n
  {
  }

  lemma AtLeastDouble(q: nat, base: nat)
    requires base >= 2
    ensures 2 * q <= q * base
  {
  }

  lemma AppendDigit(s: string, d: nat, base: nat)
    requires d < base <= 16 && AllDigits(s, base)
    ensures AllDigits(s + [DIGITS[d]], base)
    ensures NumberValue(s + [DIGITS[d]], base) == NumberValue(s, base) * base + d
  {
    assert (s + [DIGITS[d]])[..|s|] == s;
  }

  /** Printing then parsing a number gives it back; the print holds digits only. */
  lemma {:induction false} ToCharsRoundTrip(n: nat, base: nat)
    requires 2 <= base <= 16
    ensures AllDigits(ToChars(n, base), base)
    ensures NumberValue(ToChars(n, base), base) == n
  {
    if n < base {
      DigitRoundTrip(n);
      assert ToChars(n, base)[..0] == [];
    } else {
      var q, d := DivideStep(n, base);
      ToCharsRoundTrip(q, base);
      AppendDigit(ToChars(q, base), d, base);
    }
  }

  /** Leading zeros. */
  function Zeros(k: nat): string { seq(k, _ => '0') }

  /** A text of digits is its number printed, behind zeros, but for the case of its letters. */
  lemma {:induction false} DigitsArePrinted(s: string, base: nat) returns (k: nat)
    requires s != [] && 2 <= base <= 16 && AllDigits(s, base)
    ensures Spells(s, Zeros(k) + ToChars(NumberValue(s, base), base))
    ensures NumberValue(s, base) == 0 ==> k == |s| - 1
    decreases |s|
  {
    hide ToChars, DigitValue, Spells, SameLetter, NumberValue;
    var t, c := s[..|s| - 1], s[|s| - 1];
    var d := DigitValue(c);
    DigitSpelled(c);
    NumberSplit(s, base);
    OneDigit(d, base);
    if t == [] {
      k := 0;
      SpellsMore([], [], c, DIGITS[d]);
      assert s == [] + [c] && Zeros(0) + [DIGITS[d]] == [] + [DIGITS[d]];
    } else {
      assert s == t + [c];
      k := DigitsArePrinted(t, base);
      var v := NumberValue(t, base);
      SpellsMore(t, Zeros(k) + ToChars(v, base), c, DIGITS[d]);
      if v == 0 {
        k := |s| - 1;
        OneDigit(0, base);
        assert Zeros(|t| - 1) + "0" == Zeros(k);
      } else {
        PrintedMore(v, d, base);
        assert Zeros(k) + (ToChars(v, base) + [DIGITS[d]]) == (Zeros(k) + ToChars(v, base)) + [DIGITS[d]];
      }
    }
  }

  lemma NumberSplit(s: string, base: nat)
    requires s != []
    ensures var t, d := s[..|s| - 1], DigitValue(s[|s| - 1]);
            && NumberValue(s, base) == NumberValue(t, base) * base + d
            && (NumberValue(t, base) == 0 ==> NumberValue(s, base) == d) && (t == [] ==> NumberValue(s, base) == d)
            && (NumberValue(t, base) > 0 && base > 0 ==> NumberValue(s, base) > 0)
  {
    AtLeastDouble(NumberValue(s[..|s| - 1], base), if base < 2 then 2 else base);
  }

  lemma OneDigit(d: nat, base: nat)
    requires d < base && 2 <= base <= 16
    ensures ToChars(d, base) == [DIGITS[d]] && DIGITS[0] == '0'
  {
  }

  lemma SpellsMore(s: string, p: string, c: char, d: char)
    requires (s == p == [] || Spells(s, p)) && SameLetter(c, d)
    ensures Spells(s + [c], p + [d])
  {
    hide SameLetter;
  }

  lemma DigitSpelled(c: char)
    requires DigitValue(c) < 16
    ensures SameLetter(c, DIGITS[DigitValue(c)])
  {
  }

  lemma PrintedMore(v: nat, d: nat, base: nat)
    requires 2 <= base <= 16 && d < base && v > 0
    ensures ToChars(v * base + d, base) == ToChars(v, base) + [DIGITS[d]]
  {
    QuotientIs(v, d, base);
    assert v * base + d >= base by { AtLeastOnce(v, base); }
  }

  lemma AtLeastOnce(v: nat, base: nat)
    requires v > 0
    ensures v * base >= base
  {
  }

  lemma QuotientIs(v: nat, d: nat, base: nat)
    requires 0 < base && d < base
    ensures (v * base + d) / base == v && (v * base + d) % base == d
  {
    var n := v * base + d;
    DivideIdentity(n, base);
    var q, r := n / base, n % base;
    assert (q - v) * base == d - r;
    if q > v {
      assert (q - v) * base >= base by { AtLeastOnce(q - v, base); }
    } else if q < v {
      assert (v - q) * base >= base by { AtLeastOnce(v - q, base); }
    }
  }

  /** The value of a spelling of a printed number, zeros in front or not. */
  lemma {:induction false} PrintedDigits(s: string, k: nat, n: nat, base: nat)
    requires 2 <= base <= 16 && Spells(s, Zeros(k) + ToChars(n, base))
    ensures s != [] && AllDigits(s, base) && NumberValue(s, base) == n
  {
    var p := Zeros(k) + ToChars(n, base);
    ToCharsRoundTrip(n, base);
    ZerosCount(k, ToChars(n, base), base);
    SameDigits(s, p, base);
  }

  lemma {:induction false} ZerosCount(k: nat, s: string, base: nat)
    requires 2 <= base <= 16 && AllDigits(s, base)
    ensures AllDigits(Zeros(k) + s, base) && NumberValue(Zeros(k) + s, base) == NumberValue(s, base)
    decreases |s| + k
  {
    var t := Zeros(k) + s;
    if s == [] {
      if k > 0 {
        ZerosCount(k - 1, s, base);
        assert Zeros(k) == Zeros(k - 1) + "0" && t[..|t| - 1] == Zeros(k - 1) + s;
        assert NumberValue(t[..|t| - 1], base) == 0;
      } else {
        assert t == [];
      }
    } else {
      ZerosCount(k, s[..|s| - 1], base);
      assert t[..|t| - 1] == Zeros(k) + s[..|s| - 1];
    }
  }

  lemma SameDigit(a: char, b: char)
    requires SameLetter(a, b)
    ensures DigitValue(a) == DigitValue(b)
  {
  }

  lemma {:induction false} SameDigits(s: string, p: string, base: nat)
    requires Spells(s, p) && AllDigits(p, base)
    ensures AllDigits(s, base) && NumberValue(s, base) == NumberValue(p, base)
    decreases |s|
  {
    hide SameLetter, DigitValue;
    if s != [] {
      SameDigits(s[..|s| - 1], p[..|p| - 1], base);
      SameDigit(s[|s| - 1], p[|p| - 1]);
      forall i | 0 <= i < |s| ensures DigitValue(s[i]) < base { SameDigit(s[i], p[i]); }
    }
  }

  /** What is read as a number: its printed digits, zeros in front or not, in either case, up to the largest. */
  lemma FromCharsMeaning(s: string, base: nat, max: nat, n: nat)
    requires 2 <= base <= 16
    ensures FromChars(s, base, max) == Some(n) <==> n <= max && exists k: nat :: Spells(s, Zeros(k) + ToChars(n, base))
  {
    hide ToChars, NumberValue, AllDigits, Spells;
    if FromChars(s, base, max) == Some(n) {
      var k := DigitsArePrinted(s, base);
    }
    if k: nat :| Spells(s, Zeros(k) + ToChars(n, base)) { PrintedDigits(s, k, n, base); }
  }

  lemma ToCharsFromChars(n: nat, base: nat, max: nat)
    requires 2 <= base <= 16 && n <= max
    ensures FromChars(ToChars(n, base), base, max) == Some(n)
  {
    ToCharsRoundTrip(n, base);
  }
}
