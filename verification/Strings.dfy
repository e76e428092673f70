/** The pieces of the strings and strconv packages that the parsers use. */
module Strings {
  import opened Common

  function Find(s: string, c: char): (k: int)
    ensures -1 <= k < |s|
    ensures k >= 0 ==> s[k] == c && forall j :: 0 <= j < k ==> s[j] != c
    ensures k < 0 ==> c !in s
  {
    if s == "" then -1
    else if s[0] == c then 0
    else var k := Find(s[1..], c); if k < 0 then -1 else k + 1
  }

  /** strings.Split for a one-character separator. */
  function Split(s: string, c: char): (parts: seq<string>)
    ensures parts != []
  {
    var k := Find(s, c);
    if k < 0 then [s] else [s[..k]] + Split(s[k + 1..], c)
  }

  /** unicode.ToLower, as far as its result is ASCII: beside the capital letters only the Kelvin sign and the
      dotted capital I have an ASCII lower case. */
  function LowerChar(c: char): char {
    if 'A' <= c <= 'Z' then c + 32 as char
    else if c == '\U{212A}' then 'k'
    else if c == '\U{0130}' then 'i'
    else c
  }

  function ToLower(s: string): (r: string)
    ensures |r| == |s| && forall k :: 0 <= k < |s| ==> r[k] == LowerChar(s[k])
  {
    if s == "" then "" else [LowerChar(s[0])] + ToLower(s[1..])
  }

  /** unicode.IsSpace. */
  predicate IsSpace(c: char) {
    || '\U{0009}' <= c <= '\U{000D}' || c == ' ' || c == '\U{0085}' || c == '\U{00A0}' || c == '\U{1680}'
    || '\U{2000}' <= c <= '\U{200A}' || c == '\U{2028}' || c == '\U{2029}' || c == '\U{202F}' || c == '\U{205F}'
    || c == '\U{3000}'
  }

  function TrimLeft(s: string): string {
    if s != "" && IsSpace(s[0]) then TrimLeft(s[1..]) else s
  }

  function TrimRight(s: string): string {
    if s != "" && IsSpace(s[|s| - 1]) then TrimRight(s[..|s| - 1]) else s
  }

  function TrimSpace(s: string): string {
    TrimRight(TrimLeft(s))
  }

  lemma {:induction false} TrimKeepsFirst(s: string)
    requires s != "" && !IsSpace(s[0])
    ensures TrimSpace(s) != "" && TrimSpace(s)[0] == s[0]
    decreases |s|
  {
    if IsSpace(s[|s| - 1]) {
      TrimKeepsFirst(s[..|s| - 1]);
    }
  }

  predicate AllSpace(s: string) {
    forall k :: 0 <= k < |s| ==> IsSpace(s[k])
  }

  /** Space around a text is cut off, and nothing else. */
  lemma TrimSurrounded(a: string, w: string, b: string)
    requires AllSpace(a) && AllSpace(b) && (w != "" ==> !IsSpace(w[0]) && !IsSpace(w[|w| - 1]))
    ensures TrimSpace(a + w + b) == w
  {
    TrimLeftOf(a, w + b);
    assert a + w + b == a + (w + b);
    if w == "" {
      assert w + b == b;
      TrimLeftOf(b, "");
      assert b + "" == b;
    } else {
      TrimRightOf(w, b);
    }
  }

  lemma {:induction false} TrimLeftOf(a: string, rest: string)
    requires AllSpace(a)
    ensures TrimLeft(a + rest) == TrimLeft(rest)
  {
    if a == "" {
      assert a + rest == rest;
    } else {
      assert (a + rest)[1..] == a[1..] + rest;
      TrimLeftOf(a[1..], rest);
    }
  }

  lemma {:induction false} TrimRightOf(w: string, b: string)
    requires AllSpace(b) && w != "" && !IsSpace(w[|w| - 1])
    ensures TrimRight(w + b) == w
  {
    if b == "" {
      assert w + b == w;
    } else {
      assert (w + b)[..|w + b| - 1] == w + b[..|b| - 1];
      TrimRightOf(w, b[..|b| - 1]);
    }
  }

  /** How far the first word reaches. */
  function WordEnd(s: string): (k: nat)
    ensures k <= |s| && forall j :: 0 <= j < k ==> !IsSpace(s[j])
    ensures k < |s| ==> IsSpace(s[k])
  {
    if s == "" || IsSpace(s[0]) then 0 else 1 + WordEnd(s[1..])
  }

  /** strings.Fields: the words between runs of white space. */
  function Fields(s: string): seq<string>
    decreases |s|
  {
    if s == "" then []
    else if IsSpace(s[0]) then Fields(s[1..])
    else [s[..WordEnd(s)]] + Fields(s[WordEnd(s)..])
  }

  predicate IsWord(w: string) {
    w != "" && forall k :: 0 <= k < |w| ==> !IsSpace(w[k])
  }

  /** Words with a space between each two. */
  function Joined(words: seq<string>): string {
    if words == [] then "" else if |words| == 1 then words[0] else words[0] + " " + Joined(words[1..])
  }

  lemma WordEndAt(s: string, k: nat)
    requires k <= |s| && (forall j :: 0 <= j < k ==> !IsSpace(s[j])) && (k < |s| ==> IsSpace(s[k]))
    ensures WordEnd(s) == k
  {
  }

  /** Leading space makes no difference. */
  lemma {:induction false} FieldsSkip(a: string, rest: string)
    requires AllSpace(a)
    ensures Fields(a + rest) == Fields(rest)
    decreases |a|
  {
    if a == "" {
      assert a + rest == rest;
    } else {
      assert (a + rest)[1..] == a[1..] + rest && (a + rest)[0] == a[0];
      FieldsSkip(a[1..], rest);
    }
  }

  /** A word, some space after it, and the rest. */
  lemma FieldsWord(w: string, gap: string, rest: string)
    requires IsWord(w) && AllSpace(gap) && (gap != "" || rest == "")
    ensures Fields(w + gap + rest) == [w] + Fields(rest)
  {
    var s := w + gap + rest;
    assert s == w + (gap + rest) && s[0] == w[0];
    WordEndAt(s, |w|);
    assert s[..|w|] == w && s[|w|..] == gap + rest;
    FieldsSkip(gap, rest);
  }

  lemma {:induction false} FieldsOfJoined(words: seq<string>)
    requires forall k :: 0 <= k < |words| ==> IsWord(words[k])
    ensures Fields(Joined(words)) == words
    decreases |words|
  {
    if words != [] {
      var s, w := Joined(words), words[0];
      assert IsWord(w) && s[0] == w[0];
      WordEndAt(s, |w|);
      assert s[..|w|] == w;
      if |words| == 1 {
        assert s[|w|..] == "" && words == [w] + [];
      } else {
        FieldsOfJoined(words[1..]);
        var rest := s[|w|..];
        assert rest[0] == ' ' && rest[1..] == Joined(words[1..]);
        assert words == [w] + words[1..];
      }
    }
  }

  predicate IsDigit(c: char) {
    '0' <= c <= '9'
  }

  function DigitOf(c: char): nat
    requires IsDigit(c)
  {
    c as int - '0' as int
  }

  function Decimal(s: string): Option<nat> {
    if s == "" then None
    else if !IsDigit(s[|s| - 1]) then None
    else if |s| == 1 then Some(DigitOf(s[0]))
    else
      var front := Decimal(s[..|s| - 1]);
      if front.None? then None else Some(10 * front.value + DigitOf(s[|s| - 1]))
  }

  /** strconv.Atoi: an optional sign and decimal digits, within 64 bits. */
  function Atoi(s: string): Option<int> {
    var negative := s != "" && s[0] == '-';
    var digits := if s != "" && (s[0] == '-' || s[0] == '+') then s[1..] else s;
    var d := Decimal(digits);
    if d.None? then None
    else if negative then (if d.value <= MAX_INT + 1 then var n: int := d.value; Some(-n) else None)
    else if d.value <= MAX_INT then Some(d.value)
    else None
  }

  lemma {:induction false} FindAfter(s: string, rest: string, c: char)
    requires c !in s
    ensures Find(s + rest, c) == if Find(rest, c) < 0 then -1 else |s| + Find(rest, c)
  {
    if s == "" {
      assert s + rest == rest;
    } else {
      assert (s + rest)[1..] == s[1..] + rest && (s + rest)[0] == s[0];
      FindAfter(s[1..], rest, c);
    }
  }

  lemma FindFirst(s: string, c: char)
    requires s != "" && s[0] == c
    ensures Find(s, c) == 0
  {
  }

  // Decimal numerals.

  function Numeral(n: nat): (s: string)
    ensures s != "" && forall k :: 0 <= k < |s| ==> IsDigit(s[k])
  {
    if n < 10 then ['0' + n as char] else Numeral(n / 10) + ['0' + (n % 10) as char]
  }

  lemma NextDigit(n: nat, d: nat)
    requires 0 < n && d < 10
    ensures Numeral(10 * n + d) == Numeral(n) + ['0' + d as char]
  {
  }

  lemma NextThree(n: nat, a: nat, b: nat, c: nat)
    requires 0 < n && a < 10 && b < 10 && c < 10
    ensures Numeral(1000 * n + 100 * a + 10 * b + c) == Numeral(n) + ['0' + a as char, '0' + b as char, '0' + c as char]
  {
    hide Numeral;
    NextDigit(n, a);
    NextDigit(10 * n + a, b);
    NextDigit(100 * n + 10 * a + b, c);
  }

  lemma {:induction false} NumeralDecimal(n: nat)
    ensures Decimal(Numeral(n)) == Some(n)
  {
    if 10 <= n {
      NumeralDecimal(n / 10);
      var s := Numeral(n);
      assert s[..|s| - 1] == Numeral(n / 10);
    }
  }

  /** Writing a number and reading it back. */
  lemma NumeralReads(n: nat)
    requires n <= MAX_INT
    ensures Atoi(Numeral(n)) == Some(n)
  {
    NumeralDecimal(n);
    assert IsDigit(Numeral(n)[0]);
  }

  lemma NumeralIsPlain(n: nat)
    ensures ',' !in Numeral(n) && '/' !in Numeral(n) && '-' !in Numeral(n) && Numeral(n) != "*"
    ensures ToLower(Numeral(n)) == Numeral(n)
  {
    hide Numeral;
    var s := Numeral(n);
    assert IsDigit(s[0]);
    forall k | 0 <= k < |s|
      ensures LowerChar(s[k]) == s[k]
    {
      assert IsDigit(s[k]);
    }
  }
}
