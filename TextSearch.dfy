/**
 * The search endpoint's ordinal, case-insensitive IndexOf: the first
 * position at which word occurs in sentence when letter case is ignored,
 * or -1. Case folding is restricted to the ASCII letters.
 */
module TextSearch {
  /** Upper-case mapping of the ASCII letters; every other character is kept. */
  function UpperAscii(c: char): char
  {
    if 'a' <= c <= 'z' then (c as int - 32) as char else c
  }

  predicate SameIgnoringCase(a: char, b: char)
  {
    UpperAscii(a) == UpperAscii(b)
  }

  /** word occurs in sentence at position i, ignoring case. */
  predicate MatchesAt(sentence: string, word: string, i: int)
  {
    0 <= i && i + |word| <= |sentence| &&
    forall j :: 0 <= j < |word| ==> SameIgnoringCase(sentence[i + j], word[j])
  }

  /** The first match at or after position i, or -1. */
  function IndexFrom(sentence: string, word: string, i: nat): (r: int)
    ensures r == -1 || (i <= r && MatchesAt(sentence, word, r))
    ensures r == -1 <==> forall k :: i <= k ==> !MatchesAt(sentence, word, k)
    ensures forall k :: i <= k < r ==> !MatchesAt(sentence, word, k)
    decreases |sentence| - i
  {
    if i + |word| > |sentence| then -1
    else if MatchesAt(sentence, word, i) then i
    else IndexFrom(sentence, word, i + 1)
  }

  /** The case-insensitive first index of word in sentence, -1 if it does
      not occur; an empty word is found at 0. */
  function IndexOfIgnoreCase(sentence: string, word: string): (r: int)
    ensures r >= 0 ==> MatchesAt(sentence, word, r)
    ensures r >= 0 ==> forall k :: 0 <= k < r ==> !MatchesAt(sentence, word, k)
    ensures r == -1 <==> forall k :: !MatchesAt(sentence, word, k)
    ensures r >= -1
  {
    IndexFrom(sentence, word, 0)
  }
  function DigitChar(d: int): (c: char)
    requires 0 <= d < 10
    ensures '0' <= c <= '9'
  {
    ('0' as int + d) as char
  }

  predicate AllDigits(s: string)
  {
    forall k :: 0 <= k < |s| ==> '0' <= s[k] <= '9'
  }

  /** The number a string of decimal digits denotes. */
  function DecimalValue(s: string): nat
    requires AllDigits(s)
  {
    if s == [] then 0
    else 10 * DecimalValue(s[..|s| - 1]) + (s[|s| - 1] as int - '0' as int)
  }

  /** The number an optionally signed decimal string denotes. */
  function ParseInt(s: string): int
    requires s != [] && (if s[0] == '-' then AllDigits(s[1..]) else AllDigits(s))
  {
    if s[0] == '-' then -(DecimalValue(s[1..]) as int) else DecimalValue(s)
  }

  /** Decimal digits of n, most significant first, with no leading zero:
      a string starting with '0' is "0" itself. */
  function Digits(n: nat): (r: string)
    ensures r != [] && AllDigits(r)
    ensures r[0] == '0' ==> r == "0"
    ensures DecimalValue(r) == n
  {
    if n < 10 then [DigitChar(n)]
    else
      var prefix := Digits(n / 10);
      var r := prefix + [DigitChar(n % 10)];
      assert r[..|r| - 1] == prefix;
      r
  }

  /** Decimal rendering of an int as string interpolation writes it: a '-'
      exactly for negative numbers, then digits with no leading zero (the
      digits start with '0' only when they are "0"), reading back as i. */
  function IntToString(i: int): (r: string)
    ensures r != [] && (r[0] == '-' <==> i < 0)
    ensures if i < 0 then AllDigits(r[1..]) else AllDigits(r)
    ensures var d := if i < 0 then r[1..] else r; d != [] && (d[0] == '0' ==> d == "0")
    ensures ParseInt(r) == i
  {
    if i < 0 then
      var r := "-" + Digits(-i);
      assert r[1..] == Digits(-i);
      r
    else Digits(i)
  }

  /** The handler's reply: the word, then " is at ", then the first index of
      the word in decimal, then " index". */
  function SearchMessage(word: string, sentence: string): (r: string)
    ensures |r| >= |word| + 14
    ensures r[..|word|] == word && r[|word|..|word| + 7] == " is at " && r[|r| - 6..] == " index"
    ensures var middle := r[|word| + 7..|r| - 6];
      middle == IntToString(IndexOfIgnoreCase(sentence, word)) &&
      middle != [] && (if middle[0] == '-' then AllDigits(middle[1..]) else AllDigits(middle)) &&
      ParseInt(middle) == IndexOfIgnoreCase(sentence, word)
  {
    var number := IntToString(IndexOfIgnoreCase(sentence, word));
    var r := word + " is at " + number + " index";
    assert r[|word| + 7..|r| - 6] == number;
    r
  }

  /** The word "Cat" is found in "I have a cat" at index 9, ignoring case. */
  lemma SearchExample()
    ensures SearchMessage("Cat", "I have a cat") == "Cat is at 9 index"
  {
    IndexExample();
    assert IntToString(9) == "9";
    MessageText();
  }

  /** The reply's pieces for that example, concatenated: kept apart from
      the lemma above, whose facts about the search make it costly. */
  lemma MessageText()
    ensures "Cat" + " is at " + "9" + " index" == "Cat is at 9 index"
  {
  }

  lemma IndexExample()
    ensures IndexOfIgnoreCase("I have a cat", "Cat") == 9
  {
    var sentence, word := "I have a cat", "Cat";
    assert MatchesAt(sentence, word, 9);
    forall k | 0 <= k < 9
      ensures !MatchesAt(sentence, word, k)
    {
      assert !SameIgnoringCase(sentence[k], word[0]);
    }
    assert IndexOfIgnoreCase(sentence, word) == 9;
  }
}
