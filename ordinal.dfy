/**
 * The rank message of `my_rank`: the rank written in decimal followed by an
 * English ordinal suffix, computed the way the session does it, from the
 * last two characters of the decimal string.
 */
module Ordinal {

  function DigitChar(d: nat): (c: char)
    requires d < 10
    ensures '0' <= c <= '9'
    ensures c == '1' <==> d == 1
  {
    (48 + d) as char
  }

  function DigitValue(c: char): (d: nat)
    requires '0' <= c <= '9'
    ensures d < 10 && DigitChar(d) == c
  {
    (c as int - 48) as nat
  }

  predicate IsDigits(s: string)
  {
    forall i :: 0 <= i < |s| ==> '0' <= s[i] <= '9'
  }

  /** Decimal numeral of a natural number, as Python's `str` writes it:
      no leading zeros; the last character is the units digit and, from
      ten on, the one before it is the tens digit. */
  function NatToString(n: nat): (s: string)
    ensures |s| >= 1 && IsDigits(s)
    ensures s[|s| - 1] == DigitChar(n % 10)
    ensures |s| >= 2 <==> n >= 10
    ensures n >= 10 ==> s[|s| - 2] == DigitChar((n / 10) % 10)
    ensures s[0] == '0' ==> n == 0
    decreases n
  {
    if n < 10 then [DigitChar(n)] else NatToString(n / 10) + [DigitChar(n % 10)]
  }

  /** Value of a non-empty decimal numeral. */
  function ParseNat(s: string): nat
    requires |s| >= 1 && IsDigits(s)
    decreases |s|
  {
    if |s| == 1 then DigitValue(s[0])
    else 10 * ParseNat(s[..|s| - 1]) + DigitValue(s[|s| - 1])
  }

  /** Reading back the numeral gives the number: `NatToString` loses nothing. */
  lemma {:induction false} ParseNatToString(n: nat)
    ensures ParseNat(NatToString(n)) == n
    decreases n
  {
    if n >= 10 {
      var s := NatToString(n);
      assert s[..|s| - 1] == NatToString(n / 10);
      ParseNatToString(n / 10);
    }
  }

  /** Python's `str(i)` for any integer, with a leading minus sign. */
  function IntToString(i: int): (s: string)
    ensures |s| >= 1
    ensures s[0] == '-' <==> i < 0
    ensures IsDigits(s[if i < 0 then 1 else 0..])
    ensures s[|s| - 1] == DigitChar(Abs(i) % 10)
    ensures i >= 0 ==> s == NatToString(i)
    ensures i < 0 ==> s == "-" + NatToString(-i)
  {
    if i < 0 then "-" + NatToString(-i) else NatToString(i)
  }

  /** The suffix the session picks from the numeral's last two characters. */
  function SuffixOf(numeral: string): (suffix: string)
    requires |numeral| >= 1
    ensures suffix in ["st", "nd", "rd", "th"]
    ensures |numeral| >= 2 && numeral[|numeral| - 2] == '1' ==> suffix == "th"
    ensures numeral[|numeral| - 1] !in "123" ==> suffix == "th"
  {
    var last := numeral[|numeral| - 1];
    var teen := |numeral| > 1 && numeral[|numeral| - 2] == '1';
    if last == '1' then (if teen then "th" else "st")
    else if last == '2' then (if teen then "th" else "nd")
    else if last == '3' then (if teen then "th" else "rd")
    else "th"
  }

  /** What `my_rank` prints for a rank: "not yet" exactly for 0; any other
      rank is written in decimal and takes its English ordinal suffix. */
  function RankText(rank: int): (text: string)
    ensures text == "not yet" <==> rank == 0
    ensures rank != 0 ==> text == IntToString(rank) + EnglishSuffix(Abs(rank))
  {
    if rank == 0 then "not yet"
    else
      var numeral := IntToString(rank);
      SuffixOfIsEnglish(rank);
      var text := numeral + SuffixOf(numeral);
      assert text[0] == numeral[0] != 'n';
      text
  }

  function Abs(i: int): nat
  {
    if i < 0 then -i else i
  }

  /** The English ordinal suffix stated arithmetically: "th" for every number
      ending in 11, 12 or 13, otherwise "st", "nd", "rd" after a last digit 1, 2, 3. */
  function EnglishSuffix(n: nat): string
  {
    if 11 <= n % 100 <= 13 then "th"
    else if n % 10 == 1 then "st"
    else if n % 10 == 2 then "nd"
    else if n % 10 == 3 then "rd"
    else "th"
  }

  lemma LastTwoDigits(n: nat)
    ensures n % 100 == 10 * ((n / 10) % 10) + n % 10
  {
    var q := n / 10;
    assert n == 10 * q + n % 10;
    assert q == 10 * (q / 10) + q % 10;
    assert n == 100 * (q / 10) + (10 * (q % 10) + n % 10);
    var lo := 10 * (q % 10) + n % 10;
    assert 0 <= lo < 100;
  }

  /** The session's string test on the numeral picks the English suffix of
      every rank, negative ranks included (they are judged by their digits). */
  lemma SuffixOfIsEnglish(rank: int)
    ensures SuffixOf(IntToString(rank)) == EnglishSuffix(Abs(rank))
  {
    var n := Abs(rank);
    var t := NatToString(n);
    var s := IntToString(rank);
    assert s[|s| - 1] == t[|t| - 1];
    var teen := |s| > 1 && s[|s| - 2] == '1';
    if n >= 10 {
      assert s[|s| - 2] == t[|t| - 2];
      assert teen <==> (n / 10) % 10 == 1;
    } else {
      assert rank < 0 ==> s[|s| - 2] == '-';
      assert !teen;
      assert (n / 10) % 10 == 0;
    }
    LastTwoDigits(n);
    assert SuffixOf(s) == EnglishSuffix(n);
  }

  /** Rank 0 reads "not yet". */
  lemma RankTextZero()
    ensures RankText(0) == "not yet"
  {
  }

  /** 1, 2 and 3 take "st", "nd" and "rd"; 4 takes "th". */
  lemma RankTextFirst()
    ensures RankText(1) == "1st"
  {
    assert IntToString(1) == "1";
  }

  lemma RankTextSecond()
    ensures RankText(2) == "2nd"
  {
    assert IntToString(2) == "2";
  }

  lemma RankTextThird()
    ensures RankText(3) == "3rd"
  {
    assert IntToString(3) == "3";
  }

  lemma RankTextFourth()
    ensures RankText(4) == "4th"
  {
    assert IntToString(4) == "4";
  }

  /** Every rank ending in 11, 12 or 13 takes "th", whatever its last digit. */
  lemma TeensTakeTh(rank: int)
    requires 11 <= Abs(rank) % 100 <= 13
    ensures RankText(rank) == IntToString(rank) + "th"
  {
  }

  /** 111 and 112 take "th", 101 takes "st". */
  lemma RankTextHundredEleventh()
    ensures RankText(111) == "111th"
  {
    assert NatToString(11) == "11";
    assert IntToString(111) == "111";
  }

  lemma RankTextHundredTwelfth()
    ensures RankText(112) == "112th"
  {
    assert NatToString(11) == "11";
    assert IntToString(112) == "112";
  }

  lemma RankTextHundredFirst()
    ensures RankText(101) == "101st"
  {
    assert NatToString(10) == "10";
    assert IntToString(101) == "101";
  }
}
