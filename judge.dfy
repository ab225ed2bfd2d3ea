/** The Codeforces data the controllers read: catalog problems and a user's
    submissions, as the judge's API returns them, and the composite key
    `"{contestId}-{index}"` that the controllers build from them. */
module Judge {

  import opened Wrappers

  /** The verdict string of an accepted submission. */
  const Accepted: string := "OK"

  /** A catalog problem. `rating` is absent for unrated problems. */
  datatype Problem = Problem(
    contestId: int,
    index: string,
    name: string,
    rating: Option<int>,
    tags: seq<string>)

  /** A submission: its verdict and the problem it was made for. */
  datatype Submission = Submission(verdict: string, problem: Problem)

  predicate IsDigit(c: char) {
    '0' <= c <= '9'
  }

  predicate AllDigits(s: string) {
    forall i :: 0 <= i < |s| ==> IsDigit(s[i])
  }

  function DigitChar(d: nat): (c: char)
    requires d < 10
  {
    ('0' as int + d) as char
  }

  /** The decimal digits of `n`, most significant first, without leading zeros. */
  function NatToString(n: nat): (s: string)
    ensures |s| > 0 && AllDigits(s)
    ensures s[0] == '0' <==> n == 0
    ensures n == 0 ==> s == "0"
    decreases n
  {
    if n < 10 then [DigitChar(n)] else NatToString(n / 10) + [DigitChar(n % 10)]
  }

  /** The value of a string of decimal digits. */
  function ParseNat(s: string): (n: nat)
    requires AllDigits(s)
    decreases |s|
  {
    if s == [] then 0
    else ParseNat(s[..|s| - 1]) * 10 + (s[|s| - 1] as int - '0' as int)
  }

  /** How a template literal renders an integral number: a `-` for a
      negative number, then the decimal digits of its magnitude, which read
      back as that magnitude, with no leading zero. */
  function IntToString(i: int): (s: string)
    ensures |s| > 0 && (s[0] == '-' <==> i < 0)
    ensures var digits := if i < 0 then s[1..] else s;
      && |digits| > 0 && AllDigits(digits) && ParseNat(digits) == (if i < 0 then -i else i)
      && (digits[0] == '0' <==> i == 0) && (i == 0 ==> s == "0")
  {
    var m: nat := if i < 0 then -i else i;
    ParseNatToString(m);
    var digits := NatToString(m);
    assert IsDigit(digits[0]);
    if i < 0 then
      assert ("-" + digits)[1..] == digits;
      "-" + digits
    else digits
  }

  /** The composite key `${contestId}-${index}`: the rendered contest id, a
      `-`, then the index. */
  function Key(contestId: int, index: string): (k: string)
    ensures var c := IntToString(contestId);
      && |k| == |c| + 1 + |index| && k[..|c|] == c && k[|c|] == '-' && k[|c| + 1..] == index
  {
    var c := IntToString(contestId);
    assert (c + "-" + index)[..|c|] == c;
    assert (c + "-" + index)[|c| + 1..] == index;
    c + "-" + index
  }

  function ProblemKey(p: Problem): (k: string) {
    Key(p.contestId, p.index)
  }

  function SubmissionKey(s: Submission): (k: string) {
    ProblemKey(s.problem)
  }

  lemma {:induction false} ParseNatToString(n: nat)
    ensures ParseNat(NatToString(n)) == n
    decreases n
  {
    var s := NatToString(n);
    if n >= 10 {
      ParseNatToString(n / 10);
      assert s[..|s| - 1] == NatToString(n / 10);
      assert s[|s| - 1] == DigitChar(n % 10);
    }
  }

  /** A digit string followed by `-` can be split back at the first `-`. */
  lemma SplitAtDash(a: string, x: string, b: string, y: string)
    requires AllDigits(a) && AllDigits(b)
    requires a + "-" + x == b + "-" + y
    ensures a == b && x == y
  {
    var s := a + "-" + x;
    assert s == b + "-" + y;
    assert s[|a|] == '-' && s[|b|] == '-';
    assert |b| < |a| ==> s[|b|] == a[|b|] && IsDigit(a[|b|]);
    assert |a| < |b| ==> s[|a|] == b[|a|] && IsDigit(b[|a|]);
    assert a == s[..|a|] && b == s[..|b|];
    assert x == s[|a| + 1..] && y == s[|b| + 1..];
  }

  lemma NatToStringInjective(m: nat, n: nat)
    requires NatToString(m) == NatToString(n)
    ensures m == n
  {
    ParseNatToString(m);
    ParseNatToString(n);
  }

  /** The composite key identifies the problem: distinct pairs
      (contestId, index) never produce the same key string. */
  lemma KeyInjective(c1: int, i1: string, c2: int, i2: string)
    requires Key(c1, i1) == Key(c2, i2)
    ensures c1 == c2 && i1 == i2
  {
    var s1, s2 := IntToString(c1), IntToString(c2);
    assert s1 + "-" + i1 == s2 + "-" + i2;
    assert (s1 + "-" + i1)[0] == s1[0];
    assert (s2 + "-" + i2)[0] == s2[0];
    if c1 < 0 {
      var d1, d2 := NatToString(-c1), NatToString(-c2);
      assert (s1 + "-" + i1)[1..] == d1 + "-" + i1;
      assert (s2 + "-" + i2)[1..] == d2 + "-" + i2;
      SplitAtDash(d1, i1, d2, i2);
      NatToStringInjective(-c1, -c2);
    } else {
      SplitAtDash(s1, i1, s2, i2);
      NatToStringInjective(c1, c2);
    }
  }
}
