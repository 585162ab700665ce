/**
 * Patent identifiers of the patent-exchange negotiation (LW_A_2): the
 * decimal rendering std::to_string gives a non-negative integer, the
 * target patent names "Patent_A<agent>_P<number>" and the extra patent
 * names "Extra_P<number>", with the facts that make them distinct.
 */
module PatentIds {
  function Digit(d: nat): char
    requires d < 10
  {
    ('0' as int + d) as char
  }

  predicate IsDigit(c: char)
  {
    '0' <= c <= '9'
  }

  /** std::to_string of a non-negative integer: decimal digits, no leading zeros. */
  function Dec(n: nat): (s: string)
    decreases n
    ensures s != [] && forall k :: 0 <= k < |s| ==> IsDigit(s[k])
    ensures n >= 10 ==> |s| >= 2
    ensures |s| > 1 ==> s[0] != '0'
  {
    if n < 10 then [Digit(n)] else Dec(n / 10) + [Digit(n % 10)]
  }

  /** Distinct numbers have distinct decimal renderings. */
  lemma {:induction false} DecInjective(a: nat, b: nat)
    requires Dec(a) == Dec(b)
    decreases a
    ensures a == b
  {
    if a >= 10 && b >= 10 {
      var da := Dec(a);
      assert da[|da| - 1] == Digit(a % 10) && da[..|da| - 1] == Dec(a / 10);
      var db := Dec(b);
      assert db[|db| - 1] == Digit(b % 10) && db[..|db| - 1] == Dec(b / 10);
      DecInjective(a / 10, b / 10);
    }
  }

  /** generatePatentId: "Patent_A" + to_string(agentId) + "_P" + to_string(patentNum). */
  function PatentId(agentId: nat, patentNum: nat): (r: string)
    ensures |r| >= 12 && r[..8] == "Patent_A"
    ensures IsDigit(r[8]) && IsDigit(r[|r| - 1])
  {
    "Patent_A" + Dec(agentId) + "_P" + Dec(patentNum)
  }

  /** The name of extra (non-target) patent i. */
  function ExtraId(i: nat): (r: string)
    ensures |r| >= 8 && r[..7] == "Extra_P"
    ensures forall k :: 7 <= k < |r| ==> IsDigit(r[k])
  {
    "Extra_P" + Dec(i)
  }

  /** Where a shorter run of digits ends in '_', a longer one still has a digit. */
  lemma UnderscoreMeetsDigit(d1: string, r1: string, d2: string, r2: string)
    requires |d1| < |d2| && forall k :: 0 <= k < |d2| ==> IsDigit(d2[k])
    ensures (d1 + "_" + r1)[|d1|] != (d2 + "_" + r2)[|d1|]
  {
    assert (d2 + "_" + r2)[|d1|] == d2[|d1|];
  }

  /** A run of digits followed by '_' can be split off unambiguously. */
  lemma SplitDigits(d1: string, r1: string, d2: string, r2: string)
    requires forall k :: 0 <= k < |d1| ==> IsDigit(d1[k])
    requires forall k :: 0 <= k < |d2| ==> IsDigit(d2[k])
    requires d1 + "_" + r1 == d2 + "_" + r2
    ensures d1 == d2 && r1 == r2
  {
    var s := d1 + "_" + r1;
    if |d1| < |d2| {
      UnderscoreMeetsDigit(d1, r1, d2, r2);
      assert false;
    } else if |d2| < |d1| {
      UnderscoreMeetsDigit(d2, r2, d1, r1);
      assert false;
    } else {
      assert d1 == s[..|d1|] == d2;
      assert r1 == s[|d1| + 1..] == r2;
    }
  }

  /** What follows "Patent_A" in a target patent name. */
  lemma PatentIdTail(a: nat, j: nat)
    ensures PatentId(a, j)[8..] == Dec(a) + "_" + ("P" + Dec(j))
  {
    var t := Dec(a) + "_" + ("P" + Dec(j));
    assert PatentId(a, j) == "Patent_A" + t;
  }

  /** Different (agent, number) pairs name different patents. */
  lemma PatentIdInjective(a: nat, j: nat, b: nat, k: nat)
    requires PatentId(a, j) == PatentId(b, k)
    ensures a == b && j == k
  {
    PatentIdTail(a, j);
    PatentIdTail(b, k);
    SplitDigits(Dec(a), "P" + Dec(j), Dec(b), "P" + Dec(k));
    assert Dec(j) == ("P" + Dec(j))[1..];
    assert Dec(k) == ("P" + Dec(k))[1..];
    DecInjective(a, b);
    DecInjective(j, k);
  }

  /** Different numbers name different extra patents. */
  lemma ExtraIdInjective(i: nat, k: nat)
    requires ExtraId(i) == ExtraId(k)
    ensures i == k
  {
    assert Dec(i) == ExtraId(i)[7..];
    assert Dec(k) == ExtraId(k)[7..];
    DecInjective(i, k);
  }

  /** No extra patent is a target patent. */
  lemma ExtraIsNotTarget(i: nat, a: nat, j: nat)
    ensures ExtraId(i) != PatentId(a, j)
  {
  }
}
