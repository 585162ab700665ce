/**
 * The order of patent identifiers in the patent-exchange negotiation
 * (LW_A_2): std::string's operator<, that is lexicographic comparison
 * character by character, and iteration over an ordered set of strings.
 */
module PatentOrder {
  /** a < b as std::string compares them: the first differing character decides, a proper prefix comes first. */
  predicate Below(a: string, b: string)
    decreases |a|
    ensures |a| < |b| && a == b[..|a|] ==> Below(a, b)
    ensures a != [] && b != [] && a[0] < b[0] ==> Below(a, b)
  {
    if a == [] then b != []
    else if b == [] then false
    else if a[0] != b[0] then a[0] < b[0]
    else Below(a[1..], b[1..])
  }

  lemma {:induction false} BelowIrreflexive(a: string)
    decreases |a|
    ensures !Below(a, a)
  {
    if a != [] {
      BelowIrreflexive(a[1..]);
    }
  }

  lemma {:induction false} BelowTransitive(a: string, b: string, c: string)
    requires Below(a, b) && Below(b, c)
    decreases |a|
    ensures Below(a, c)
  {
    if a != [] && a[0] == b[0] && b[0] == c[0] {
      BelowTransitive(a[1..], b[1..], c[1..]);
    }
  }

  lemma {:induction false} BelowTotal(a: string, b: string)
    requires a != b
    decreases |a|
    ensures Below(a, b) || Below(b, a)
  {
    if a != [] && b != [] && a[0] == b[0] {
      assert a == [a[0]] + a[1..] && b == [b[0]] + b[1..];
      BelowTotal(a[1..], b[1..]);
    }
  }

  lemma BelowAsymmetric(a: string, b: string)
    requires Below(a, b)
    ensures !Below(b, a)
  {
    if Below(b, a) {
      BelowTransitive(a, b, a);
      BelowIrreflexive(a);
    }
  }

  /** x is the first element of s in the set's order. */
  predicate IsLeast(x: string, s: set<string>)
  {
    x in s && forall y :: y in s ==> x == y || Below(x, y)
  }

  /** Every non-empty finite set of strings has a first element. */
  lemma {:induction false} LeastExists(s: set<string>)
    requires s != {}
    decreases |s|
    ensures exists x :: IsLeast(x, s)
  {
    var y :| y in s;
    if s != {y} {
      LeastExists(s - {y});
      var x :| IsLeast(x, s - {y});
      BelowTotal(x, y);
      if Below(y, x) {
        forall z | z in s ensures y == z || Below(y, z) {
          if z != y && z != x {
            BelowTransitive(y, x, z);
          }
        }
        assert IsLeast(y, s);
      } else {
        assert IsLeast(x, s);
      }
    } else {
      assert IsLeast(y, s);
    }
  }

  /** The first element of a set is unique. */
  lemma LeastUnique(x: string, x': string, s: set<string>)
    requires IsLeast(x, s) && IsLeast(x', s)
    ensures x == x'
  {
    if x != x' {
      BelowAsymmetric(x, x');
    }
  }

  /** The first element of a non-empty set. */
  ghost function Least(s: set<string>): (x: string)
    requires s != {}
    ensures IsLeast(x, s)
  {
    LeastExists(s);
    var x :| IsLeast(x, s); x
  }

  predicate StrictlyAscending(v: seq<string>)
  {
    forall i, j :: 0 <= i < j < |v| ==> Below(v[i], v[j])
  }

  /**
   * Iteration over a std::set<string>: the elements, each once, in
   * ascending order. Built by taking the first remaining element each time.
   */
  method Ascending(s: set<string>) returns (v: seq<string>)
    ensures StrictlyAscending(v)
    ensures forall x :: x in v <==> x in s
    ensures |v| == |s|
  {
    v := [];
    var rest := s;
    while rest != {}
      invariant StrictlyAscending(v)
      invariant forall x :: x in s <==> x in v || x in rest
      invariant forall i, y :: 0 <= i < |v| && y in rest ==> Below(v[i], y)
      invariant |v| + |rest| == |s|
      decreases |rest|
    {
      LeastExists(rest);
      var x :| x in rest && IsLeast(x, rest);
      forall i | 0 <= i < |v| ensures v[i] != x {
        BelowIrreflexive(x);
      }
      v := v + [x];
      rest := rest - {x};
    }
  }

  /**
   * Scanning an ascending listing of s for the first element in t finds
   * the first element of s * t; finding none means s and t are disjoint.
   */
  lemma FirstMatchIsLeast(v: seq<string>, s: set<string>, t: set<string>, i: nat)
    requires StrictlyAscending(v) && forall x :: x in v <==> x in s
    requires i < |v| && v[i] in t
    requires forall j :: 0 <= j < i ==> v[j] !in t
    ensures s * t != {} && v[i] == Least(s * t)
  {
    var u := s * t;
    assert v[i] in u;
    forall y | y in u ensures v[i] == y || Below(v[i], y) {
      var j :| 0 <= j < |v| && v[j] == y;
      assert j >= i;
    }
    LeastUnique(v[i], Least(u), u);
  }

  lemma NoMatchDisjoint(v: seq<string>, s: set<string>, t: set<string>)
    requires forall x :: x in v <==> x in s
    requires forall j :: 0 <= j < |v| ==> v[j] !in t
    ensures s * t == {}
  {
    forall y | y in s ensures y !in t {
      var j :| 0 <= j < |v| && v[j] == y;
    }
  }
}
