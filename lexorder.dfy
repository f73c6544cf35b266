/**
  Python's ordering of `str` values (lexicographic by code point, a proper
  prefix first) and the sorted listing that `sorted()` / `list.sort()` give
  for a set of distinct names.
*/
module LexOrder {

  /** `a < b` as Python compares two strings. */
  predicate Less(a: string, b: string)
  {
    if |a| == 0 then |b| > 0
    else if |b| == 0 then false
    else if a[0] != b[0] then a[0] < b[0]
    else Less(a[1..], b[1..])
  }

  lemma {:induction false} LessIrreflexive(a: string)
    ensures !Less(a, a)
  {
    if |a| > 0 {
      LessIrreflexive(a[1..]);
    }
  }

  lemma {:induction false} LessAsymmetric(a: string, b: string)
    requires Less(a, b)
    ensures !Less(b, a)
  {
    if |a| > 0 && |b| > 0 && a[0] == b[0] {
      LessAsymmetric(a[1..], b[1..]);
    }
  }

  lemma {:induction false} LessTransitive(a: string, b: string, c: string)
    requires Less(a, b) && Less(b, c)
    ensures Less(a, c)
  {
    if |a| > 0 && |b| > 0 && |c| > 0 && a[0] == b[0] && b[0] == c[0] {
      LessTransitive(a[1..], b[1..], c[1..]);
    }
  }

  lemma {:induction false} LessTotal(a: string, b: string)
    requires a != b
    ensures Less(a, b) || Less(b, a)
  {
    if |a| > 0 && |b| > 0 && a[0] == b[0] {
      assert a == [a[0]] + a[1..] && b == [b[0]] + b[1..];
      LessTotal(a[1..], b[1..]);
    }
  }

  /** Every later element is greater: sorted and free of duplicates. */
  ghost predicate StrictlySorted(s: seq<string>)
  {
    forall i, j :: 0 <= i < j < |s| ==> Less(s[i], s[j])
  }

  /** `m` is the least element of `s`. */
  ghost predicate IsLeast(m: string, s: set<string>)
  {
    m in s && forall y :: y in s ==> !Less(y, m)
  }

  lemma LeastExists(s: set<string>)
    requires s != {}
    ensures exists m :: IsLeast(m, s)
    decreases s
  {
    var x :| x in s;
    if s != {x} {
      LeastExists(s - {x});
      var m :| IsLeast(m, s - {x});
      if Less(x, m) {
        LessIrreflexive(x);
        forall y | y in s
          ensures !Less(y, x)
        {
          if y != x && Less(y, x) {
            LessTransitive(y, x, m);
          }
        }
        assert IsLeast(x, s);
      } else {
        assert IsLeast(m, s);
      }
    } else {
      LessIrreflexive(x);
      assert IsLeast(x, s);
    }
  }

  lemma LeastUnique(a: string, b: string, s: set<string>)
    requires IsLeast(a, s) && IsLeast(b, s)
    ensures a == b
  {
    if a != b {
      LessTotal(a, b);
    }
  }

  ghost function Least(s: set<string>): (m: string)
    requires s != {}
    ensures IsLeast(m, s)
  {
    LeastExists(s);
    var m :| IsLeast(m, s);
    m
  }

  /** The names of `s` in ascending order. */
  ghost function SortedSeq(s: set<string>): seq<string>
    decreases s
  {
    if s == {} then [] else [Least(s)] + SortedSeq(s - {Least(s)})
  }

  /** `SortedSeq` lists each element of `s` exactly once, in ascending order. */
  lemma {:induction false} SortedSeqSpec(s: set<string>)
    ensures StrictlySorted(SortedSeq(s))
    ensures |SortedSeq(s)| == |s|
    ensures forall x :: x in SortedSeq(s) <==> x in s
    decreases s
  {
    if s != {} {
      var m := Least(s);
      var r := SortedSeq(s - {m});
      SortedSeqSpec(s - {m});
      assert SortedSeq(s) == [m] + r;
      forall j | 0 <= j < |r|
        ensures Less(m, r[j])
      {
        assert r[j] in s && r[j] != m;
        LessTotal(m, r[j]);
      }
    }
  }

  /** A strictly sorted listing of `s` is `SortedSeq(s)`: the sorted order is unique. */
  lemma {:induction false} SortedSeqUnique(r: seq<string>, s: set<string>)
    requires StrictlySorted(r)
    requires forall x :: x in r <==> x in s
    ensures r == SortedSeq(s)
    decreases |r|
  {
    if r == [] {
      assert s == {};
    } else {
      assert r[0] in s;
      forall y | y in s
        ensures !Less(y, r[0])
      {
        var j :| 0 <= j < |r| && r[j] == y;
        if j == 0 {
          LessIrreflexive(y);
        } else {
          LessAsymmetric(r[0], y);
        }
      }
      LeastUnique(r[0], Least(s), s);
      forall x
        ensures x in r[1..] <==> x in s - {r[0]}
      {
        if x in r[1..] {
          var j :| 1 <= j < |r| && r[j] == x;
          LessIrreflexive(x);
          assert Less(r[0], r[j]);
        }
        if x in s - {r[0]} {
          assert x in r;
        }
      }
      SortedSeqUnique(r[1..], s - {r[0]});
    }
  }

  /** The least name still in `s`, found by a linear scan. */
  method LeastOf(s: set<string>) returns (m: string)
    requires s != {}
    ensures IsLeast(m, s)
  {
    m :| m in s;
    var rest := s - {m};
    LessIrreflexive(m);
    while rest != {}
      invariant rest <= s && m in s && m !in rest
      invariant forall y :: y in s - rest ==> !Less(y, m)
      decreases rest
    {
      var y :| y in rest;
      if Less(y, m) {
        forall z | z in s - rest
          ensures !Less(z, y)
        {
          if Less(z, y) {
            LessTransitive(z, y, m);
          }
        }
        LessIrreflexive(y);
        m := y;
      }
      rest := rest - {y};
    }
  }

  /** `sorted(s)`: the elements of a set of names in ascending order. */
  method SortNames(s: set<string>) returns (r: seq<string>)
    ensures r == SortedSeq(s)
  {
    r := [];
    var rest := s;
    while rest != {}
      invariant rest <= s
      invariant r + SortedSeq(rest) == SortedSeq(s)
      decreases rest
    {
      var m := LeastOf(rest);
      LeastUnique(m, Least(rest), rest);
      assert SortedSeq(rest) == [m] + SortedSeq(rest - {m});
      r := r + [m];
      rest := rest - {m};
    }
  }
}
