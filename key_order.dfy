/** The ordering of attribute names used by the schema's `std::map<std::string, std::size_t>`:
    `std::string`'s `operator<`, which compares character by character and puts a proper
    prefix before every longer string. Iterating over the map visits keys in this order, so
    the module also defines that visiting order for a finite set of names. */
module KeyOrder {

  /** `a` sorts strictly before `b`. */
  predicate Below(a: string, b: string)
    decreases |a|
  {
    if |b| == 0 then false
    else if |a| == 0 then true
    else if a[0] != b[0] then a[0] < b[0]
    else Below(a[1..], b[1..])
  }

  /** The textbook lexicographic order: `a` is a proper prefix of `b`, or the two agree
      up to the first position where they differ and `a` has the smaller character there. */
  ghost predicate Lexicographic(a: string, b: string)
  {
    || (|a| < |b| && a == b[..|a|])
    || (exists i :: 0 <= i < |a| && i < |b| && a[..i] == b[..i] && a[i] < b[i])
  }

  /** `Below` is exactly that order. */
  lemma {:induction false} BelowIsLexicographic(a: string, b: string)
    ensures Below(a, b) <==> Lexicographic(a, b)
    decreases |a|
  {
    if |a| == 0 || |b| == 0 {
      if |a| == 0 && |b| > 0 { assert a == b[..0]; }
    } else if a[0] != b[0] {
      if a[0] < b[0] {
        assert a[..0] == b[..0];
      }
    } else {
      var a', b' := a[1..], b[1..];
      BelowIsLexicographic(a', b');
      if Lexicographic(a', b') {
        if |a'| < |b'| && a' == b'[..|a'|] {
          assert a == [a[0]] + a' && b[..|a|] == [b[0]] + b'[..|a'|];
        } else {
          var i :| 0 <= i < |a'| && i < |b'| && a'[..i] == b'[..i] && a'[i] < b'[i];
          assert a[..i + 1] == [a[0]] + a'[..i] && b[..i + 1] == [b[0]] + b'[..i];
          assert a[i + 1] == a'[i] && b[i + 1] == b'[i];
        }
      }
      if Lexicographic(a, b) {
        if |a| < |b| && a == b[..|a|] {
          assert a' == b'[..|a'|];
        } else {
          var i :| 0 <= i < |a| && i < |b| && a[..i] == b[..i] && a[i] < b[i];
          assert i > 0;
          assert a'[..i - 1] == a[..i][1..] && b'[..i - 1] == b[..i][1..];
          assert a'[i - 1] == a[i] && b'[i - 1] == b[i];
        }
      }
    }
  }

  lemma {:induction false} BelowIrreflexive(a: string)
    ensures !Below(a, a)
    decreases |a|
  {
    if |a| > 0 { BelowIrreflexive(a[1..]); }
  }

  lemma {:induction false} BelowAsymmetric(a: string, b: string)
    requires Below(a, b)
    ensures !Below(b, a)
    decreases |a|
  {
    if |a| > 0 && a[0] == b[0] { BelowAsymmetric(a[1..], b[1..]); }
  }

  lemma {:induction false} BelowTransitive(a: string, b: string, c: string)
    requires Below(a, b) && Below(b, c)
    ensures Below(a, c)
    decreases |a|
  {
    if |a| > 0 && a[0] == b[0] && b[0] == c[0] {
      BelowTransitive(a[1..], b[1..], c[1..]);
    }
  }

  /** Two different names are always ordered one way or the other. */
  lemma {:induction false} BelowTotal(a: string, b: string)
    requires a != b
    ensures Below(a, b) || Below(b, a)
    decreases |a|
  {
    if |a| > 0 && |b| > 0 && a[0] == b[0] {
      assert a == [a[0]] + a[1..] && b == [b[0]] + b[1..];
      BelowTotal(a[1..], b[1..]);
    }
  }

  /** `k` is the first name of `s` in map order. */
  predicate IsLeast(k: string, s: set<string>)
  {
    k in s && forall y :: y in s && y != k ==> Below(k, y)
  }

  lemma {:induction false} LeastExists(s: set<string>)
    requires s != {}
    ensures exists k :: IsLeast(k, s)
    decreases |s|
  {
    var x :| x in s;
    if s == {x} {
      assert IsLeast(x, s);
    } else {
      var rest := s - {x};
      LeastExists(rest);
      var k :| IsLeast(k, rest);
      if Below(x, k) {
        forall y | y in s && y != x ensures Below(x, y) {
          if y != k { BelowTransitive(x, k, y); }
        }
        assert IsLeast(x, s);
      } else {
        BelowTotal(x, k);
        assert IsLeast(k, s);
      }
    }
  }

  lemma LeastUnique(k: string, j: string, s: set<string>)
    requires IsLeast(k, s) && IsLeast(j, s)
    ensures k == j
  {
    if k != j {
      BelowAsymmetric(k, j);
    }
  }

  ghost function Least(s: set<string>): (k: string)
    requires s != {}
    ensures IsLeast(k, s)
  {
    LeastExists(s);
    var k :| IsLeast(k, s); k
  }

  /** Every earlier name sorts strictly before every later one. */
  ghost predicate StrictlyIncreasing(ks: seq<string>)
  {
    forall i, j :: 0 <= i < j < |ks| ==> Below(ks[i], ks[j])
  }

  /** The names of `s` in the order in which a `std::map` keyed by them is traversed
      from `begin()` to `end()`. */
  ghost function SortedKeys(s: set<string>): (ks: seq<string>)
    ensures |ks| == |s|
    ensures forall i :: 0 <= i < |ks| ==> ks[i] in s
    ensures forall x {:trigger x in ks} :: x in ks <==> x in s
    decreases |s|
  {
    if s == {} then [] else
      var k := Least(s);
      [k] + SortedKeys(s - {k})
  }

  /** The traversal visits the names of `s` in strictly increasing order. */
  lemma {:induction false} SortedKeysIncreasing(s: set<string>)
    ensures StrictlyIncreasing(SortedKeys(s))
    decreases |s|
  {
    if s != {} {
      var k := Least(s);
      var rest := s - {k};
      SortedKeysIncreasing(rest);
      var ks := SortedKeys(s);
      assert ks == [k] + SortedKeys(rest);
      forall i, j | 0 <= i < j < |ks| ensures Below(ks[i], ks[j]) {
        if i == 0 {
          assert ks[j] == SortedKeys(rest)[j - 1];
          assert ks[j] in rest;
        } else {
          assert ks[i] == SortedKeys(rest)[i - 1] && ks[j] == SortedKeys(rest)[j - 1];
        }
      }
    }
  }

  /** Whichever name is least comes first, so a traversal can be driven by repeatedly
      removing the least remaining name. */
  lemma SortedKeysUnfold(s: set<string>, k: string)
    requires IsLeast(k, s)
    ensures SortedKeys(s) == [k] + SortedKeys(s - {k})
  {
    LeastUnique(k, Least(s), s);
  }
}
