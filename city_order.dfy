/**
 * The order `Array.prototype.sort` uses when given no comparator: strings
 * compared character by character, a proper prefix first. The sort of the
 * city list is modelled as an insertion sort under that order.
 */
module CityOrder {

  /** `a` sorts strictly before `b`. */
  predicate Below(a: string, b: string)
    ensures Below(a, b) ==> a != b
    ensures |a| < |b| && a == b[..|a|] ==> Below(a, b)
  {
    if a == [] then b != []
    else if b == [] then false
    else a[0] < b[0] || (a[0] == b[0] && Below(a[1..], b[1..]))
  }

  lemma {:induction false} BelowIrreflexive(a: string)
    ensures !Below(a, a)
  {
    if a != [] {
      BelowIrreflexive(a[1..]);
    }
  }

  lemma {:induction false} BelowTransitive(a: string, b: string, c: string)
    requires Below(a, b) && Below(b, c)
    ensures Below(a, c)
  {
    if a != [] && b != [] && c != [] && a[0] == b[0] == c[0] {
      BelowTransitive(a[1..], b[1..], c[1..]);
    }
  }

  /** Two different strings are always ordered one way or the other. */
  lemma {:induction false} BelowTotal(a: string, b: string)
    requires a != b
    ensures Below(a, b) || Below(b, a)
  {
    if a != [] && b != [] && a[0] == b[0] {
      assert a == [a[0]] + a[1..] && b == [b[0]] + b[1..];
      BelowTotal(a[1..], b[1..]);
    }
  }

  ghost predicate StrictlyIncreasing(s: seq<string>)
  {
    forall i, j :: 0 <= i < j < |s| ==> Below(s[i], s[j])
  }

  ghost predicate NoDuplicates(s: seq<string>)
  {
    forall i, j :: 0 <= i < j < |s| ==> s[i] != s[j]
  }

  /** A string below every element of a strictly increasing list can go in front of it. */
  lemma PrependBelowAll(h: string, s: seq<string>)
    requires StrictlyIncreasing(s)
    requires forall y :: y in s ==> Below(h, y)
    ensures StrictlyIncreasing([h] + s)
  {
    assert forall j :: 0 <= j < |s| ==> s[j] in s;
  }

  /** A string below the head of a strictly increasing list is below all of it. */
  lemma BelowHead(x: string, s: seq<string>)
    requires s != [] && StrictlyIncreasing(s) && Below(x, s[0])
    ensures forall y :: y in s ==> Below(x, y)
  {
    forall j | 0 <= j < |s| ensures Below(x, s[j]) {
      if j > 0 { BelowTransitive(x, s[0], s[j]); }
    }
  }

  /** Put `x` in front of the first element that does not sort before it. */
  function Insert(x: string, s: seq<string>): (r: seq<string>)
    ensures multiset(r) == multiset(s) + multiset{x}
    ensures StrictlyIncreasing(s) && x !in s ==> StrictlyIncreasing(r)
  {
    if s == [] then [x]
    else if !Below(s[0], x) then
      assert StrictlyIncreasing(s) && x !in s ==> StrictlyIncreasing([x] + s) by {
        if StrictlyIncreasing(s) && x !in s {
          BelowTotal(x, s[0]);
          BelowHead(x, s);
          PrependBelowAll(x, s);
        }
      }
      [x] + s
    else
      var rest := Insert(x, s[1..]);
      assert s == [s[0]] + s[1..];
      assert StrictlyIncreasing(s) && x !in s ==> StrictlyIncreasing([s[0]] + rest) by {
        if StrictlyIncreasing(s) && x !in s {
          assert StrictlyIncreasing(s[1..]);
          forall y | y in rest ensures Below(s[0], y) {
            assert y in multiset(rest);
            if y != x {
              assert y in s[1..];
            }
          }
          PrependBelowAll(s[0], rest);
        }
      }
      [s[0]] + rest
  }

  /** `Array.from(cities).sort()`. */
  function Sort(s: seq<string>): (r: seq<string>)
    ensures multiset(r) == multiset(s)
    ensures NoDuplicates(s) ==> StrictlyIncreasing(r)
  {
    if s == [] then []
    else
      var rest := Sort(s[1..]);
      assert s == [s[0]] + s[1..];
      assert NoDuplicates(s) ==> s[0] !in rest by {
        if NoDuplicates(s) {
          assert s[0] !in multiset(s[1..]);
        }
      }
      Insert(s[0], rest)
  }

  /** Sorting a duplicate-free list gives a strictly increasing list of the same strings. */
  lemma SortedCities(s: seq<string>)
    requires NoDuplicates(s)
    ensures StrictlyIncreasing(Sort(s))
    ensures forall c :: c in Sort(s) <==> c in s
    ensures |Sort(s)| == |s|
  {
    var r := Sort(s);
    assert forall c :: c in r <==> c in multiset(r);
    assert forall c :: c in s <==> c in multiset(s);
    assert |r| == |multiset(r)|;
  }
}
