/**
 * `filterUsers`: the view is the subsequence of the fetched users whose name
 * or username contains the lowercased search text and, when a city is
 * selected, whose city is exactly that city.
 */
module UserFilter {
  import opened Text
  import opened Records

  /** The search predicate; `term` is the search text after `toLowerCase`. */
  predicate MatchesSearch(u: User, term: string)
    ensures MatchesSearch(u, term) <==> Occurs(ToLower(u.name), term) || Occurs(ToLower(u.username), term)
  {
    Includes(ToLower(u.name), term) || Includes(ToLower(u.username), term)
  }

  /** The city predicate; the empty selection is falsy and constrains nothing. */
  predicate MatchesCity(u: User, selectedCity: string)
    ensures MatchesCity(u, selectedCity) <==> selectedCity == "" || u.address.city == selectedCity
  {
    if selectedCity != "" then u.address.city == selectedCity else true
  }

  predicate Keep(u: User, term: string, selectedCity: string)
  {
    MatchesSearch(u, term) && MatchesCity(u, selectedCity)
  }

  /** `Array.prototype.filter`: the elements `keep` accepts, in their order. */
  function FilterBy<T>(s: seq<T>, keep: T -> bool): (r: seq<T>)
    ensures |r| <= |s|
    ensures forall k :: 0 <= k < |r| ==> keep(r[k])
  {
    if s == [] then []
    else
      var rest := FilterBy(s[1..], keep);
      if keep(s[0]) then [s[0]] + rest else rest
  }

  /** An element is in the result exactly when it is in `s` and `keep` accepts it. */
  lemma {:induction false} FilterByMembers<T(!new)>(s: seq<T>, keep: T -> bool)
    ensures forall x :: x in FilterBy(s, keep) <==> x in s && keep(x)
  {
    if s != [] {
      FilterByMembers(s[1..], keep);
      assert forall x :: x in s <==> x == s[0] || x in s[1..];
    }
  }

  /** `filterUsers` minus rendering: the search text is lowercased once, then every record is tested. */
  function FilterUsers(users: seq<User>, searchValue: string, selectedCity: string): (r: seq<User>)
    ensures forall u :: u in r <==> u in users && Keep(u, ToLower(searchValue), selectedCity)
  {
    var term := ToLower(searchValue);
    FilterByMembers(users, u => Keep(u, term, selectedCity));
    FilterBy(users, u => Keep(u, term, selectedCity))
  }

  /** The positions of `s` that `keep` accepts, in increasing order. */
  function Positions<T>(s: seq<T>, keep: T -> bool): (idx: seq<nat>)
    ensures |idx| <= |s|
    ensures forall k :: 0 <= k < |idx| ==> idx[k] < |s|
  {
    if s == [] then []
    else
      var tail := Positions(s[1..], keep);
      var shifted := seq(|tail|, k requires 0 <= k < |tail| => tail[k] + 1);
      if keep(s[0]) then [0] + shifted else shifted
  }

  lemma {:induction false} PositionsSelect<T>(s: seq<T>, keep: T -> bool)
    ensures |Positions(s, keep)| == |FilterBy(s, keep)|
    ensures forall k :: 0 <= k < |Positions(s, keep)| ==> FilterBy(s, keep)[k] == s[Positions(s, keep)[k]]
  {
    if s != [] {
      PositionsSelect(s[1..], keep);
      var tail := Positions(s[1..], keep);
      forall k | 0 <= k < |tail| ensures s[1..][tail[k]] == s[tail[k] + 1] { }
    }
  }

  lemma {:induction false} PositionsIncrease<T>(s: seq<T>, keep: T -> bool)
    ensures forall k, l :: 0 <= k < l < |Positions(s, keep)| ==> Positions(s, keep)[k] < Positions(s, keep)[l]
  {
    if s != [] {
      PositionsIncrease(s[1..], keep);
    }
  }

  lemma {:induction false} PositionsExact<T>(s: seq<T>, keep: T -> bool)
    ensures forall j :: 0 <= j < |s| ==> (j in Positions(s, keep) <==> keep(s[j]))
  {
    if s != [] {
      PositionsExact(s[1..], keep);
      var tail := Positions(s[1..], keep);
      var shifted := seq(|tail|, k requires 0 <= k < |tail| => tail[k] + 1);
      assert 0 !in shifted;
      forall j | 1 <= j < |s|
        ensures j in shifted <==> keep(s[j])
      {
        assert s[1..][j - 1] == s[j];
        if j - 1 in tail {
          var k :| 0 <= k < |tail| && tail[k] == j - 1;
          assert shifted[k] == j;
        }
      }
    }
  }

  /** Filtering by `p` and then by `q` is filtering by their conjunction. */
  lemma {:induction false} FilterByTwice<T>(s: seq<T>, p: T -> bool, q: T -> bool, both: T -> bool)
    requires forall x :: both(x) == (p(x) && q(x))
    ensures FilterBy(FilterBy(s, p), q) == FilterBy(s, both)
  {
    if s != [] {
      FilterByTwice(s[1..], p, q, both);
    }
  }

  /** Filtering with a predicate that accepts everything changes nothing. */
  lemma {:induction false} FilterByAll<T>(s: seq<T>, keep: T -> bool)
    requires forall x :: keep(x)
    ensures FilterBy(s, keep) == s
  {
    if s != [] {
      FilterByAll(s[1..], keep);
    }
  }

  /** Every record shown comes from `users`, in the same relative order. */
  lemma FilterIsSubsequence(users: seq<User>, searchValue: string, selectedCity: string)
    returns (idx: seq<nat>)
    ensures |idx| == |FilterUsers(users, searchValue, selectedCity)|
    ensures forall k :: 0 <= k < |idx| ==>
              idx[k] < |users| && FilterUsers(users, searchValue, selectedCity)[k] == users[idx[k]]
    ensures forall k, l :: 0 <= k < l < |idx| ==> idx[k] < idx[l]
    ensures forall j :: 0 <= j < |users| ==> (j in idx <==> Keep(users[j], ToLower(searchValue), selectedCity))
  {
    var term := ToLower(searchValue);
    var keep := u => Keep(u, term, selectedCity);
    idx := Positions(users, keep);
    PositionsSelect(users, keep);
    PositionsIncrease(users, keep);
    PositionsExact(users, keep);
  }

  /** Soundness of the search: the lowercased text occurs in the lowercased name or username. */
  lemma FilterSearchSound(users: seq<User>, searchValue: string, selectedCity: string, u: User)
    requires u in FilterUsers(users, searchValue, selectedCity)
    ensures Occurs(ToLower(u.name), ToLower(searchValue)) || Occurs(ToLower(u.username), ToLower(searchValue))
  {
  }

  /** Soundness of the city: a selected city is matched exactly. */
  lemma FilterCitySound(users: seq<User>, searchValue: string, selectedCity: string, u: User)
    requires selectedCity != ""
    requires u in FilterUsers(users, searchValue, selectedCity)
    ensures u.address.city == selectedCity
  {
  }

  /** Completeness: a record satisfying both predicates is shown. */
  lemma FilterComplete(users: seq<User>, searchValue: string, selectedCity: string, u: User)
    requires u in users
    requires Occurs(ToLower(u.name), ToLower(searchValue)) || Occurs(ToLower(u.username), ToLower(searchValue))
    requires selectedCity == "" || u.address.city == selectedCity
    ensures u in FilterUsers(users, searchValue, selectedCity)
  {
  }

  /** With no search text the search predicate holds of every record. */
  lemma EmptySearchMatches(u: User)
    ensures MatchesSearch(u, ToLower(""))
  {
    ToLowerEmpty();
    EmptyIncluded(ToLower(u.name));
  }

  /** With empty search text and no city, the view is the whole collection, unchanged. */
  lemma FilterNothingSelected(users: seq<User>)
    ensures FilterUsers(users, "", "") == users
  {
    var term := ToLower("");
    forall u ensures Keep(u, term, "") {
      EmptySearchMatches(u);
    }
    FilterByAll(users, u => Keep(u, term, ""));
  }

  /** Filtering by search alone, then by city alone, gives the combined view. */
  lemma FilterSearchThenCity(users: seq<User>, searchValue: string, selectedCity: string)
    ensures FilterUsers(users, searchValue, selectedCity)
         == FilterUsers(FilterUsers(users, searchValue, ""), "", selectedCity)
  {
    var term, none := ToLower(searchValue), ToLower("");
    forall u ensures Keep(u, term, selectedCity) == (Keep(u, term, "") && Keep(u, none, selectedCity)) {
      EmptySearchMatches(u);
    }
    FilterByTwice(users, u => Keep(u, term, ""), u => Keep(u, none, selectedCity),
                  u => Keep(u, term, selectedCity));
  }

  /** Filtering by city alone, then by search alone, gives the combined view too. */
  lemma FilterCityThenSearch(users: seq<User>, searchValue: string, selectedCity: string)
    ensures FilterUsers(users, searchValue, selectedCity)
         == FilterUsers(FilterUsers(users, "", selectedCity), searchValue, "")
  {
    var term, none := ToLower(searchValue), ToLower("");
    forall u ensures Keep(u, term, selectedCity) == (Keep(u, none, selectedCity) && Keep(u, term, "")) {
      EmptySearchMatches(u);
    }
    FilterByTwice(users, u => Keep(u, none, selectedCity), u => Keep(u, term, ""),
                  u => Keep(u, term, selectedCity));
  }

  /** A record is shown exactly when both single-predicate views show it. */
  lemma FilterIsIntersection(users: seq<User>, searchValue: string, selectedCity: string, u: User)
    ensures u in FilterUsers(users, searchValue, selectedCity)
        <==> u in FilterUsers(users, searchValue, "") && u in FilterUsers(users, "", selectedCity)
  {
    EmptySearchMatches(u);
  }
}
