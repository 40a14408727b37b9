/**
 * The page's module-level state: the fetched `users` array and the `cities`
 * Set. A JavaScript Set iterates in insertion order, so `cityOrder` keeps
 * its members in the order they were first added, each once.
 */
module Directory {
  import opened Records
  import opened CityOrder

  class Directory {
    var users: seq<User>
    var cityOrder: seq<string>

    ghost predicate Valid()
      reads this
    {
      NoDuplicates(cityOrder)
    }

    /** The members of the `cities` Set. */
    function Cities(): (r: set<string>)
      reads this
      ensures forall c :: c in r <==> c in cityOrder
    {
      set c | c in cityOrder
    }

    /** Page start: no users yet, an empty `cities` Set. */
    constructor ()
      ensures Valid()
      ensures users == [] && cityOrder == []
    {
      users := [];
      cityOrder := [];
    }

    /**
     * `processUserData`: add every user's city to the Set. The Set is never
     * cleared: what it held before is still there, in the same order.
     */
    method ProcessUserData()
      requires Valid()
      modifies this`cityOrder
      ensures Valid()
      ensures Cities() == old(Cities()) + CitiesOf(users)
      ensures old(cityOrder) <= cityOrder
    {
      ghost var initial := Cities();
      for i := 0 to |users|
        invariant NoDuplicates(cityOrder)
        invariant Cities() == initial + CitiesOf(users[..i])
        invariant old(cityOrder) <= cityOrder
      {
        var city := users[i].address.city;
        ghost var seen := Cities();
        if city !in cityOrder {
          ghost var before := cityOrder;
          cityOrder := cityOrder + [city];
          assert forall c :: c in cityOrder <==> c in before || c == city;
        }
        assert Cities() == seen + {city};
        assert users[..i + 1] == users[..i] + [users[i]];
        CitiesOfAppend(users[..i], users[i]);
      }
      assert users[..|users|] == users;
    }

    /** A successful fetch: the fetched array replaces `users`, then its cities are indexed. */
    method ReceiveUsers(data: seq<User>)
      requires Valid()
      modifies this
      ensures Valid()
      ensures users == data
      ensures Cities() == old(Cities()) + CitiesOf(data)
      ensures old(cityOrder) <= cityOrder
    {
      users := data;
      ProcessUserData();
    }

    /** `populatefilters` without the DOM: the city options, sorted. */
    method PopulateFilters() returns (options: seq<string>)
      requires Valid()
      ensures options == Sort(cityOrder)
      ensures StrictlyIncreasing(options)
      ensures forall c :: c in options <==> c in Cities()
    {
      options := Sort(cityOrder);
      SortedCities(cityOrder);
    }
  }
}
