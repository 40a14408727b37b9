/** One fetched user record, with its nested company and address. */
module Records {

  datatype Address = Address(street: string, suite: string, city: string, zipcode: string)

  datatype Company = Company(name: string)

  datatype User = User(
    id: int,
    name: string,
    username: string,
    email: string,
    phone: string,
    website: string,
    company: Company,
    address: Address)

  /** Every city that some record of `users` lives in. */
  function CitiesOf(users: seq<User>): (r: set<string>)
    ensures forall u :: u in users ==> u.address.city in r
    ensures forall c :: c in r ==> exists u :: u in users && u.address.city == c
  {
    set u | u in users :: u.address.city
  }

  /** Appending one record adds exactly its city. */
  lemma CitiesOfAppend(users: seq<User>, u: User)
    ensures CitiesOf(users + [u]) == CitiesOf(users) + {u.address.city}
  {
    assert forall v :: v in users + [u] <==> v in users || v == u;
  }
}
