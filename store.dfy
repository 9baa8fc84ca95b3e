/** The SQLite database behind the routes: the `customers` and `addresses`
    tables as maps from id to row, with the AUTOINCREMENT counters, the
    UNIQUE phone number, the foreign key with ON DELETE CASCADE, and the
    route handlers that read and change them. */
module Store {
  import opened Records
  import Listing

  /** Every key is its row's id, positive and below the next id that
      AUTOINCREMENT hands out. */
  predicate CustomersKeyed(m: map<int, Customer>, next: int) {
    forall id :: id in m ==> m[id].id == id && 0 < id < next
  }

  predicate AddressesKeyed(m: map<int, Address>, next: int) {
    forall id :: id in m ==> m[id].id == id && 0 < id < next
  }

  /** Some row of the table holds this phone number. */
  predicate PhoneInUse(m: map<int, Customer>, phone: string) {
    exists id :: id in m && m[id].phoneNumber == phone
  }

  /** `phone_number TEXT NOT NULL UNIQUE`. */
  predicate PhonesUnique(m: map<int, Customer>) {
    forall i, j :: i in m && j in m && i != j ==> m[i].phoneNumber != m[j].phoneNumber
  }

  /** `FOREIGN KEY (customer_id) REFERENCES customers (id)`. */
  predicate ForeignKeysHold(addresses: map<int, Address>, customers: map<int, Customer>) {
    forall id :: id in addresses ==> addresses[id].customerId in customers
  }

  /** Every text column holds a non-empty text: the routes refuse the
      empty ones and the sample rows have none. */
  predicate CustomerFilled(c: Customer) {
    c.firstName != "" && c.lastName != "" && c.phoneNumber != ""
  }

  predicate AddressFilled(a: Address) {
    a.details != "" && a.city != "" && a.state != "" && a.pinCode != ""
  }

  /** The keys of `m` from 1 up to `n - 1`, in ascending order: the order
      of a scan of the table by rowid. */
  function IdsBelow<T>(m: map<int, T>, n: int): (r: seq<int>)
    ensures forall i, j :: 0 <= i < j < |r| ==> r[i] < r[j]
    ensures forall id :: id in r <==> id in m && 1 <= id < n
    decreases n
  {
    if n <= 1 then []
    else
      var r := IdsBelow(m, n - 1);
      assert forall k :: 0 <= k < |r| ==> r[k] < n - 1 by {
        forall k | 0 <= k < |r| ensures r[k] < n - 1 {
          assert r[k] in r;
        }
      }
      if n - 1 in m then r + [n - 1] else r
  }

  /** The rows of `m` with ids below `n`, in ascending id order. */
  function InIdOrder<T>(m: map<int, T>, n: int): (r: seq<T>)
    ensures var ids := IdsBelow(m, n);
            |r| == |ids| && forall k :: 0 <= k < |r| ==> ids[k] in m && r[k] == m[ids[k]]
  {
    var ids := IdsBelow(m, n);
    seq(|ids|, k requires 0 <= k < |ids| => m[ids[k]])
  }

  /** The scan reaches every row whose id it visits. */
  lemma InIdOrderHas<T>(m: map<int, T>, n: int, id: int)
    requires id in m && 1 <= id < n
    ensures m[id] in InIdOrder(m, n)
  {
    var ids := IdsBelow(m, n);
    var k :| 0 <= k < |ids| && ids[k] == id;
    assert InIdOrder(m, n)[k] == m[id];
  }

  /** The customers table scanned in rowid order. */
  function CustomerRows(m: map<int, Customer>, next: int): (r: seq<Customer>)
    requires CustomersKeyed(m, next)
    ensures Listing.IdsAscending(r)
    ensures Listing.DistinctIds(r)
    ensures forall c :: c in r <==> c in m.Values
  {
    var r := InIdOrder(m, next);
    assert forall k :: 0 <= k < |r| ==> r[k].id == IdsBelow(m, next)[k];
    forall c | c in m.Values ensures c in r {
      var id :| id in m && m[id] == c;
      InIdOrderHas(m, next, id);
    }
    r
  }

  /** The addresses table scanned in rowid order. */
  function AddressRows(m: map<int, Address>, next: int): (r: seq<Address>)
    requires AddressesKeyed(m, next)
    ensures forall i, j :: 0 <= i < j < |r| ==> r[i].id < r[j].id
    ensures forall a :: a in r <==> a in m.Values
  {
    var r := InIdOrder(m, next);
    assert forall k :: 0 <= k < |r| ==> r[k].id == IdsBelow(m, next)[k];
    forall a | a in m.Values ensures a in r {
      var id :| id in m && m[id] == a;
      InIdOrderHas(m, next, id);
    }
    r
  }

  /** Ids grow along the sequence: rowid order. */
  predicate IdsIncrease(rows: seq<Address>) {
    forall i, j :: 0 <= i < j < |rows| ==> rows[i].id < rows[j].id
  }

  /** `WHERE customer_id = ?` over a scan: the rows owned by `cid`, in
      their original order. */
  function OwnedBy(rows: seq<Address>, cid: int): (r: seq<Address>)
    ensures forall a :: a in r <==> a in rows && a.customerId == cid
    ensures r == [] <==> forall a :: a in rows ==> a.customerId != cid
    ensures IdsIncrease(rows) ==> IdsIncrease(r)
  {
    if rows == [] then []
    else
      var rest := OwnedBy(rows[1..], cid);
      assert forall a :: a in rows <==> a == rows[0] || a in rows[1..];
      if rows[0].customerId == cid then
        assert IdsIncrease(rows) ==> IdsIncrease([rows[0]] + rest) by {
          if IdsIncrease(rows) {
            HeadBelowRest(rows, rest);
            ConsIncrease(rows[0], rest);
          }
        }
        [rows[0]] + rest
      else
        assert IdsIncrease(rows) ==> IdsIncrease(rows[1..]);
        rest
  }

  lemma HeadBelowRest(rows: seq<Address>, rest: seq<Address>)
    requires IdsIncrease(rows) && |rows| > 0
    requires forall a :: a in rest ==> a in rows[1..]
    ensures forall a :: a in rest ==> rows[0].id < a.id
  {
    forall a | a in rest ensures rows[0].id < a.id {
      var k :| 0 <= k < |rows[1..]| && rows[1..][k] == a;
      assert rows[k + 1] == a;
    }
  }

  lemma ConsIncrease(h: Address, rest: seq<Address>)
    requires IdsIncrease(rest)
    requires forall a :: a in rest ==> h.id < a.id
    ensures IdsIncrease([h] + rest)
  {
    var r := [h] + rest;
    forall i, j | 0 <= i < j < |r| ensures r[i].id < r[j].id {
      if i > 0 {
        assert r[i] == rest[i - 1] && r[j] == rest[j - 1];
      } else {
        assert r[j] in rest;
      }
    }
  }

  /** The three rows the server inserts into an empty customers table. */
  const SampleFirst: seq<string> := ["John", "Jane", "Bob"]
  const SampleLast: seq<string> := ["Doe", "Smith", "Johnson"]
  const SamplePhone: seq<string> := ["123-456-7890", "098-765-4321", "555-123-4567"]

  /** The sample phone numbers differ and no sample field is empty. */
  lemma SamplesDistinctAndFilled()
    ensures forall i, j :: 0 <= i < j < 3 ==> SamplePhone[i] != SamplePhone[j]
    ensures forall i :: 0 <= i < 3 ==> SampleFirst[i] != "" && SampleLast[i] != "" && SamplePhone[i] != ""
  {
    assert SamplePhone[0][0] == '1' && SamplePhone[1][0] == '0' && SamplePhone[2][0] == '5';
    assert |SampleFirst[0]| == 4 && |SampleFirst[1]| == 4 && |SampleFirst[2]| == 3;
    assert |SampleLast[0]| == 3 && |SampleLast[1]| == 5 && |SampleLast[2]| == 7;
  }

  /** The i-th sample row, stored under id `id`. */
  function SampleRow(id: int, i: nat, now: int): Customer
    requires i < 3
  {
    Customer(id, SampleFirst[i], SampleLast[i], SamplePhone[i], now)
  }

  /** `m` holds exactly the first `n` sample rows, under the ids from
      `start` on. */
  ghost predicate SeededUpTo(m: map<int, Customer>, start: int, n: nat, now: int)
    requires n <= 3
  {
    && (forall id :: id in m <==> start <= id < start + n)
    && (forall id :: id in m ==> m[id] == SampleRow(id, id - start, now))
  }

  /** Inserting the next sample row succeeds: its phone number is not
      among those inserted before it, and none of its fields is empty. */
  lemma SeedStep(m: map<int, Customer>, start: int, n: nat, now: int)
    requires n < 3 && SeededUpTo(m, start, n, now)
    ensures !PhoneInUse(m, SamplePhone[n])
    ensures SampleFirst[n] != "" && SampleLast[n] != "" && SamplePhone[n] != ""
  {
    SamplesDistinctAndFilled();
    forall id | id in m ensures m[id].phoneNumber != SamplePhone[n] {
      assert m[id].phoneNumber == SamplePhone[id - start];
    }
  }

  /** Storing the next sample row under the next id extends the seeded
      rows by one. */
  lemma SeedExtends(m: map<int, Customer>, m': map<int, Customer>, start: int, n: nat, now: int)
    requires n < 3 && SeededUpTo(m, start, n, now)
    requires m' == m[start + n := SampleRow(start + n, n, now)]
    ensures SeededUpTo(m', start, n + 1, now)
  {
  }

  class Store {
    var customers: map<int, Customer>
    var addresses: map<int, Address>
    /** The ids the next inserts receive; AUTOINCREMENT never hands out an
        id twice, even after the row that had it was deleted. */
    var nextCustomerId: int
    var nextAddressId: int

    ghost predicate Valid()
      reads this
    {
      && 1 <= nextCustomerId && 1 <= nextAddressId
      && CustomersKeyed(customers, nextCustomerId)
      && AddressesKeyed(addresses, nextAddressId)
      && PhonesUnique(customers)
      && ForeignKeysHold(addresses, customers)
      && (forall id :: id in customers ==> CustomerFilled(customers[id]))
      && (forall id :: id in addresses ==> AddressFilled(addresses[id]))
    }

    /** Both tables freshly created and empty. */
    constructor ()
      ensures Valid()
      ensures customers == map[] && addresses == map[]
      ensures nextCustomerId == 1 && nextAddressId == 1
    {
      customers := map[];
      addresses := map[];
      nextCustomerId := 1;
      nextAddressId := 1;
    }

    /** `INSERT INTO customers (first_name, last_name, phone_number)`: the
        UNIQUE constraint refuses a phone number already in the table;
        otherwise the row gets the next id. */
    method InsertCustomer(first: string, last: string, phone: string, now: int) returns (id: Option<int>)
      requires Valid()
      requires first != "" && last != "" && phone != ""
      modifies this
      ensures Valid()
      ensures id.None? <==> PhoneInUse(old(customers), phone)
      ensures id.None? ==> unchanged(this)
      ensures id.Some? ==>
        && id.value == old(nextCustomerId)
        && customers == old(customers)[id.value := Customer(id.value, first, last, phone, now)]
        && nextCustomerId == old(nextCustomerId) + 1
        && addresses == old(addresses) && nextAddressId == old(nextAddressId)
    {
      if exists k :: k in customers && customers[k].phoneNumber == phone {
        return None;
      }
      id := Some(nextCustomerId);
      customers := customers[nextCustomerId := Customer(nextCustomerId, first, last, phone, now)];
      nextCustomerId := nextCustomerId + 1;
    }

    /** `POST /api/customers`: all three fields are required, a phone
        number already in the table is refused, and the new row is
        answered with its id. */
    method CreateCustomer(first: Option<string>, last: Option<string>, phone: Option<string>, now: int)
      returns (r: Outcome<Customer>)
      requires Valid()
      modifies this
      ensures Valid()
      ensures !(Present(first) && Present(last) && Present(phone)) ==>
        r == BadRequest(MissingField) && unchanged(this)
      ensures Present(first) && Present(last) && Present(phone) && PhoneInUse(old(customers), phone.value) ==>
        r == BadRequest(DuplicatePhone) && unchanged(this)
      ensures Present(first) && Present(last) && Present(phone) && !PhoneInUse(old(customers), phone.value) ==>
        && r == Ok(Customer(old(nextCustomerId), first.value, last.value, phone.value, now))
        && customers == old(customers)[r.value.id := r.value]
        && nextCustomerId == old(nextCustomerId) + 1
        && addresses == old(addresses) && nextAddressId == old(nextAddressId)
      ensures r.Ok? ==> r.value.id !in old(customers) && GetCustomer(r.value.id) == r
    {
      if !(Present(first) && Present(last) && Present(phone)) {
        return BadRequest(MissingField);
      }
      var id := InsertCustomer(first.value, last.value, phone.value, now);
      if id.None? {
        return BadRequest(DuplicatePhone);
      }
      r := Ok(customers[id.value]);
    }

    /** `GET /api/customers/:id`. */
    function GetCustomer(id: int): (r: Outcome<Customer>)
      reads this
      requires Valid()
      ensures r.Ok? <==> id in customers
      ensures !r.Ok? ==> r == NotFound
      ensures r.Ok? ==> r.value.id == id && r.value in customers.Values
    {
      if id in customers then Ok(customers[id]) else NotFound
    }

    /** `PUT /api/customers/:id`, with the `updated_at` assignment the
        table cannot take left out: all three fields are required; an id
        with no row is NotFound; a phone number another row holds is
        refused by UNIQUE; otherwise the three columns take the new values
        and everything else stays. */
    method UpdateCustomer(id: int, first: Option<string>, last: Option<string>, phone: Option<string>)
      returns (r: Outcome<()>)
      requires Valid()
      modifies this
      ensures Valid()
      ensures !(Present(first) && Present(last) && Present(phone)) ==>
        r == BadRequest(MissingField) && unchanged(this)
      ensures Present(first) && Present(last) && Present(phone) && id !in old(customers) ==>
        r == NotFound && unchanged(this)
      ensures Present(first) && Present(last) && Present(phone) && id in old(customers)
              && PhoneInUse(old(customers) - {id}, phone.value) ==>
        r == BadRequest(DuplicatePhone) && unchanged(this)
      ensures r.Ok? <==> Present(first) && Present(last) && Present(phone) && id in old(customers)
                         && !PhoneInUse(old(customers) - {id}, phone.value)
      ensures r.Ok? ==>
        && customers == old(customers)[id := old(customers)[id].(firstName := first.value,
                                                                 lastName := last.value,
                                                                 phoneNumber := phone.value)]
        && addresses == old(addresses)
        && nextCustomerId == old(nextCustomerId) && nextAddressId == old(nextAddressId)
    {
      if !(Present(first) && Present(last) && Present(phone)) {
        return BadRequest(MissingField);
      }
      if id !in customers {
        return NotFound;
      }
      if exists k :: k in customers && k != id && customers[k].phoneNumber == phone.value {
        var k :| k in customers && k != id && customers[k].phoneNumber == phone.value;
        assert k in customers - {id};
        return BadRequest(DuplicatePhone);
      }
      customers := customers[id := customers[id].(firstName := first.value, lastName := last.value,
                                                  phoneNumber := phone.value)];
      r := Ok(());
    }

    /** `DELETE /api/customers/:id`: NotFound when no row has the id;
        otherwise the row goes, and ON DELETE CASCADE takes exactly the
        addresses that refer to it. */
    method DeleteCustomer(id: int) returns (r: Outcome<()>)
      requires Valid()
      modifies this
      ensures Valid()
      ensures r.Ok? <==> id in old(customers)
      ensures !r.Ok? ==> r == NotFound && unchanged(this)
      ensures r.Ok? ==>
        && customers == old(customers) - {id}
        && addresses == (map a | a in old(addresses) && old(addresses)[a].customerId != id :: old(addresses)[a])
        && nextCustomerId == old(nextCustomerId) && nextAddressId == old(nextAddressId)
      ensures r.Ok? ==> GetCustomer(id) == NotFound && AddressesOf(id) == []
    {
      if id !in customers {
        return NotFound;
      }
      customers := customers - {id};
      addresses := map a | a in addresses && addresses[a].customerId != id :: addresses[a];
      r := Ok(());
    }

    /** The start-up seed: when the customers table is empty, the three
        sample customers are inserted one after the other; otherwise
        nothing changes. */
    method Seed(now: int)
      requires Valid()
      modifies this
      ensures Valid()
      ensures |old(customers)| != 0 ==> unchanged(this)
      ensures |old(customers)| == 0 ==>
        && nextCustomerId == old(nextCustomerId) + 3
        && SeededUpTo(customers, old(nextCustomerId), 3, now)
        && addresses == old(addresses) && nextAddressId == old(nextAddressId)
    {
      if |customers| != 0 {
        return;
      }
      var start := nextCustomerId;
      for i := 0 to 3
        invariant Valid()
        invariant nextCustomerId == start + i
        invariant SeededUpTo(customers, start, i, now)
        invariant addresses == old(addresses) && nextAddressId == old(nextAddressId)
      {
        SeedNext(start, i, now);
      }
    }

    /** One step of the seed: the `i`-th sample row goes in under the next
        id, which is `start + i`. */
    method SeedNext(start: int, i: nat, now: int)
      requires Valid() && i < 3
      requires nextCustomerId == start + i && SeededUpTo(customers, start, i, now)
      modifies this
      ensures Valid()
      ensures nextCustomerId == start + i + 1 && SeededUpTo(customers, start, i + 1, now)
      ensures addresses == old(addresses) && nextAddressId == old(nextAddressId)
    {
      SeedStep(customers, start, i, now);
      var id := InsertCustomer(SampleFirst[i], SampleLast[i], SamplePhone[i], now);
      assert id == Some(start + i);
      SeedExtends(old(customers), customers, start, i, now);
    }

    /** `GET /api/addresses/customer/:customerId`: the addresses whose
        `customer_id` is `cid`, in rowid order. Whether the customer
        exists is not checked. */
    function AddressesOf(cid: int): (r: seq<Address>)
      reads this
      requires Valid()
      ensures forall a :: a in r <==> a in addresses.Values && a.customerId == cid
      ensures r == [] <==> forall id :: id in addresses ==> addresses[id].customerId != cid
      ensures IdsIncrease(r)
    {
      var r := OwnedBy(AddressRows(addresses, nextAddressId), cid);
      assert r == [] <==> forall id :: id in addresses ==> addresses[id].customerId != cid by {
        if forall id :: id in addresses ==> addresses[id].customerId != cid {
          forall a | a in addresses.Values ensures a.customerId != cid {
            var id :| id in addresses && addresses[id] == a;
          }
        } else {
          var id :| id in addresses && addresses[id].customerId == cid;
          assert addresses[id] in addresses.Values;
        }
      }
      r
    }

    /** `POST /api/addresses`: all five fields are required; a
        `customer_id` with no customer row breaks the foreign key and the
        insert fails; otherwise the row gets the next id. */
    method CreateAddress(customerId: Option<int>, details: Option<string>, city: Option<string>,
                         state: Option<string>, pinCode: Option<string>, now: int)
      returns (r: Outcome<Address>)
      requires Valid()
      modifies this
      ensures Valid()
      ensures !(PresentId(customerId) && Present(details) && Present(city) && Present(state) && Present(pinCode)) ==>
        r == BadRequest(MissingField) && unchanged(this)
      ensures PresentId(customerId) && Present(details) && Present(city) && Present(state) && Present(pinCode)
              && customerId.value !in old(customers) ==>
        r == StoreError && unchanged(this)
      ensures r.Ok? ==>
        && r.value == Address(old(nextAddressId), customerId.value, details.value, city.value,
                              state.value, pinCode.value, now)
        && addresses == old(addresses)[r.value.id := r.value]
        && nextAddressId == old(nextAddressId) + 1
        && customers == old(customers) && nextCustomerId == old(nextCustomerId)
      ensures r.Ok? <==> PresentId(customerId) && Present(details) && Present(city) && Present(state)
                         && Present(pinCode) && customerId.value in old(customers)
      ensures r.Ok? ==> r.value in AddressesOf(r.value.customerId)
    {
      if !(PresentId(customerId) && Present(details) && Present(city) && Present(state) && Present(pinCode)) {
        return BadRequest(MissingField);
      }
      if customerId.value !in customers {
        return StoreError;
      }
      var a := Address(nextAddressId, customerId.value, details.value, city.value, state.value,
                       pinCode.value, now);
      addresses := addresses[nextAddressId := a];
      nextAddressId := nextAddressId + 1;
      r := Ok(a);
    }

    /** `PUT /api/addresses/:id`, with the `updated_at` assignment the
        table cannot take left out: the four text fields are required; an
        id with no row is NotFound; otherwise they take the new values and
        the owner stays. */
    method UpdateAddress(id: int, details: Option<string>, city: Option<string>,
                         state: Option<string>, pinCode: Option<string>)
      returns (r: Outcome<()>)
      requires Valid()
      modifies this
      ensures Valid()
      ensures !(Present(details) && Present(city) && Present(state) && Present(pinCode)) ==>
        r == BadRequest(MissingField) && unchanged(this)
      ensures Present(details) && Present(city) && Present(state) && Present(pinCode) && id !in old(addresses) ==>
        r == NotFound && unchanged(this)
      ensures r.Ok? <==> Present(details) && Present(city) && Present(state) && Present(pinCode)
                         && id in old(addresses)
      ensures r.Ok? ==>
        && addresses == old(addresses)[id := old(addresses)[id].(details := details.value, city := city.value,
                                                                 state := state.value, pinCode := pinCode.value)]
        && customers == old(customers)
        && nextCustomerId == old(nextCustomerId) && nextAddressId == old(nextAddressId)
    {
      if !(Present(details) && Present(city) && Present(state) && Present(pinCode)) {
        return BadRequest(MissingField);
      }
      if id !in addresses {
        return NotFound;
      }
      addresses := addresses[id := addresses[id].(details := details.value, city := city.value,
                                                  state := state.value, pinCode := pinCode.value)];
      r := Ok(());
    }

    /** `DELETE /api/addresses/:id`. */
    method DeleteAddress(id: int) returns (r: Outcome<()>)
      requires Valid()
      modifies this
      ensures Valid()
      ensures r.Ok? <==> id in old(addresses)
      ensures !r.Ok? ==> r == NotFound && unchanged(this)
      ensures r.Ok? ==>
        && addresses == old(addresses) - {id}
        && customers == old(customers)
        && nextCustomerId == old(nextCustomerId) && nextAddressId == old(nextAddressId)
    {
      if id !in addresses {
        return NotFound;
      }
      addresses := addresses - {id};
      r := Ok(());
    }

    /** `GET /api/customers` over the customers table in rowid order. */
    function ListCustomers(q: Listing.ListQuery): (r: Outcome<Listing.ListPage>)
      reads this
      requires Valid()
      requires q.page != Some(0) && q.limit != Some(0)
      ensures r.Ok? <==> Listing.Resolve(q).Some?
      ensures !r.Ok? ==> r == StoreError
      ensures r.Ok? ==> forall c :: c in r.value.rows ==> c in customers.Values
    {
      var rows := CustomerRows(customers, nextCustomerId);
      var r := Listing.List(rows, q);
      assert r.Ok? ==> forall c :: c in r.value.rows ==> c in customers.Values by {
        if r.Ok? {
          Listing.RunRowsAreSortedMatches(rows, Listing.Resolve(q).value);
        }
      }
      r
    }

    /** `total` counts the customers the search matches. */
    lemma ListTotalCountsMatches(q: Listing.ListQuery)
      requires Valid()
      requires q.page != Some(0) && q.limit != Some(0)
      requires Listing.Resolve(q).Some?
      ensures ListCustomers(q).value.total ==
              |set id | id in customers && Listing.Matches(customers[id], Listing.SearchArg(q))|
    {
      var rows := CustomerRows(customers, nextCustomerId);
      var plan := Listing.Resolve(q).value;
      assert ListCustomers(q) == Listing.List(rows, q);
      Listing.RunTotalIgnoresPage(rows, plan, plan);
      MatchingCount(customers, nextCustomerId, plan.search);
    }

    /** Addresses are listed only for customers that exist: the foreign
        key leaves none behind for an unknown or deleted customer. */
    lemma AddressesOfUnknownCustomer(cid: int)
      requires Valid()
      requires cid !in customers
      ensures AddressesOf(cid) == []
    {
    }
  }

  /** The matching rows of a scan are as many as the matching ids. */
  lemma MatchingCount(m: map<int, Customer>, next: int, search: string)
    requires CustomersKeyed(m, next)
    ensures |Listing.Filter(CustomerRows(m, next), search)| ==
            |set id | id in m && Listing.Matches(m[id], search)|
  {
    var matches := Listing.Filter(CustomerRows(m, next), search);
    DistinctCount(matches);
    MatchingIds(m, next, search, matches);
  }

  /** The ids of the matching rows of the scan are the matching ids of
      the table. */
  lemma MatchingIds(m: map<int, Customer>, next: int, search: string, matches: seq<Customer>)
    requires CustomersKeyed(m, next)
    requires matches == Listing.Filter(CustomerRows(m, next), search)
    ensures IdSet(matches) == set id | id in m && Listing.Matches(m[id], search)
  {
    forall id | id in m && Listing.Matches(m[id], search) ensures id in IdSet(matches) {
      assert m[id] in m.Values;
      assert m[id] in matches;
    }
    forall id | id in IdSet(matches) ensures id in m && Listing.Matches(m[id], search) {
      var c :| c in matches && c.id == id;
      assert c in m.Values;
      var k :| k in m && m[k] == c;
    }
  }

  /** The ids of a sequence of rows. */
  function IdSet(s: seq<Customer>): set<int> {
    set c | c in s :: c.id
  }

  /** A sequence of rows with distinct ids has as many rows as ids. */
  lemma {:induction false} DistinctCount(s: seq<Customer>)
    requires Listing.DistinctIds(s)
    ensures |s| == |IdSet(s)|
  {
    if s != [] {
      Listing.TailDistinct(s);
      DistinctCount(s[1..]);
      IdSetCons(s);
    }
  }

  /** The ids of a non-empty sequence are its head's id and, apart from
      it, the ids of its tail. */
  lemma IdSetCons(s: seq<Customer>)
    requires Listing.DistinctIds(s) && |s| > 0
    ensures IdSet(s) == {s[0].id} + IdSet(s[1..])
    ensures s[0].id !in IdSet(s[1..])
  {
    assert forall c :: c in s <==> c == s[0] || c in s[1..];
    forall c | c in s[1..] ensures c.id != s[0].id {
      var k :| 0 <= k < |s[1..]| && s[1..][k] == c;
      assert s[k + 1] == c;
    }
  }
}
