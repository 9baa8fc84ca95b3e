/** The columns the two `CREATE TABLE` statements declare, and the
    columns the two `UPDATE` statements assign. SQLite refuses to prepare
    a statement that names a column its table does not have, so the
    handler answers with status 500 before any row is looked at. */
module Schema {
  import opened Records

  const CustomerColumns: seq<string> :=
    ["id", "first_name", "last_name", "phone_number", "created_at"]

  const AddressColumns: seq<string> :=
    ["id", "customer_id", "address_details", "city", "state", "pin_code", "created_at"]

  /** The `SET` list of `PUT /api/customers/:id` as written. */
  const CustomerUpdateAsWritten: seq<string> :=
    ["first_name", "last_name", "phone_number", "updated_at"]

  /** The `SET` list of `PUT /api/addresses/:id` as written. */
  const AddressUpdateAsWritten: seq<string> :=
    ["address_details", "city", "state", "pin_code", "updated_at"]

  /** The `SET` lists with the undeclared column left out, as the
      corrected handlers in the store run them. */
  const CustomerUpdateAssigned: seq<string> := ["first_name", "last_name", "phone_number"]
  const AddressUpdateAssigned: seq<string> := ["address_details", "city", "state", "pin_code"]

  /** An UPDATE of `table` that assigns `columns` can be prepared: every
      assigned column is declared. */
  predicate Prepares(table: seq<string>, columns: seq<string>) {
    forall c :: c in columns ==> c in table
  }

  /** `updated_at` is not a column of either table. */
  lemma UpdatedAtUndeclared()
    ensures "updated_at" !in CustomerColumns
    ensures "updated_at" !in AddressColumns
  {
    var u := "updated_at";
    assert |u| == 10;
    assert u[0] == 'u';
    assert forall c :: c in CustomerColumns ==> |c| != 10 || c[0] != 'u';
    assert forall c :: c in AddressColumns ==> |c| != 10 || c[0] != 'u';
  }

  /** Both UPDATE statements, as written, name `updated_at`, so neither
      can be prepared; the corrected ones can. */
  lemma UpdatesAsWrittenNeverPrepare()
    ensures !Prepares(CustomerColumns, CustomerUpdateAsWritten)
    ensures !Prepares(AddressColumns, AddressUpdateAsWritten)
    ensures Prepares(CustomerColumns, CustomerUpdateAssigned)
    ensures Prepares(AddressColumns, AddressUpdateAssigned)
  {
    UpdatedAtUndeclared();
    assert CustomerUpdateAsWritten[3] == "updated_at";
    assert AddressUpdateAsWritten[4] == "updated_at";
    assert CustomerUpdateAssigned[0] == CustomerColumns[1];
    assert CustomerUpdateAssigned[1] == CustomerColumns[2];
    assert CustomerUpdateAssigned[2] == CustomerColumns[3];
    assert AddressUpdateAssigned[0] == AddressColumns[2];
    assert AddressUpdateAssigned[1] == AddressColumns[3];
    assert AddressUpdateAssigned[2] == AddressColumns[4];
    assert AddressUpdateAssigned[3] == AddressColumns[5];
  }

  /** `PUT /api/customers/:id` as written: the body check, then the
      statement. A statement that prepares goes on to the table (Ok here
      stands for that hand-over); one that does not is a 500. */
  function UpdateCustomerAsWritten(first: Option<string>, last: Option<string>, phone: Option<string>)
    : (r: Outcome<()>)
    ensures r == BadRequest(MissingField) <==> !(Present(first) && Present(last) && Present(phone))
    ensures r != BadRequest(MissingField) ==> r == StoreError
  {
    if !(Present(first) && Present(last) && Present(phone)) then BadRequest(MissingField)
    else
      UpdatesAsWrittenNeverPrepare();
      if Prepares(CustomerColumns, CustomerUpdateAsWritten) then Ok(()) else StoreError
  }

  /** `PUT /api/addresses/:id` as written. */
  function UpdateAddressAsWritten(details: Option<string>, city: Option<string>, state: Option<string>,
                                  pinCode: Option<string>)
    : (r: Outcome<()>)
    ensures r == BadRequest(MissingField) <==>
            !(Present(details) && Present(city) && Present(state) && Present(pinCode))
    ensures r != BadRequest(MissingField) ==> r == StoreError
  {
    if !(Present(details) && Present(city) && Present(state) && Present(pinCode)) then BadRequest(MissingField)
    else
      UpdatesAsWrittenNeverPrepare();
      if Prepares(AddressColumns, AddressUpdateAsWritten) then Ok(()) else StoreError
  }
}
