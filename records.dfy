/** Records of the two tables, request fields and handler outcomes. */
module Records {

  datatype Option<T> = None | Some(value: T)

  /** A row of the `customers` table. `createdAt` stands for `created_at`,
      a clock reading supplied by the caller. */
  datatype Customer = Customer(id: int, firstName: string, lastName: string,
                               phoneNumber: string, createdAt: int)

  /** A row of the `addresses` table. */
  datatype Address = Address(id: int, customerId: int, details: string, city: string,
                             state: string, pinCode: string, createdAt: int)

  /** Why a request was refused with status 400. */
  datatype Reason = MissingField | DuplicatePhone

  /** What a route handler answers, in place of an HTTP status and JSON body:
      Ok is 200, BadRequest 400, NotFound 404 and StoreError 500. */
  datatype Outcome<T> = Ok(value: T) | BadRequest(reason: Reason) | NotFound | StoreError

  /** A text field of a JSON body passes the handlers' `!field` test: it is
      there and is not the empty string (the falsy strings). */
  predicate Present(field: Option<string>) {
    field.Some? && field.value != ""
  }

  /** The same test on a numeric field: absent and 0 are falsy. */
  predicate PresentId(field: Option<int>) {
    field.Some? && field.value != 0
  }
}
