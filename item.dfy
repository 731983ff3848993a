/** The item record and the two request-body shapes of the items API. */
module Items {
  import opened Js

  /** Row identifier: the text form of the UUID the database generates. */
  type Id = string

  /** Timestamps are readings of an abstract clock that only moves forward. */
  type Timestamp = nat

  /** One row of the `items` table as the API returns it. */
  datatype Item = Item(
    id: Id,
    title: string,
    description: string,
    completed: bool,
    createdAt: Timestamp,
    updatedAt: Timestamp)

  /** The body of a create request. The declared field types are erased at
      run time, so each field is whatever JSON value the client sent, and
      `Undefined` when it sent none. */
  datatype CreateBody = CreateBody(title: JsValue, description: JsValue, completed: JsValue)

  /** The body of an update request; every field is optional. */
  datatype UpdateBody = UpdateBody(title: JsValue, description: JsValue, completed: JsValue)

  /** The three columns a client may write. */
  datatype Column = Title | Description | Completed
}
