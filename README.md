# Items API: controller and error handler

This project models the server side of a small to-do application. It covers the REST
controller for the `items` table and the two Express middlewares that turn thrown errors and
unmatched routes into JSON replies. Each item has a title, a description and a `completed` flag.

- `js.dfy` (module `Js`) holds the JavaScript notions the handlers rely on:
  - request fields as dynamically typed JSON values, where `Undefined` means the client sent no such field;
  - truthiness, and the `||` operator built on it;
  - `String.prototype.trim`, with the ECMAScript white-space set.
- `item.dfy` (module `Items`) holds the item record and the bodies of create and update requests.
- `store.dfy` (module `Store`) models the `items` table as the class `ItemsTable`.
  - It is a map from id to record, plus a clock that each successful INSERT and UPDATE moves forward; a DELETE leaves it unchanged.
  - It has one method per SQL statement the controller sends.
  - It follows the schema's rules:
    - the id is generated and unique;
    - `title` holds at most 255 characters;
    - `completed` is a boolean column;
    - `created_at` keeps its insertion time;
    - an UPDATE trigger stamps `updated_at`.
  - An UPDATE is represented by its SET list and parameter vector, not by SQL text. The store
    refuses any SET list that names a column twice, and any placeholder numbering other than
    exactly `$1..$n`.
- `items_controller.dfy` (module `ItemsController`) models the five handlers: list, get, create, update and delete.
  - Each takes the table and returns a status code and a JSON body.
  - Each has a `fault` flag that stands for the first statement raising a database error.
  - The update handler's query builder is `BuildUpdate`. It is straight-line code: three field
    checks that push onto the SET list and the parameter vector and bump a placeholder counter.
    It is proved equal to the declarative plan `PlanFor`.
  - That plan is proved well formed for the database (`PlanIsWellFormed`). Running it is proved
    to change exactly the supplied fields (`PlanAppliesPatch`).
- `error_handler.dfy` (module `ErrorHandler`) models the error handler and the not-found handler as pure functions.

Some inputs are external and are modelled as parameters:
- The id of a new row (`newId`).
- The `NODE_ENV` environment variable (`nodeEnv`).
- A database failure on a handler's first statement (`fault`). This stands for a lost
  connection, or an id that is not UUID text.

## Model

| member | source | states |
|---|---|---|
| `Js.Truthy` | backend/src/middleware/errorHandler.ts:19-20 | ECMAScript ToBoolean: a value is falsy exactly when it is `undefined`, `null`, `false`, `0` or the empty string |
| `Js.Or` | backend/src/middleware/errorHandler.ts:19-20 | the JavaScript or-operator gives its left operand when that is truthy, and its right operand otherwise |
| `Js.TrimStartCutsLeadingSpace` | backend/src/controllers/itemsController.ts:50 | `trimStart` keeps a suffix, removes only white space, and what it keeps does not start with white space |
| `Js.TrimEndCutsTrailingSpace` | backend/src/controllers/itemsController.ts:50 | `trimEnd` keeps a prefix, removes only white space, and what it keeps does not end with white space |
| `Js.TrimIsInnerSlice` | backend/src/controllers/itemsController.ts:62 | `trim` keeps an inner slice of its input, with only white space cut off on either side, and the slice has no white space at either end |
| `Js.TrimEmptyIffAllWhiteSpace` | backend/src/controllers/itemsController.ts:50 | `s.trim().length === 0` holds exactly when every character of `s` is white space |
| `Js.TrimIdempotent` | backend/src/controllers/itemsController.ts:102 | trimming an already trimmed string changes nothing |
| `Store.BooleanColumn` | backend/src/config/database.ts:57 | the model's boolean column accepts a parameter exactly when it is a JSON boolean, and stores that boolean; the wider set of values PostgreSQL coerces is left out |
| `Store.AssignColumn` | backend/src/config/database.ts:55-57 | storing one value into one column keeps the id and both timestamps, and never produces a title longer than 255 characters |
| `Store.ApplyAssignments` | backend/src/config/database.ts:53-60 | running a SET list keeps the id and the timestamps, and keeps the title within 255 characters |
| `Store.InsertNewestFirst` | backend/src/controllers/itemsController.ts:11 | inserting a row into a newest-first listing keeps it newest first and adds exactly that row |
| `Store.ListingStep` | backend/src/controllers/itemsController.ts:10-12 | listing one more row keeps a partial listing newest first, with each listed row once |
| `Store.ListingComplete` | backend/src/controllers/itemsController.ts:10-12 | once no row is pending, the listing holds every row of the table exactly once, newest first |
| `Store.ItemsTable.constructor` | backend/src/config/database.ts:53-60 | a new table is empty and satisfies the row invariant |
| `Store.ItemsTable.SelectAllNewestFirst` | backend/src/controllers/itemsController.ts:10-12 | without a fault, the result lists every row exactly once, ordered by `created_at` descending |
| `Store.ItemsTable.SelectById` | backend/src/controllers/itemsController.ts:26-29 | the result is the row with that id, or no row when there is none |
| `Store.ItemsTable.Insert` | backend/src/controllers/itemsController.ts:60-63 | the insert fails exactly on a fault, a duplicate key, an overlong title or a non-boolean `completed`, and then nothing changes; otherwise it adds one row stamped with a new clock reading and returns it |
| `Store.ItemsTable.UpdateWhereId` | backend/src/config/database.ts:62-75 | a malformed statement or a fault changes nothing; an unknown id returns no row; otherwise the SET list is applied, `updated_at` becomes a new clock reading, and the row is returned |
| `Store.ItemsTable.DeleteWhereId` | backend/src/controllers/itemsController.ts:146-149 | the row with that id is removed and returned, and nothing else changes |
| `ItemsController.FirstRow` | backend/src/controllers/itemsController.ts:132 | `res.json(items[0])` sends the first row, and no body when there is no row |
| `ItemsController.GetAllItems` | backend/src/controllers/itemsController.ts:8-18 | 200 with a newest-first listing of the whole table, or 500 "Failed to fetch items" |
| `ItemsController.GetItemById` | backend/src/controllers/itemsController.ts:23-41 | 200 with the record whose id was asked for, 404 "Item not found" when there is none, 500 on a fault |
| `ItemsController.ValidateCreate` | backend/src/controllers/itemsController.ts:48-58 | the title check comes first and the description check second, each with its own message; an accepted body yields both strings trimmed, a non-empty title, and `completed` defaulted to `false` only when it is absent |
| `ItemsController.CreateItem` | backend/src/controllers/itemsController.ts:46-70 | 400 with nothing written on a rejected body; 500 with nothing written when the insert fails; otherwise 201 with the new record, and the table gains exactly that record; every stored title stays non-empty and trimmed |
| `ItemsController.CreateTitleAcceptedIff` | backend/src/controllers/itemsController.ts:50-53 | a create title passes exactly when it is a string holding a character other than white space |
| `ItemsController.CreatedTitleIsTrimmed` | backend/src/controllers/itemsController.ts:62 | a created title neither starts nor ends with white space |
| `ItemsController.CreateDescriptionQuirk` | backend/src/controllers/itemsController.ts:55-58 | an empty description is refused on create, while a description of white space only is accepted and stored as the empty string |
| `ItemsController.CreateKeepsTitlesClean` | backend/src/controllers/itemsController.ts:50-62 | storing a record whose title an accepted create body yields keeps every stored title non-empty and trimmed |
| `ItemsController.UpdateKeepsTitlesClean` | backend/src/controllers/itemsController.ts:96-102 | replacing a record by its patch under an accepted update body keeps every stored title non-empty and trimmed |
| `ItemsController.UpdateError` | backend/src/controllers/itemsController.ts:96-121 | an update body passes exactly when each present field has the right type: the title a non-blank string, the description any string, `completed` a boolean; otherwise the first failing check, in the order title, description, completed, gives its own message |
| `ItemsController.SuppliedColumnsExact` | backend/src/controllers/itemsController.ts:96-121 | the columns the builder visits are exactly the fields the body carries, each once |
| `ItemsController.AssignmentsAt` | backend/src/controllers/itemsController.ts:101-119 | the i-th SET entry assigns the i-th supplied column from placeholder `$(first+i)` |
| `ItemsController.BoundValuesAt` | backend/src/controllers/itemsController.ts:102-120 | the i-th parameter value is the (trimmed) value of the i-th supplied column |
| `ItemsController.AppendSupplied` | backend/src/controllers/itemsController.ts:101-102 | pushing one more column adds one SET entry, with the next placeholder, and one parameter value |
| `ItemsController.VisitColumn` | backend/src/controllers/itemsController.ts:96-121 | each field step adds that column's SET entry and value exactly when the body carries the field |
| `ItemsController.BuildUpdate` | backend/src/controllers/itemsController.ts:92-129 | the builder returns the plan `PlanFor`: the first failing field check's message; "No valid fields to update" when no field is present; otherwise the i-th supplied column from `$i`, the values in field order followed by the id, and the WHERE clause on `$(k+1)` |
| `ItemsController.PatchChangesOnlySupplied` | backend/src/controllers/itemsController.ts:96-121 | the patched record differs from the old one only in the supplied fields, each set to its bound value; the id and the timestamps stay |
| `ItemsController.PlanIsWellFormed` | backend/src/controllers/itemsController.ts:123-129 | the built statement names each column once and uses exactly the placeholders `$1..$(k+1)`, and the last one holds the id |
| `ItemsController.ApplyBuiltAssignments` | backend/src/controllers/itemsController.ts:101-119 | running the SET list built for some columns overwrites exactly those columns, unless the title is too long for its column |
| `ItemsController.PlanAppliesPatch` | backend/src/controllers/itemsController.ts:128-131 | running the built statement on the stored record gives the patched record, or a database error when the trimmed title exceeds 255 characters |
| `ItemsController.UpdateItem` | backend/src/controllers/itemsController.ts:75-137 | 404 before any field is checked when the id is unknown; 400 with the first failing check's message; 500 on a fault or an overlong title; in all of these nothing changes. Otherwise 200 with the patched record, which replaces the stored one with a strictly later `updated_at`; every stored title stays non-empty and trimmed |
| `ItemsController.DeleteItem` | backend/src/controllers/itemsController.ts:142-161 | 204 with no body and the record removed; 404 and nothing removed when the id is unknown; 500 on a fault; every stored title stays non-empty and trimmed |
| `ItemsController.DeleteTwice` | backend/src/controllers/itemsController.ts:146-156 | deleting the same record twice answers 204 and then 404 |
| `ItemsController.CreateThenGet` | backend/src/controllers/itemsController.ts:60-65 | a record created with 201 is then fetched by its id exactly as it was returned |
| `ErrorHandler.PickStatus` | backend/src/middleware/errorHandler.ts:19 | the status is `err.status` if truthy, else `err.statusCode` if truthy, else 500, and always truthy |
| `ErrorHandler.PickMessage` | backend/src/middleware/errorHandler.ts:20 | the message is `err.message` unless it is falsy, else "Internal Server Error" |
| `ErrorHandler.HandleError` | backend/src/middleware/errorHandler.ts:11-26 | the reply carries the picked status and message, and a `stack` property exactly when `NODE_ENV` is "development", holding the error's own stack |
| `ErrorHandler.NotFoundHandler` | backend/src/middleware/errorHandler.ts:31-33 | whatever the request, the reply is 404 with `{ error: "Route not found" }` and no stack |
| `ErrorHandler.ZeroStatusIsAbsent` | backend/src/middleware/errorHandler.ts:19 | a status of 0 gives the same reply as no status, and with both codes 0 the status is 500 |
| `ErrorHandler.EmptyMessageIsAbsent` | backend/src/middleware/errorHandler.ts:20 | an empty message is replaced by "Internal Server Error" |
| `ErrorHandler.StackNeverLeaksOutsideDevelopment` | backend/src/middleware/errorHandler.ts:22-25 | outside development, two errors that differ only in their stack get the same reply |
| `ErrorHandler.NotFoundAgreesWithErrorHandler` | backend/src/middleware/errorHandler.ts:31-33 | the not-found reply equals the error handler's reply, outside development, to an error with status 404 and message "Route not found" |

## Left out

- `Store.ItemsTable.Insert`: only a JSON boolean is accepted for `completed`, and anything else is
  a database error (500).
  - PostgreSQL also parses boolean text such as `'yes'` or `'1'`.
  - It stores a `null` in the nullable column.
  - Those paths of create are not modelled, and the stored `completed` is always a boolean.
- `Store.BooleanColumn`: the model accepts only a JSON boolean for the nullable `completed BOOLEAN`
  column. PostgreSQL also stores `null`, and parses boolean text such as `'t'`, `'yes'` or `'on'`.
  The `pg` driver sends JavaScript numbers as text, so `0` and `1` are accepted too. A create
  whose `completed` is one of these gets 201 from the server and 500 in the model.
- `ItemsController.GetItemById`: ids are compared as exact strings, so the model assumes each
  request carries the canonical (lower-case, hyphenated) UUID text the database returns.
  - PostgreSQL's `uuid` type also matches the same UUID written in upper case, inside braces or
    without hyphens, and answers with the canonical form.
  - For such an id the server answers 200 with a record whose `id` differs from the text
    requested. The model answers 404 instead.
  - The same holds for `ItemsController.UpdateItem` and `ItemsController.DeleteItem`.
- `Store.AssignColumn`: the model does not capture PostgreSQL silently cutting excess trailing
  spaces from an overlong `VARCHAR` value. The controller only stores trimmed titles, which never
  end in a space.
- Database failures are modelled only on a handler's first statement (the `fault` flag). The model
  does not cover:
  - failures of the UPDATE that follows the existence check, other than an overlong title;
  - a malformed UUID being told apart from a lost connection.
- Concurrency between requests is not modelled. Without it, the model does not cover:
  - a record deleted between the update handler's two statements;
  - the 200 reply with no body that this race produces.
- The database clock is an abstract counter: each successful INSERT and UPDATE reads a new, larger
  value, and a DELETE leaves it unchanged.
  Real timestamps are not modelled, and neither are equal timestamps within one transaction.
- The order of rows with equal `created_at` in a listing is left open, as in SQL.
- String lengths and `trim` are modelled over Unicode characters, not JavaScript's UTF-16 code
  units. All white space `trim` removes lies in the Basic Multilingual Plane. A title with
  characters outside it is measured differently by the two.
- JSON numbers are modelled as integers. NaN and fractional values are not modelled, though they
  only matter to the truthiness of a status code.
- `ErrorHandler.HandleError`: what Express does after the reply is built is not modelled:
  - how it treats a status that is not a valid HTTP code;
  - JSON serialization dropping a `stack` whose value is `undefined`.
- Logging (`console.error`), the connection pool, SQL text, routing and server start-up are not
  part of this model.
