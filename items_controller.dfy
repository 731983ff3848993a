/** The five handlers of backend/src/controllers/itemsController.ts, over the
    `items` table of module Store. Each handler takes the table, the route's
    `id` and the parsed body where it has them, and a `fault` flag standing
    for the database raising an error on the handler's first statement (a lost
    connection, or an id that is not UUID text); it returns the status code and
    the JSON body it sends. */
module ItemsController {
  import opened Js
  import opened Items
  import opened Store

  /** The JSON the handlers send. `NoBody` is an empty response. */
  datatype Body =
    | ItemJson(item: Item)
    | ItemListJson(items: seq<Item>)
    | ErrorJson(error: string)
    | NoBody

  datatype Response = Response(status: nat, body: Body)

  /** A validation verdict: the checked values, or the message of a 400. */
  datatype Checked<T> = Accepted(value: T) | Rejected(message: string)

  /** What a create request stores once it is validated. */
  datatype NewItem = NewItem(title: string, description: string, completed: JsValue)

  /** What the update handler sends to the database: an UPDATE statement with
      its parameter vector, or the message of a 400. */
  datatype UpdatePlan =
    | Reject(message: string)
    | Statement(sets: seq<Assignment>, values: seq<JsValue>, whereParam: nat)

  const FetchItemsFailed := "Failed to fetch items"
  const FetchItemFailed := "Failed to fetch item"
  const ItemNotFound := "Item not found"
  const TitleRequired := "Title is required and must be a non-empty string"
  const DescriptionRequired := "Description is required and must be a string"
  const CreateFailed := "Failed to create item"
  const TitleMustBeNonEmpty := "Title must be a non-empty string"
  const DescriptionMustBeString := "Description must be a string"
  const CompletedMustBeBoolean := "Completed must be a boolean"
  const NoValidFields := "No valid fields to update"
  const UpdateFailed := "Failed to update item"
  const DeleteFailed := "Failed to delete item"

  /** Every stored title is non-empty and already trimmed: the controller
      writes titles only through its checks and `trim`. */
  predicate TitlesClean(rows: map<Id, Item>)
  {
    forall id :: id in rows ==> rows[id].title != [] && Trim(rows[id].title) == rows[id].title
  }

  /** Storing the record an accepted create body yields keeps every title clean. */
  lemma CreateKeepsTitlesClean(rows: map<Id, Item>, body: CreateBody, item: Item)
    requires TitlesClean(rows) && ValidateCreate(body).Accepted?
    requires item.title == ValidateCreate(body).value.title
    ensures TitlesClean(rows[item.id := item])
  {
    TrimIdempotent(body.title.s);
  }

  /** Replacing a record by its patch under an accepted update body keeps
      every title clean, whatever the new timestamp. */
  lemma UpdateKeepsTitlesClean(rows: map<Id, Item>, id: Id, u: UpdateBody, stamp: Timestamp)
    requires TitlesClean(rows) && id in rows && UpdateError(u) == None
    ensures TitlesClean(rows[id := Patch(rows[id], u).(updatedAt := stamp)])
  {
    if u.title.Str? {
      TrimIdempotent(u.title.s);
    }
  }

  /** Every response pairs its status code with the body that code calls for:
      200 a record or a list, 201 the created record, 204 nothing, and
      400, 404 and 500 an `{ error }` object. */
  predicate StatusMatchesBody(r: Response)
  {
    if r.status == 200 then !r.body.ErrorJson?
    else if r.status == 201 then r.body.ItemJson?
    else if r.status == 204 then r.body.NoBody?
    else r.status in {400, 404, 500} && r.body.ErrorJson?
  }

  /** `res.json(items[0])`: an array with no first element sends no JSON value. */
  function FirstRow(rows: seq<Item>): (b: Body)
    ensures b.NoBody? <==> rows == []
    ensures b.ItemJson? ==> b.item == rows[0]
  {
    if rows == [] then NoBody else ItemJson(rows[0])
  }

  // ---------------------------------------------------------------- reads

  /** GET /items: every record, newest first, or a 500 when the query fails. */
  method GetAllItems(table: ItemsTable, fault: bool) returns (resp: Response)
    requires table.Valid()
    ensures StatusMatchesBody(resp)
    ensures fault ==> resp == Response(500, ErrorJson(FetchItemsFailed))
    ensures !fault ==> resp.status == 200 && resp.body.ItemListJson? && ListsTable(resp.body.items, table.rows)
  {
    var res := table.SelectAllNewestFirst(fault);
    match res
    case QueryFailed =>
      return Response(500, ErrorJson(FetchItemsFailed));
    case Rows(items) =>
      return Response(200, ItemListJson(items));
  }

  /** GET /items/:id: the record with that id, a 404 when there is none, or
      a 500 when the query fails. */
  method GetItemById(table: ItemsTable, id: Id, fault: bool) returns (resp: Response)
    requires table.Valid()
    ensures StatusMatchesBody(resp)
    ensures fault ==> resp == Response(500, ErrorJson(FetchItemFailed))
    ensures !fault && id !in table.rows ==> resp == Response(404, ErrorJson(ItemNotFound))
    ensures !fault && id in table.rows ==> resp == Response(200, ItemJson(table.rows[id]))
    ensures resp.status == 200 ==> resp.body.ItemJson? && resp.body.item.id == id
  {
    var res := table.SelectById(id, fault);
    match res
    case QueryFailed =>
      return Response(500, ErrorJson(FetchItemFailed));
    case Rows(items) =>
      if |items| == 0 {
        return Response(404, ErrorJson(ItemNotFound));
      }
      return Response(200, FirstRow(items));
  }

  // ---------------------------------------------------------------- create

  /** The title test of the create handler: falsy, not a string, or blank. */
  predicate CreateTitleRejected(v: JsValue)
  {
    !Truthy(v) || !v.Str? || |Trim(v.s)| == 0
  }

  /** The description test of the create handler: falsy (so also `""`) or not
      a string. A description of white space only passes. */
  predicate CreateDescriptionRejected(v: JsValue)
  {
    !Truthy(v) || !v.Str?
  }

  /** The checks of the create handler, title first, and the values it
      inserts: both strings trimmed, `completed` defaulted to `false` only when
      it is absent and otherwise passed on unchecked. */
  function ValidateCreate(body: CreateBody): (r: Checked<NewItem>)
    ensures r.Rejected? <==>
      CreateTitleRejected(body.title) || CreateDescriptionRejected(body.description)
    ensures CreateTitleRejected(body.title) ==> r == Rejected(TitleRequired)
    ensures !CreateTitleRejected(body.title) && CreateDescriptionRejected(body.description) ==>
      r == Rejected(DescriptionRequired)
    ensures r.Accepted? ==>
      && body.title.Str? && body.description.Str?
      && r.value.title == Trim(body.title.s) && r.value.title != []
      && r.value.description == Trim(body.description.s)
      && r.value.completed == (if body.completed.Undefined? then Bool(false) else body.completed)
  {
    var completed := if body.completed.Undefined? then Bool(false) else body.completed;
    if CreateTitleRejected(body.title) then Rejected(TitleRequired)
    else if CreateDescriptionRejected(body.description) then Rejected(DescriptionRequired)
    else Accepted(NewItem(Trim(body.title.s), Trim(body.description.s), completed))
  }

  /** POST /items. */
  method CreateItem(table: ItemsTable, body: CreateBody, newId: Id, fault: bool)
    returns (resp: Response)
    requires table.Valid()
    modifies table
    ensures table.Valid()
    ensures StatusMatchesBody(resp)
    ensures old(TitlesClean(table.rows)) ==> TitlesClean(table.rows)
    ensures match ValidateCreate(body)
      case Rejected(message) =>
        && resp == Response(400, ErrorJson(message))
        && table.rows == old(table.rows) && table.clock == old(table.clock)
      case Accepted(v) =>
        if fault || newId in old(table.rows) || |v.title| > MaxTitleLength || !v.completed.Bool? then
          && resp == Response(500, ErrorJson(CreateFailed))
          && table.rows == old(table.rows) && table.clock == old(table.clock)
        else
          && table.clock == old(table.clock) + 1
          && resp == Response(201, ItemJson(Item(newId, v.title, v.description, v.completed.b, table.clock, table.clock)))
          && table.rows == old(table.rows)[newId := resp.body.item]
  {
    match ValidateCreate(body)
    case Rejected(message) =>
      return Response(400, ErrorJson(message));
    case Accepted(v) =>
      var res := table.Insert(newId, v.title, v.description, v.completed, fault);
      match res
      case QueryFailed =>
        return Response(500, ErrorJson(CreateFailed));
      case Rows(rows) =>
        if old(TitlesClean(table.rows)) {
          CreateKeepsTitlesClean(old(table.rows), body, rows[0]);
        }
        return Response(201, ItemJson(rows[0]));
  }

  /** A create request's title passes exactly when it is a string holding
      some character other than white space. */
  lemma CreateTitleAcceptedIff(v: JsValue)
    ensures !CreateTitleRejected(v) <==>
      v.Str? && exists k :: 0 <= k < |v.s| && !IsWhiteSpace(v.s[k])
  {
    if v.Str? {
      TrimEmptyIffAllWhiteSpace(v.s);
    }
  }

  /** The created record's title neither starts nor ends with white space. */
  lemma CreatedTitleIsTrimmed(body: CreateBody)
    requires ValidateCreate(body).Accepted?
    ensures var t := ValidateCreate(body).value.title;
      !IsWhiteSpace(t[0]) && !IsWhiteSpace(t[|t| - 1])
  {
    TrimIsInnerSlice(body.title.s);
  }

  /** An empty description is refused on create, while one of white space
      only is accepted and stored as the empty string. */
  lemma CreateDescriptionQuirk(body: CreateBody)
    requires !CreateTitleRejected(body.title)
    requires body.description.Str? && AllWhiteSpace(body.description.s)
    ensures body.description.s == [] ==> ValidateCreate(body) == Rejected(DescriptionRequired)
    ensures body.description.s != [] ==>
      ValidateCreate(body).Accepted? && ValidateCreate(body).value.description == []
  {
    TrimEmptyIffAllWhiteSpace(body.description.s);
  }

  // ---------------------------------------------------------------- update

  /** The first failing field check of the update handler, in the order
      title (a non-blank string), description (a string, `""` included),
      completed (a boolean); an absent field is not checked. */
  function UpdateError(u: UpdateBody): (r: Option<string>)
    ensures r == None <==>
      && (u.title.Undefined? || (u.title.Str? && Trim(u.title.s) != []))
      && (u.description.Undefined? || u.description.Str?)
      && (u.completed.Undefined? || u.completed.Bool?)
    ensures !u.title.Undefined? && !(u.title.Str? && Trim(u.title.s) != []) ==>
      r == Some(TitleMustBeNonEmpty)
    ensures
      (&& (u.title.Undefined? || (u.title.Str? && Trim(u.title.s) != []))
       && !u.description.Undefined? && !u.description.Str?)
      ==> r == Some(DescriptionMustBeString)
    ensures
      (&& (u.title.Undefined? || (u.title.Str? && Trim(u.title.s) != []))
       && (u.description.Undefined? || u.description.Str?)
       && !u.completed.Undefined? && !u.completed.Bool?)
      ==> r == Some(CompletedMustBeBoolean)
  {
    if !u.title.Undefined? && (!u.title.Str? || |Trim(u.title.s)| == 0) then Some(TitleMustBeNonEmpty)
    else if !u.description.Undefined? && !u.description.Str? then Some(DescriptionMustBeString)
    else if !u.completed.Undefined? && !u.completed.Bool? then Some(CompletedMustBeBoolean)
    else None
  }

  /** The request carries a value for column `c`. */
  predicate IsSupplied(u: UpdateBody, c: Column)
  {
    match c
    case Title => !u.title.Undefined?
    case Description => !u.description.Undefined?
    case Completed => !u.completed.Undefined?
  }

  /** The columns an update request supplies, in the order the handler visits them. */
  function SuppliedColumns(u: UpdateBody): seq<Column>
  {
    Contribution(u, Title) + Contribution(u, Description) + Contribution(u, Completed)
  }

  /** The supplied columns are exactly those the request carries, each once. */
  lemma SuppliedColumnsExact(u: UpdateBody)
    ensures forall c :: c in SuppliedColumns(u) <==> IsSupplied(u, c)
    ensures forall i, j :: 0 <= i < j < |SuppliedColumns(u)| ==> SuppliedColumns(u)[i] != SuppliedColumns(u)[j]
  {
  }

  /** The parameter value the handler binds for a supplied column. */
  function ColumnValue(u: UpdateBody, c: Column): JsValue
  {
    match c
    case Title => if u.title.Str? then Str(Trim(u.title.s)) else u.title
    case Description => if u.description.Str? then Str(Trim(u.description.s)) else u.description
    case Completed => u.completed
  }

  /** The SET list assigning the columns `cols`, in order, from consecutive
      placeholders starting at `$first`. */
  function Assignments(cols: seq<Column>, first: nat): (sets: seq<Assignment>)
    ensures |sets| == |cols|
    decreases |cols|
  {
    if cols == [] then [] else [Assignment(cols[0], first)] + Assignments(cols[1..], first + 1)
  }

  /** The i-th entry of the SET list assigns the i-th column from `$(first+i)`. */
  lemma {:induction false} AssignmentsAt(cols: seq<Column>, first: nat)
    ensures forall i :: 0 <= i < |cols| ==> Assignments(cols, first)[i] == Assignment(cols[i], first + i)
    decreases |cols|
  {
    if cols != [] {
      AssignmentsAt(cols[1..], first + 1);
    }
  }

  /** The parameter values bound for the columns `cols`, in order. */
  function BoundValues(u: UpdateBody, cols: seq<Column>): (values: seq<JsValue>)
    ensures |values| == |cols|
    decreases |cols|
  {
    if cols == [] then [] else [ColumnValue(u, cols[0])] + BoundValues(u, cols[1..])
  }

  /** The i-th bound value is the value of the i-th column. */
  lemma {:induction false} BoundValuesAt(u: UpdateBody, cols: seq<Column>)
    ensures forall i :: 0 <= i < |cols| ==> BoundValues(u, cols)[i] == ColumnValue(u, cols[i])
    decreases |cols|
  {
    if cols != [] {
      BoundValuesAt(u, cols[1..]);
    }
  }

  /** Supplying one more column appends one assignment, from the next
      placeholder, and one bound value. */
  lemma {:induction false} AppendSupplied(u: UpdateBody, cols: seq<Column>, c: Column, first: nat)
    ensures Assignments(cols + [c], first) == Assignments(cols, first) + [Assignment(c, first + |cols|)]
    ensures BoundValues(u, cols + [c]) == BoundValues(u, cols) + [ColumnValue(u, c)]
    decreases |cols|
  {
    if cols != [] {
      assert (cols + [c])[1..] == cols[1..] + [c];
      AppendSupplied(u, cols[1..], c, first + 1);
    }
  }

  /** The columns a request contributes at the check of column `c`: that
      column when the request carries it, nothing otherwise. */
  function Contribution(u: UpdateBody, c: Column): (cols: seq<Column>)
    ensures cols == [] || cols == [c]
  {
    if IsSupplied(u, c) then [c] else []
  }

  /** One field step of the builder, on the columns visited so far: it adds
      the column's assignment and value when the request carries it. */
  lemma VisitColumn(u: UpdateBody, cols: seq<Column>, c: Column)
    ensures Assignments(cols + Contribution(u, c), 1) ==
      Assignments(cols, 1) + (if IsSupplied(u, c) then [Assignment(c, |cols| + 1)] else [])
    ensures BoundValues(u, cols + Contribution(u, c)) ==
      BoundValues(u, cols) + (if IsSupplied(u, c) then [ColumnValue(u, c)] else [])
  {
    if IsSupplied(u, c) {
      assert Contribution(u, c) == [c];
      AppendSupplied(u, cols, c, 1);
    } else {
      assert Contribution(u, c) == [];
      assert cols + [] == cols;
    }
  }

  /** The statement the update handler builds, stated without its counter:
      the i-th supplied column is assigned from `$(i+1)`, the parameter vector
      holds the supplied values in that order followed by the id, and the
      WHERE clause reads the last parameter. */
  function PlanFor(u: UpdateBody, id: Id): UpdatePlan
  {
    match UpdateError(u)
    case Some(message) => Reject(message)
    case None =>
      var cols := SuppliedColumns(u);
      if cols == [] then Reject(NoValidFields)
      else Statement(Assignments(cols, 1), BoundValues(u, cols) + [Str(id)], |cols| + 1)
  }

  /** The dynamic UPDATE builder of the update handler: field checks
      interleaved with pushes onto the SET list and the parameter vector and a
      placeholder counter that starts at 1. */
  method BuildUpdate(u: UpdateBody, id: Id) returns (plan: UpdatePlan)
    ensures plan == PlanFor(u, id)
  {
    var updateFields: seq<Assignment> := [];
    var values: seq<JsValue> := [];
    var paramCount: nat := 1;

    if !u.title.Undefined? {
      if !u.title.Str? || |Trim(u.title.s)| == 0 {
        return Reject(TitleMustBeNonEmpty);
      }
      updateFields := updateFields + [Assignment(Title, paramCount)];
      paramCount := paramCount + 1;
      values := values + [Str(Trim(u.title.s))];
    }
    // the columns visited so far; the two lists and the counter follow them
    ghost var visited := Contribution(u, Title);
    VisitColumn(u, [], Title);
    assert updateFields == Assignments(visited, 1) && values == BoundValues(u, visited);
    assert paramCount == |visited| + 1;

    if !u.description.Undefined? {
      if !u.description.Str? {
        return Reject(DescriptionMustBeString);
      }
      updateFields := updateFields + [Assignment(Description, paramCount)];
      paramCount := paramCount + 1;
      values := values + [Str(Trim(u.description.s))];
    }
    VisitColumn(u, visited, Description);
    visited := visited + Contribution(u, Description);
    assert updateFields == Assignments(visited, 1) && values == BoundValues(u, visited);
    assert paramCount == |visited| + 1;

    if !u.completed.Undefined? {
      if !u.completed.Bool? {
        return Reject(CompletedMustBeBoolean);
      }
      updateFields := updateFields + [Assignment(Completed, paramCount)];
      paramCount := paramCount + 1;
      values := values + [u.completed];
    }
    VisitColumn(u, visited, Completed);
    visited := visited + Contribution(u, Completed);
    assert updateFields == Assignments(visited, 1) && values == BoundValues(u, visited);
    assert paramCount == |visited| + 1;

    if |updateFields| == 0 {
      return Reject(NoValidFields);
    }
    values := values + [Str(id)];
    return Statement(updateFields, values, paramCount);
  }

  /** The stored value of one column of a record, as a JSON value. */
  function FieldOf(item: Item, c: Column): JsValue
  {
    match c
    case Title => Str(item.title)
    case Description => Str(item.description)
    case Completed => Bool(item.completed)
  }

  /** The record an accepted update request asks for: each supplied field
      replaced by its (trimmed) value, everything else as it was. */
  function Patch(item: Item, u: UpdateBody): Item
    requires UpdateError(u) == None
  {
    item.(
      title := if u.title.Str? then Trim(u.title.s) else item.title,
      description := if u.description.Str? then Trim(u.description.s) else item.description,
      completed := if u.completed.Bool? then u.completed.b else item.completed)
  }

  /** A trimmed title that the `title VARCHAR(255)` column refuses. */
  predicate TitleTooLong(u: UpdateBody)
  {
    u.title.Str? && |Trim(u.title.s)| > MaxTitleLength
  }

  /** Only the supplied fields of a record change, each to the value bound for
      it; the id and both timestamps are left alone. */
  lemma PatchChangesOnlySupplied(item: Item, u: UpdateBody)
    requires UpdateError(u) == None
    ensures forall c :: c in SuppliedColumns(u) ==> FieldOf(Patch(item, u), c) == ColumnValue(u, c)
    ensures forall c :: c !in SuppliedColumns(u) ==> FieldOf(Patch(item, u), c) == FieldOf(item, c)
    ensures Patch(item, u).id == item.id
    ensures Patch(item, u).createdAt == item.createdAt && Patch(item, u).updatedAt == item.updatedAt
  {
    SuppliedColumnsExact(u);
    forall c | c in SuppliedColumns(u)
      ensures FieldOf(Patch(item, u), c) == ColumnValue(u, c)
    {
      match c
      case Title =>
      case Description =>
      case Completed =>
    }
  }

  /** The statement the builder produces is one the database accepts: its SET
      list names each column once, and its placeholders are exactly `$1` to
      `$(k+1)`, the last one bound to the id. */
  lemma PlanIsWellFormed(u: UpdateBody, id: Id)
    requires PlanFor(u, id).Statement?
    ensures var p := PlanFor(u, id);
      UpdateStatementOk(p.sets, p.values, p.whereParam) && p.values[p.whereParam - 1] == Str(id)
  {
    var p := PlanFor(u, id);
    var k := |SuppliedColumns(u)|;
    AssignmentsAt(SuppliedColumns(u), 1);
    assert |p.sets| == k && |p.values| == k + 1;
    forall p' | p' in UsedParams(p.sets) + {p.whereParam} ensures p' in ParamRange(k + 1) { }
    forall p' | p' in ParamRange(k + 1) ensures p' in UsedParams(p.sets) + {p.whereParam} {
      if p' <= k {
        assert p.sets[p' - 1].param == p';
      }
    }
  }

  /** A record with the columns `cols` overwritten by the values an accepted
      update request supplies for them. */
  function Overwrite(item: Item, u: UpdateBody, cols: seq<Column>): Item
  {
    item.(
      title := if Title in cols && u.title.Str? then Trim(u.title.s) else item.title,
      description := if Description in cols && u.description.Str? then Trim(u.description.s) else item.description,
      completed := if Completed in cols && u.completed.Bool? then u.completed.b else item.completed)
  }

  /** Running the SET list built for `cols`, with placeholders from `$first`
      on bound to the values of those columns, overwrites exactly those
      columns, unless one of them is a title too long for its column. */
  lemma {:induction false} ApplyBuiltAssignments(
    item: Item, u: UpdateBody, cols: seq<Column>, first: nat, values: seq<JsValue>)
    requires UpdateError(u) == None
    requires forall c :: c in cols ==> IsSupplied(u, c)
    requires first >= 1 && first - 1 + |cols| <= |values|
    requires values[first - 1..first - 1 + |cols|] == BoundValues(u, cols)
    ensures ApplyAssignments(item, Assignments(cols, first), values) ==
      if TitleTooLong(u) && Title in cols then None else Some(Overwrite(item, u, cols))
    decreases |cols|
  {
    if cols == [] {
      assert Overwrite(item, u, cols) == item;
    } else {
      var c, rest := cols[0], cols[1..];
      var sets := Assignments(cols, first);
      assert sets[0] == Assignment(c, first) && sets[1..] == Assignments(rest, first + 1);
      assert values[first - 1] == ColumnValue(u, c) by {
        assert values[first - 1] == values[first - 1..first - 1 + |cols|][0];
      }
      assert values[first..first + |rest|] == BoundValues(u, rest) by {
        assert values[first..first + |rest|] == values[first - 1..first - 1 + |cols|][1..];
      }
      assert Title in cols <==> c == Title || Title in rest;
      match AssignColumn(item, c, ColumnValue(u, c))
      case None =>
        assert IsSupplied(u, c) by { assert c in cols; }
      case Some(next) =>
        ApplyBuiltAssignments(next, u, rest, first + 1, values);
        assert Overwrite(next, u, rest) == Overwrite(item, u, cols);
    }
  }

  /** Running the built statement on a record gives the patched record, unless
      the trimmed title is too long for its column. */
  lemma PlanAppliesPatch(item: Item, u: UpdateBody, id: Id)
    requires PlanFor(u, id).Statement?
    ensures var p := PlanFor(u, id);
      ApplyAssignments(item, p.sets, p.values) == if TitleTooLong(u) then None else Some(Patch(item, u))
  {
    var cols := SuppliedColumns(u);
    var p := PlanFor(u, id);
    SuppliedColumnsExact(u);
    assert p.values[0..|cols|] == BoundValues(u, cols);
    ApplyBuiltAssignments(item, u, cols, 1, p.values);
    assert TitleTooLong(u) ==> Title in cols;
    assert Overwrite(item, u, cols) == Patch(item, u);
  }

  /** PUT /items/:id. The record must exist before any field is checked; an
      accepted request changes exactly the supplied fields, and the trigger
      stamps the record with a new, later `updated_at`. */
  method UpdateItem(table: ItemsTable, id: Id, u: UpdateBody, fault: bool) returns (resp: Response)
    requires table.Valid()
    modifies table
    ensures table.Valid()
    ensures StatusMatchesBody(resp)
    ensures old(TitlesClean(table.rows)) ==> TitlesClean(table.rows)
    ensures fault || id !in old(table.rows) || PlanFor(u, id).Reject? || TitleTooLong(u) ==>
      table.rows == old(table.rows) && table.clock == old(table.clock)
    ensures fault ==> resp == Response(500, ErrorJson(UpdateFailed))
    ensures !fault && id !in old(table.rows) ==> resp == Response(404, ErrorJson(ItemNotFound))
    ensures !fault && id in old(table.rows) ==>
      match PlanFor(u, id)
      case Reject(message) => resp == Response(400, ErrorJson(message))
      case Statement(_, _, _) =>
        if TitleTooLong(u) then resp == Response(500, ErrorJson(UpdateFailed))
        else
          && table.clock == old(table.clock) + 1
          && table.rows == old(table.rows)[id := Patch(old(table.rows)[id], u).(updatedAt := table.clock)]
          && resp == Response(200, ItemJson(table.rows[id]))
          && table.rows[id].updatedAt > old(table.rows)[id].updatedAt
  {
    var existing := table.SelectById(id, fault);
    if existing.QueryFailed? {
      return Response(500, ErrorJson(UpdateFailed));
    }
    if |existing.rows| == 0 {
      return Response(404, ErrorJson(ItemNotFound));
    }
    var plan := BuildUpdate(u, id);
    match plan
    case Reject(message) =>
      return Response(400, ErrorJson(message));
    case Statement(sets, values, whereParam) =>
      PlanIsWellFormed(u, id);
      PlanAppliesPatch(table.rows[id], u, id);
      var res := table.UpdateWhereId(sets, values, whereParam, false);
      match res
      case QueryFailed =>
        return Response(500, ErrorJson(UpdateFailed));
      case Rows(items) =>
        if old(TitlesClean(table.rows)) {
          UpdateKeepsTitlesClean(old(table.rows), id, u, table.clock);
        }
        return Response(200, FirstRow(items));
  }

  // ---------------------------------------------------------------- delete

  /** DELETE /items/:id: removes the record and answers 204, or 404 when no
      record has that id, or 500 when the statement fails. */
  method DeleteItem(table: ItemsTable, id: Id, fault: bool) returns (resp: Response)
    requires table.Valid()
    modifies table
    ensures table.Valid() && table.clock == old(table.clock)
    ensures StatusMatchesBody(resp)
    ensures old(TitlesClean(table.rows)) ==> TitlesClean(table.rows)
    ensures fault ==> resp == Response(500, ErrorJson(DeleteFailed)) && table.rows == old(table.rows)
    ensures !fault && id !in old(table.rows) ==>
      resp == Response(404, ErrorJson(ItemNotFound)) && table.rows == old(table.rows)
    ensures !fault && id in old(table.rows) ==>
      resp == Response(204, NoBody) && table.rows == old(table.rows) - {id}
  {
    var res := table.DeleteWhereId(id, fault);
    match res
    case QueryFailed =>
      return Response(500, ErrorJson(DeleteFailed));
    case Rows(items) =>
      if |items| == 0 {
        return Response(404, ErrorJson(ItemNotFound));
      }
      return Response(204, NoBody);
  }

  // ---------------------------------------------------------------- scenarios

  /** Deleting a record twice: the first request removes it, the second finds
      nothing to remove. */
  method DeleteTwice(table: ItemsTable, id: Id) returns (first: Response, second: Response)
    requires table.Valid() && id in table.rows
    modifies table
    ensures first == Response(204, NoBody) && second == Response(404, ErrorJson(ItemNotFound))
    ensures table.rows == old(table.rows) - {id}
  {
    first := DeleteItem(table, id, false);
    second := DeleteItem(table, id, false);
  }

  /** A record created and then fetched by its id comes back as created. */
  method CreateThenGet(table: ItemsTable, body: CreateBody, newId: Id)
    returns (created: Response, fetched: Response)
    requires table.Valid()
    modifies table
    ensures created.status == 201 ==> fetched == Response(200, created.body)
    ensures created.status != 201 ==> table.rows == old(table.rows)
  {
    created := CreateItem(table, body, newId, false);
    fetched := GetItemById(table, newId, false);
  }
}
