/** The `items` table as the schema in backend/src/config/database.ts defines
    it, seen through the five statements the controller sends: a primary key
    generated by the database, a `title` of at most 255 characters, a boolean
    `completed` column, and a trigger that stamps `updated_at` on every UPDATE
    while `created_at` keeps its insertion time. The database clock is an
    abstract counter that each successful INSERT and UPDATE moves forward; a
    DELETE reads no timestamp and leaves it unchanged. */
module Store {
  import opened Js
  import opened Items

  /** `title VARCHAR(255)`. */
  const MaxTitleLength: nat := 255

  /** One `column = $param` entry of an UPDATE's SET list. */
  datatype Assignment = Assignment(column: Column, param: nat)

  /** What a statement gives back: the rows it returned, or a database error. */
  datatype QueryResult = Rows(rows: seq<Item>) | QueryFailed

  /** What the boolean column accepts for a parameter: a JSON boolean. */
  function BooleanColumn(v: JsValue): (r: Option<bool>)
    ensures r.Some? <==> v.Bool?
    ensures r.Some? ==> r.value == v.b
  {
    if v.Bool? then Some(v.b) else None
  }

  /** The invariant every stored row keeps: it is filed under its own id, its
      title fits the column, and its timestamps are ordered and not in the future. */
  predicate RowInvariant(id: Id, item: Item, clock: Timestamp)
  {
    && item.id == id
    && |item.title| <= MaxTitleLength
    && item.createdAt <= item.updatedAt <= clock
  }

  /** Storing one parameter value into one column of a row; `None` is the
      error the database raises when the value does not fit the column. */
  function AssignColumn(item: Item, column: Column, v: JsValue): (r: Option<Item>)
    ensures r.Some? ==> r.value.id == item.id
    ensures r.Some? ==> r.value.createdAt == item.createdAt && r.value.updatedAt == item.updatedAt
    ensures r.Some? ==> |item.title| <= MaxTitleLength ==> |r.value.title| <= MaxTitleLength
  {
    match column
    case Title =>
      if v.Str? && |v.s| <= MaxTitleLength then Some(item.(title := v.s)) else None
    case Description =>
      if v.Str? then Some(item.(description := v.s)) else None
    case Completed =>
      match BooleanColumn(v)
      case Some(b) => Some(item.(completed := b))
      case None => None
  }

  /** The SET list of an UPDATE applied to one row, each `$n` read from `values`. */
  function ApplyAssignments(item: Item, sets: seq<Assignment>, values: seq<JsValue>): (r: Option<Item>)
    ensures r.Some? ==> r.value.id == item.id
    ensures r.Some? ==> r.value.createdAt == item.createdAt && r.value.updatedAt == item.updatedAt
    ensures r.Some? ==> |item.title| <= MaxTitleLength ==> |r.value.title| <= MaxTitleLength
    decreases |sets|
  {
    if sets == [] then Some(item)
    else if !(1 <= sets[0].param <= |values|) then None
    else match AssignColumn(item, sets[0].column, values[sets[0].param - 1])
      case None => None
      case Some(next) => ApplyAssignments(next, sets[1..], values)
  }

  /** PostgreSQL refuses a SET list that names one column twice. */
  predicate DistinctColumns(sets: seq<Assignment>)
  {
    forall i, j :: 0 <= i < j < |sets| ==> sets[i].column != sets[j].column
  }

  /** The placeholder numbers a SET list uses. */
  function UsedParams(sets: seq<Assignment>): set<nat>
  {
    set i | 0 <= i < |sets| :: sets[i].param
  }

  /** PostgreSQL counts a statement's parameters from the placeholders it
      uses: `values` must supply exactly `$1` to `$n`, and each of them must
      occur in the SET list or the WHERE clause. */
  predicate PlaceholdersMatch(sets: seq<Assignment>, whereParam: nat, n: nat)
  {
    UsedParams(sets) + {whereParam} == ParamRange(n)
  }

  /** The placeholder numbers `$1` to `$n`. */
  function ParamRange(n: nat): (r: set<nat>)
    ensures forall p :: p in r <==> 1 <= p <= n
  {
    if n == 0 then {} else ParamRange(n - 1) + {n}
  }

  /** `UPDATE items SET <sets> WHERE id = $<whereParam>` is accepted by the database. */
  predicate UpdateStatementOk(sets: seq<Assignment>, values: seq<JsValue>, whereParam: nat)
  {
    && sets != []
    && DistinctColumns(sets)
    && PlaceholdersMatch(sets, whereParam, |values|)
    && values[whereParam - 1].Str?
  }

  /** `ORDER BY created_at DESC`; rows with equal timestamps may come in any order. */
  predicate NewestFirst(r: seq<Item>)
  {
    forall i, j :: 0 <= i < j < |r| ==> r[i].createdAt >= r[j].createdAt
  }

  /** A listing of a table: every row exactly once, newest first. */
  predicate ListsTable(r: seq<Item>, rows: map<Id, Item>)
  {
    && |r| == |rows|
    && (forall i :: 0 <= i < |r| ==> r[i].id in rows && rows[r[i].id] == r[i])
    && (forall id :: id in rows ==> rows[id] in r)
    && NewestFirst(r)
  }

  /** A newest-first listing of the rows whose ids are in `done`, each once. */
  predicate PartialListing(r: seq<Item>, rows: map<Id, Item>, done: set<Id>)
  {
    && done <= rows.Keys
    && |r| == |done|
    && (forall i :: 0 <= i < |r| ==> r[i].id in done && rows[r[i].id] == r[i])
    && (forall id :: id in done ==> rows[id] in r)
    && NewestFirst(r)
  }

  /** A row no older than every row of a newest-first listing may head it. */
  lemma PrependNewest(y: Item, r: seq<Item>)
    requires NewestFirst(r)
    requires forall z :: z in r ==> z.createdAt <= y.createdAt
    ensures NewestFirst([y] + r)
  {
    var s := [y] + r;
    forall i, j | 0 <= i < j < |s| ensures s[i].createdAt >= s[j].createdAt {
      assert s[j] == r[j - 1];
      if i > 0 {
        assert s[i] == r[i - 1];
      }
    }
  }

  /** The head of a listing stays in front when `x`, no newer than it, is
      inserted into the tail. */
  lemma InsertBehindHead(x: Item, r: seq<Item>, rest: seq<Item>)
    requires r != [] && x.createdAt <= r[0].createdAt
    requires NewestFirst(r) && NewestFirst(rest)
    requires multiset(rest) == multiset(r[1..]) + multiset{x}
    ensures NewestFirst([r[0]] + rest)
  {
    forall z | z in rest ensures z.createdAt <= r[0].createdAt {
      assert z in multiset(rest);
      if z != x {
        assert z in r[1..];
      }
    }
    PrependNewest(r[0], rest);
  }

  /** Puts `x` into a newest-first listing, after the rows at least as new. */
  function InsertNewestFirst(x: Item, r: seq<Item>): (res: seq<Item>)
    requires NewestFirst(r)
    ensures NewestFirst(res)
    ensures multiset(res) == multiset(r) + multiset{x}
    decreases |r|
  {
    if r == [] || r[0].createdAt < x.createdAt then
      PrependNewest(x, r);
      [x] + r
    else
      var rest := InsertNewestFirst(x, r[1..]);
      assert r == [r[0]] + r[1..];
      InsertBehindHead(x, r, rest);
      [r[0]] + rest
  }

  /** Listing one more pending row keeps the listing a newest-first listing
      of the rows that are no longer pending. */
  lemma ListingStep(r: seq<Item>, rows: map<Id, Item>, pending: set<Id>, id: Id)
    requires pending <= rows.Keys && PartialListing(r, rows, rows.Keys - pending)
    requires id in pending
    requires forall k :: k in rows ==> rows[k].id == k
    ensures PartialListing(InsertNewestFirst(rows[id], r), rows, rows.Keys - (pending - {id}))
  {
    var done := rows.Keys - pending;
    assert rows.Keys - (pending - {id}) == done + {id};
    var r' := InsertNewestFirst(rows[id], r);
    forall i | 0 <= i < |r'| ensures r'[i].id in done + {id} && rows[r'[i].id] == r'[i] {
      assert r'[i] in multiset(r');
    }
    forall k | k in done + {id} ensures rows[k] in r' {
      assert rows[k] in multiset(r');
    }
  }

  /** A partial listing with nothing pending lists the whole table. */
  lemma ListingComplete(r: seq<Item>, rows: map<Id, Item>)
    requires PartialListing(r, rows, rows.Keys - {})
    ensures ListsTable(r, rows)
  {
    assert rows.Keys - {} == rows.Keys;
  }

  class ItemsTable {
    /** The rows, by primary key. */
    var rows: map<Id, Item>
    /** The last reading of the database clock (`CURRENT_TIMESTAMP`). */
    var clock: Timestamp

    ghost predicate Valid()
      reads this
    {
      forall id :: id in rows ==> RowInvariant(id, rows[id], clock)
    }

    constructor ()
      ensures Valid()
      ensures rows == map[] && clock == 0
    {
      rows := map[];
      clock := 0;
    }

    /** `SELECT * FROM items ORDER BY created_at DESC`. */
    method SelectAllNewestFirst(fault: bool) returns (res: QueryResult)
      requires Valid()
      ensures fault ==> res == QueryFailed
      ensures !fault ==> res.Rows? && ListsTable(res.rows, rows)
    {
      if fault {
        return QueryFailed;
      }
      var pending := rows.Keys;
      var listed: seq<Item> := [];
      while pending != {}
        invariant pending <= rows.Keys
        invariant PartialListing(listed, rows, rows.Keys - pending)
        decreases pending
      {
        var id :| id in pending;
        ListingStep(listed, rows, pending, id);
        listed := InsertNewestFirst(rows[id], listed);
        pending := pending - {id};
      }
      ListingComplete(listed, rows);
      return Rows(listed);
    }

    /** `SELECT * FROM items WHERE id = $1`. */
    method SelectById(id: Id, fault: bool) returns (res: QueryResult)
      requires Valid()
      ensures fault ==> res == QueryFailed
      ensures !fault ==> res == Rows(if id in rows then [rows[id]] else [])
    {
      if fault {
        return QueryFailed;
      }
      if id in rows {
        return Rows([rows[id]]);
      }
      return Rows([]);
    }

    /** `INSERT INTO items (title, description, completed) VALUES ($1, $2, $3)
        RETURNING *`; `newId` is the value the key's default generates. */
    method Insert(newId: Id, title: string, description: string, completed: JsValue, fault: bool)
      returns (res: QueryResult)
      requires Valid()
      modifies this
      ensures Valid()
      ensures res.QueryFailed? <==>
        fault || newId in old(rows) || |title| > MaxTitleLength || !completed.Bool?
      ensures res.QueryFailed? ==> rows == old(rows) && clock == old(clock)
      ensures res.Rows? ==>
        && clock == old(clock) + 1
        && res.rows == [Item(newId, title, description, completed.b, clock, clock)]
        && rows == old(rows)[newId := res.rows[0]]
    {
      if fault || newId in rows || |title| > MaxTitleLength {
        return QueryFailed;
      }
      match BooleanColumn(completed)
      case None =>
        return QueryFailed;
      case Some(b) =>
        clock := clock + 1;
        var item := Item(newId, title, description, b, clock, clock);
        rows := rows[newId := item];
        return Rows([item]);
    }

    /** `UPDATE items SET <sets> WHERE id = $<whereParam> RETURNING *`, with the
        trigger setting `updated_at` to the current time on the updated row. */
    method UpdateWhereId(sets: seq<Assignment>, values: seq<JsValue>, whereParam: nat, fault: bool)
      returns (res: QueryResult)
      requires Valid()
      modifies this
      ensures Valid()
      ensures fault || !UpdateStatementOk(sets, values, whereParam) ==>
        res == QueryFailed && rows == old(rows) && clock == old(clock)
      ensures !fault && UpdateStatementOk(sets, values, whereParam) ==>
        var id := values[whereParam - 1].s;
        if id !in old(rows) then
          res == Rows([]) && rows == old(rows) && clock == old(clock)
        else match ApplyAssignments(old(rows)[id], sets, values)
          case None =>
            res == QueryFailed && rows == old(rows) && clock == old(clock)
          case Some(changed) =>
            && clock == old(clock) + 1
            && res == Rows([changed.(updatedAt := clock)])
            && rows == old(rows)[id := changed.(updatedAt := clock)]
    {
      if fault || !UpdateStatementOk(sets, values, whereParam) {
        return QueryFailed;
      }
      var id := values[whereParam - 1].s;
      if id !in rows {
        return Rows([]);
      }
      match ApplyAssignments(rows[id], sets, values)
      case None =>
        return QueryFailed;
      case Some(changed) =>
        clock := clock + 1;
        var item := changed.(updatedAt := clock);
        rows := rows[id := item];
        return Rows([item]);
    }

    /** `DELETE FROM items WHERE id = $1 RETURNING *`. */
    method DeleteWhereId(id: Id, fault: bool) returns (res: QueryResult)
      requires Valid()
      modifies this
      ensures Valid()
      ensures clock == old(clock)
      ensures fault ==> res == QueryFailed && rows == old(rows)
      ensures !fault ==>
        && res == Rows(if id in old(rows) then [old(rows)[id]] else [])
        && rows == old(rows) - {id}
    {
      if fault {
        return QueryFailed;
      }
      if id in rows {
        var item := rows[id];
        rows := rows - {id};
        return Rows([item]);
      }
      return Rows([]);
    }
  }
}
