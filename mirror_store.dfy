/** The local mirror of the payment processor's records: one table per entity
    kind, each row holding the remote payload verbatim (`data`), a few promoted
    scalar columns and the instant of its last sync, and the keyed upsert that
    every `save…InDB` function performs.

    A table is the database session's view of its rows: a change made to a row
    object fetched by a query is seen by every later query of the session and is
    written by the next commit, whether or not the call that made it finished. */
module MirrorStore {
  import opened Common

  /** A wall-clock instant, stamped into `lastSyncDate`; opaque here. */
  type Instant = int

  datatype Kind = Locations | Payments | Refunds | Orders | CatalogObjects | Payouts | PayoutEntries

  /** One promoted column written from one payload key: `row.column = payload[key]`. */
  datatype Assign = Assign(column: string, key: string)

  /** The promoted columns a new row is created with. */
  function InsertAssigns(kind: Kind): seq<Assign>
  {
    match kind
    case Locations => [Assign("location_id", "id"), Assign("name", "name")]
    case Payments =>
      [Assign("payment_id", "id"), Assign("order_id", "order_id"), Assign("location_id", "location_id"),
       Assign("created_at", "created_at"), Assign("updated_at", "updated_at")]
    case Refunds =>
      [Assign("refund_id", "id"), Assign("payment_id", "payment_id"), Assign("order_id", "order_id"),
       Assign("location_id", "location_id"), Assign("created_at", "created_at"), Assign("updated_at", "updated_at")]
    case Orders =>
      [Assign("order_id", "id"), Assign("location_id", "location_id"),
       Assign("created_at", "created_at"), Assign("updated_at", "updated_at")]
    case CatalogObjects => [Assign("catalog_id", "id"), Assign("type", "type"), Assign("is_deleted", "is_deleted")]
    case Payouts =>
      [Assign("payout_id", "id"), Assign("location_id", "location_id"),
       Assign("created_at", "created_at"), Assign("updated_at", "updated_at")]
    case PayoutEntries =>
      [Assign("payoutEntry_id", "id"), Assign("payout_id", "payout_id"),
       Assign("effective_at", "effective_at"), Assign("type", "type")]
  }

  /** The promoted columns an existing row is rewritten with, in the order the
      source assigns them (after `data`, before `lastSyncDate`). */
  function UpdateAssigns(kind: Kind): seq<Assign>
  {
    match kind
    case Locations => [Assign("name", "name")]
    case Payments =>
      [Assign("location_id", "location_id"), Assign("order_id", "order_id"), Assign("payment_id", "id"),
       Assign("created_at", "created_at"), Assign("updated_at", "updated_at")]
    case Refunds =>
      [Assign("location_id", "location_id"), Assign("order_id", "order_id"), Assign("payment_id", "payment_id"),
       Assign("refund_id", "id"), Assign("created_at", "created_at"), Assign("updated_at", "updated_at")]
    case Orders =>
      [Assign("location_id", "location_id"), Assign("created_at", "created_at"), Assign("updated_at", "updated_at")]
    case CatalogObjects => [Assign("type", "type"), Assign("is_deleted", "is_deleted")]
    case Payouts =>
      [Assign("location_id", "location_id"), Assign("payout_id", "id"),
       Assign("created_at", "created_at"), Assign("updated_at", "updated_at")]
    case PayoutEntries =>
      [Assign("payoutEntry_id", "id"), Assign("payout_id", "payout_id"),
       Assign("type", "type"), Assign("effective_at", "effective_at")]
  }

  /** The column that promotes the remote id. */
  function IdColumn(kind: Kind): string
  {
    match kind
    case Locations => "location_id"
    case Payments => "payment_id"
    case Refunds => "refund_id"
    case Orders => "order_id"
    case CatalogObjects => "catalog_id"
    case Payouts => "payout_id"
    case PayoutEntries => "payoutEntry_id"
  }

  function Columns(assigns: seq<Assign>): set<string>
  {
    set a | a in assigns :: a.column
  }

  predicate DistinctColumns(assigns: seq<Assign>)
  {
    forall i, j :: 0 <= i < j < |assigns| ==> assigns[i].column != assigns[j].column
  }

  datatype Row = Row(data: Payload, columns: map<string, Value>, lastSync: Instant)

  /** The query `data.contains({'id': id})`: the stored payload's id is `id`. */
  predicate Holds(row: Row, id: Value)
  {
    "id" in row.data && row.data["id"] == id
  }

  /** The rows the query returns, by ascending position. */
  function Hits(rows: seq<Row>, id: Value): (r: seq<nat>)
    ensures forall i :: 0 <= i < |r| ==> r[i] < |rows|
    decreases |rows|
  {
    if rows == [] then []
    else Hits(rows[..|rows| - 1], id) + (if Holds(rows[|rows| - 1], id) then [|rows| - 1] else [])
  }

  /** The query returns exactly the positions of the rows that hold the id,
      in ascending order. */
  lemma HitsExact(rows: seq<Row>, id: Value)
    ensures forall k: nat :: k in Hits(rows, id) <==> k < |rows| && Holds(rows[k], id)
    ensures |Hits(rows, id)| == 0 <==> forall k :: 0 <= k < |rows| ==> !Holds(rows[k], id)
    ensures forall i, j :: 0 <= i < j < |Hits(rows, id)| ==> Hits(rows, id)[i] < Hits(rows, id)[j]
  {
    var hits := Hits(rows, id);
    HitsMembers(rows, id);
    HitsAscending(rows, id);
    if |hits| != 0 {
      assert hits[0] in hits;
    }
  }

  lemma {:induction false} HitsMembers(rows: seq<Row>, id: Value)
    ensures forall k: nat :: k in Hits(rows, id) <==> k < |rows| && Holds(rows[k], id)
    decreases |rows|
  {
    if rows != [] {
      HitsLast(rows, id);
      HitsMembers(rows[..|rows| - 1], id);
    }
  }

  lemma {:induction false} HitsAscending(rows: seq<Row>, id: Value)
    ensures forall i, j :: 0 <= i < j < |Hits(rows, id)| ==> Hits(rows, id)[i] < Hits(rows, id)[j]
    decreases |rows|
  {
    if rows != [] {
      HitsLast(rows, id);
      HitsAscending(rows[..|rows| - 1], id);
    }
  }

  /** The query over a table is the query over all but its last row, then the
      last row if it holds the id. */
  lemma HitsLast(rows: seq<Row>, id: Value)
    requires rows != []
    ensures var prefix := rows[..|rows| - 1];
      && (forall k :: 0 <= k < |prefix| ==> prefix[k] == rows[k])
      && Hits(rows, id) == Hits(prefix, id) + (if Holds(rows[|rows| - 1], id) then [|rows| - 1] else [])
  {
  }

  /** A row that alone holds the id is the query's only result. */
  lemma {:induction false} HitsSingle(rows: seq<Row>, id: Value, k: nat)
    requires k < |rows| && Holds(rows[k], id)
    requires forall j :: 0 <= j < |rows| && j != k ==> !Holds(rows[j], id)
    ensures Hits(rows, id) == [k]
    decreases |rows|
  {
    var prefix := rows[..|rows| - 1];
    HitsLast(rows, id);
    if k == |rows| - 1 {
      HitsExact(prefix, id);
      assert Hits(prefix, id) == [];
    } else {
      HitsSingle(prefix, id, k);
    }
  }

  /** Two rows that hold the id give the query two results or more. */
  lemma {:induction false} HitsMany(rows: seq<Row>, id: Value, i: nat, j: nat)
    requires i < j < |rows| && Holds(rows[i], id) && Holds(rows[j], id)
    ensures |Hits(rows, id)| >= 2
    decreases |rows|
  {
    var prefix := rows[..|rows| - 1];
    HitsLast(rows, id);
    if j == |rows| - 1 {
      HitsExact(prefix, id);
      assert |Hits(prefix, id)| != 0;
    } else {
      HitsMany(prefix, id, i, j);
    }
  }

  /** The query returns two results or more exactly when two rows hold the id. */
  lemma HitsPair(rows: seq<Row>, id: Value)
    ensures |Hits(rows, id)| >= 2 <==> exists i, j :: 0 <= i < j < |rows| && Holds(rows[i], id) && Holds(rows[j], id)
  {
    var hits := Hits(rows, id);
    HitsExact(rows, id);
    if |hits| >= 2 {
      assert hits[0] in hits && hits[1] in hits;
    }
    forall i, j | 0 <= i < j < |rows| && Holds(rows[i], id) && Holds(rows[j], id)
      ensures |hits| >= 2
    {
      HitsMany(rows, id, i, j);
    }
  }

  /** Where no two rows hold the same id, the query returns one result at most. */
  lemma {:induction false} HitsAtMostOne(rows: seq<Row>, id: Value)
    requires forall i, j :: 0 <= i < j < |rows| && Holds(rows[i], id) ==> !Holds(rows[j], id)
    ensures |Hits(rows, id)| <= 1
    decreases |rows|
  {
    if rows != [] {
      var prefix := rows[..|rows| - 1];
      HitsLast(rows, id);
      if Holds(rows[|rows| - 1], id) {
        HitsExact(prefix, id);
        assert Hits(prefix, id) == [];
      } else {
        HitsAtMostOne(prefix, id);
      }
    }
  }

  datatype Applied = Applied(columns: map<string, Value>, complete: bool)

  /** Performs the assignments in order and stops at the first whose payload key
      is absent, where Python raises KeyError; `complete` tells whether all of
      them were made. */
  function Apply(cols: map<string, Value>, assigns: seq<Assign>, p: Payload): Applied
    decreases |assigns|
  {
    if assigns == [] then Applied(cols, true)
    else if assigns[0].key !in p then Applied(cols, false)
    else Apply(cols[assigns[0].column := p[assigns[0].key]], assigns[1..], p)
  }

  datatype Error = MissingKey | MultipleFound(id: Value)

  datatype Outcome = Outcome(error: Option<Error>, rows: seq<Row>)

  /** The promoted columns of one table: those a new row is created with, those
      an existing row is rewritten with, and the one holding the remote id. */
  datatype Schema = Schema(insert: seq<Assign>, update: seq<Assign>, idColumn: string)

  function SchemaOf(kind: Kind): Schema
  {
    Schema(InsertAssigns(kind), UpdateAssigns(kind), IdColumn(kind))
  }

  /** A new row promotes the id first; no list names a column twice; an update
      writes the id column, if at all, from the id. */
  predicate WellFormed(s: Schema)
  {
    && |s.insert| > 0
    && s.insert[0] == Assign(s.idColumn, "id")
    && DistinctColumns(s.insert)
    && DistinctColumns(s.update)
    && (forall a :: a in s.update && a.column == s.idColumn ==> a.key == "id")
  }

  /** Every table's columns are well formed. */
  lemma SchemasWellFormed(kind: Kind)
    ensures WellFormed(SchemaOf(kind))
  {
    InsertColumnsDistinct(kind);
    UpdateColumnsDistinct(kind);
    UpdateIdColumnFromId(kind);
  }

  lemma InsertColumnsDistinct(kind: Kind)
    ensures |InsertAssigns(kind)| > 0 && InsertAssigns(kind)[0] == Assign(IdColumn(kind), "id")
    ensures DistinctColumns(InsertAssigns(kind))
  {
    match kind
    case Locations =>
    case Payments =>
    case Refunds =>
    case Orders =>
    case CatalogObjects =>
    case Payouts =>
    case PayoutEntries =>
  }

  lemma UpdateColumnsDistinct(kind: Kind)
    ensures DistinctColumns(UpdateAssigns(kind))
  {
    match kind
    case Locations =>
    case Payments =>
    case Refunds =>
    case Orders =>
    case CatalogObjects =>
    case Payouts =>
    case PayoutEntries =>
  }

  lemma UpdateIdColumnFromId(kind: Kind)
    ensures forall a :: a in UpdateAssigns(kind) && a.column == IdColumn(kind) ==> a.key == "id"
  {
    match kind
    case Locations =>
    case Payments =>
    case Refunds =>
    case Orders =>
    case CatalogObjects =>
    case Payouts =>
    case PayoutEntries =>
  }

  /** What a `save…InDB` call does to a table with columns `s`, and the error it raises. */
  function Upsert(s: Schema, rows: seq<Row>, p: Payload, now: Instant): (o: Outcome)
    ensures o.error.Some? && o.error.value.MultipleFound? ==> o.rows == rows && "id" in p && o.error.value.id == p["id"]
  {
    if "id" !in p then Outcome(Some(MissingKey), rows)
    else
      var hits := Hits(rows, p["id"]);
      if |hits| == 0 then
        var a := Apply(map[], s.insert, p);
        if a.complete then Outcome(None, rows + [Row(p, a.columns, now)])
        else Outcome(Some(MissingKey), rows)
      else if |hits| == 1 then
        var k := hits[0];
        var a := Apply(rows[k].columns, s.update, p);
        if a.complete then Outcome(None, rows[k := Row(p, a.columns, now)])
        else Outcome(Some(MissingKey), rows[k := Row(p, a.columns, rows[k].lastSync)])
      else Outcome(Some(MultipleFound(p["id"])), rows)
  }

  /** Performs a column assignment list as the source does, one statement at a time. */
  method AssignColumns(cols: map<string, Value>, assigns: seq<Assign>, p: Payload)
    returns (columns: map<string, Value>, complete: bool)
    ensures Applied(columns, complete) == Apply(cols, assigns, p)
  {
    columns, complete := cols, true;
    for i := 0 to |assigns|
      invariant Apply(cols, assigns, p) == Apply(columns, assigns[i..], p)
    {
      if assigns[i].key !in p {
        return columns, false;
      }
      assert assigns[i..][1..] == assigns[i + 1..];
      columns := columns[assigns[i].column := p[assigns[i].key]];
    }
    assert assigns[|assigns|..] == [];
  }

  datatype Lookup = NotFound | Found(data: Payload) | Ambiguous

  /** One mirror table. */
  class Table {
    const kind: Kind
    var rows: seq<Row>

    constructor (kind: Kind)
      ensures this.kind == kind && rows == []
    {
      this.kind := kind;
      rows := [];
    }

    /** The body shared by every `save…InDB` function and by the inline upserts of
        the location and catalog syncs. */
    method Save(p: Payload, now: Instant) returns (error: Option<Error>)
      modifies this
      ensures Upsert(SchemaOf(kind), old(rows), p, now) == Outcome(error, rows)
    {
      if "id" !in p {
        return Some(MissingKey);
      }
      var hits := Hits(rows, p["id"]);
      HitsExact(rows, p["id"]);
      var schema := SchemaOf(kind);
      if |hits| == 0 {
        // every argument of the new row is read before the row is added
        var columns, complete := AssignColumns(map[], schema.insert, p);
        if !complete {
          return Some(MissingKey);
        }
        rows := rows + [Row(p, columns, now)];
        error := None;
      } else if |hits| == 1 {
        var k := hits[0];
        assert k in hits;
        rows := rows[k := rows[k].(data := p)];
        var columns, complete := AssignColumns(rows[k].columns, schema.update, p);
        rows := rows[k := rows[k].(columns := columns)];
        if !complete {
          return Some(MissingKey);
        }
        rows := rows[k := rows[k].(lastSync := now)];
        error := None;
      } else {
        error := Some(MultipleFound(p["id"]));
      }
    }

    /** The query `filter(data.contains({'id': id})).one()`. */
    method Find(id: Value) returns (r: Lookup)
      ensures r.NotFound? <==> forall k :: 0 <= k < |rows| ==> !Holds(rows[k], id)
      ensures r.Ambiguous? <==> exists i, j :: 0 <= i < j < |rows| && Holds(rows[i], id) && Holds(rows[j], id)
      ensures r.Found? ==> exists k :: 0 <= k < |rows| && Holds(rows[k], id) && r.data == rows[k].data
    {
      var hits := Hits(rows, id);
      HitsPair(rows, id);
      HitsMembers(rows, id);
      if |hits| == 0 {
        r := NotFound;
        forall k | 0 <= k < |rows| ensures !Holds(rows[k], id) {
          assert k !in hits;
        }
      } else {
        var k := hits[0];
        assert k in hits;
        if |hits| == 1 {
          r := Found(rows[k].data);
        } else {
          r := Ambiguous;
        }
      }
    }

    /** `getLocations`: the stored payloads, in table order. */
    method AllData() returns (data: seq<Payload>)
      ensures |data| == |rows|
      ensures forall k :: 0 <= k < |rows| ==> data[k] == rows[k].data
    {
      data := [];
      for i := 0 to |rows|
        invariant |data| == i
        invariant forall k :: 0 <= k < i ==> data[k] == rows[k].data
      {
        data := data + [rows[i].data];
      }
    }
  }

  // ---------------------------------------------------------------------------
  // The column assignments

  lemma {:induction false} ApplyCompleteIff(cols: map<string, Value>, assigns: seq<Assign>, p: Payload)
    ensures Apply(cols, assigns, p).complete <==> forall i :: 0 <= i < |assigns| ==> assigns[i].key in p
    decreases |assigns|
  {
    if assigns != [] && assigns[0].key in p {
      ApplyCompleteIff(cols[assigns[0].column := p[assigns[0].key]], assigns[1..], p);
      assert forall i :: 1 <= i < |assigns| ==> assigns[i] == assigns[1..][i - 1];
    }
  }

  /** Columns outside the assignment list keep their presence and value. */
  lemma {:induction false} ApplyLeavesOthers(cols: map<string, Value>, assigns: seq<Assign>, p: Payload, c: string)
    requires c !in Columns(assigns)
    ensures var r := Apply(cols, assigns, p).columns; (c in r <==> c in cols) && (c in cols ==> r[c] == cols[c])
    decreases |assigns|
  {
    if assigns != [] && assigns[0].key in p {
      assert Columns(assigns[1..]) <= Columns(assigns) by {
        forall a | a in assigns[1..] ensures a in assigns { }
      }
      ApplyLeavesOthers(cols[assigns[0].column := p[assigns[0].key]], assigns[1..], p, c);
    }
  }

  /** A complete run writes every listed column from its payload key. */
  lemma {:induction false} ApplyWritesAll(cols: map<string, Value>, assigns: seq<Assign>, p: Payload, i: nat)
    requires DistinctColumns(assigns)
    requires Apply(cols, assigns, p).complete
    requires i < |assigns|
    ensures assigns[i].key in p
    ensures var r := Apply(cols, assigns, p).columns; assigns[i].column in r && r[assigns[i].column] == p[assigns[i].key]
    decreases |assigns|
  {
    var cols' := cols[assigns[0].column := p[assigns[0].key]];
    if i == 0 {
      assert assigns[0].column !in Columns(assigns[1..]) by {
        forall a | a in assigns[1..] ensures a.column != assigns[0].column {
          var j :| 0 <= j < |assigns[1..]| && assigns[1..][j] == a;
          assert assigns[j + 1] == a;
        }
      }
      ApplyLeavesOthers(cols', assigns[1..], p, assigns[0].column);
    } else {
      ApplyWritesAll(cols', assigns[1..], p, i - 1);
      assert assigns[1..][i - 1] == assigns[i];
    }
  }

  /** A column whose every assignment writes `v`, and which already holds `v`,
      still holds `v` however far the assignments got. */
  lemma {:induction false} ApplyKeepsValue(cols: map<string, Value>, assigns: seq<Assign>, p: Payload, c: string, v: Value)
    requires c in cols && cols[c] == v
    requires forall a :: a in assigns && a.column == c && a.key in p ==> p[a.key] == v
    ensures var r := Apply(cols, assigns, p).columns; c in r && r[c] == v
    decreases |assigns|
  {
    if assigns != [] && assigns[0].key in p {
      ApplyKeepsValue(cols[assigns[0].column := p[assigns[0].key]], assigns[1..], p, c, v);
    }
  }

  // ---------------------------------------------------------------------------
  // The three outcomes of an upsert, for any columns

  lemma AppendsWhenAbsentIn(s: Schema, rows: seq<Row>, p: Payload, now: Instant)
    requires DistinctColumns(s.insert)
    requires "id" in p
    requires forall k :: 0 <= k < |rows| ==> !Holds(rows[k], p["id"])
    requires forall a :: a in s.insert ==> a.key in p
    ensures var o := Upsert(s, rows, p, now);
      && o.error == None
      && |o.rows| == |rows| + 1
      && o.rows[..|rows|] == rows
      && o.rows[|rows|].data == p && o.rows[|rows|].lastSync == now
      && o.rows[|rows|].columns.Keys == Columns(s.insert)
      && forall a :: a in s.insert ==> o.rows[|rows|].columns[a.column] == p[a.key]
  {
    HitsExact(rows, p["id"]);
    ApplyCompleteIff(map[], s.insert, p);
    var r := Apply(map[], s.insert, p).columns;
    assert Upsert(s, rows, p, now) == Outcome(None, rows + [Row(p, r, now)]);
    forall a | a in s.insert ensures a.column in r && r[a.column] == p[a.key] {
      var i :| 0 <= i < |s.insert| && s.insert[i] == a;
      ApplyWritesAll(map[], s.insert, p, i);
    }
    forall c | c in r ensures c in Columns(s.insert) {
      if c !in Columns(s.insert) {
        ApplyLeavesOthers(map[], s.insert, p, c);
      }
    }
  }

  lemma OverwritesSingleMatchIn(s: Schema, rows: seq<Row>, p: Payload, now: Instant, k: nat)
    requires DistinctColumns(s.update)
    requires "id" in p
    requires k < |rows| && Holds(rows[k], p["id"])
    requires forall j :: 0 <= j < |rows| && j != k ==> !Holds(rows[j], p["id"])
    requires forall a :: a in s.update ==> a.key in p
    ensures var o := Upsert(s, rows, p, now);
      && o.error == None
      && |o.rows| == |rows|
      && (forall j :: 0 <= j < |rows| && j != k ==> o.rows[j] == rows[j])
      && o.rows[k].data == p && o.rows[k].lastSync == now
      && (forall a :: a in s.update ==> a.column in o.rows[k].columns && o.rows[k].columns[a.column] == p[a.key])
      && (forall c :: c !in Columns(s.update) ==>
            (c in o.rows[k].columns <==> c in rows[k].columns) &&
            (c in rows[k].columns ==> o.rows[k].columns[c] == rows[k].columns[c]))
  {
    HitsSingle(rows, p["id"], k);
    ApplyCompleteIff(rows[k].columns, s.update, p);
    var r := Apply(rows[k].columns, s.update, p).columns;
    assert Upsert(s, rows, p, now) == Outcome(None, rows[k := Row(p, r, now)]);
    forall a | a in s.update
      ensures a.column in r && r[a.column] == p[a.key]
    {
      var i :| 0 <= i < |s.update| && s.update[i] == a;
      ApplyWritesAll(rows[k].columns, s.update, p, i);
    }
    forall c | c !in Columns(s.update)
      ensures (c in r <==> c in rows[k].columns) && (c in rows[k].columns ==> r[c] == rows[k].columns[c])
    {
      ApplyLeavesOthers(rows[k].columns, s.update, p, c);
    }
  }

  lemma KeepsPositionsIn(s: Schema, rows: seq<Row>, p: Payload, now: Instant)
    ensures var o := Upsert(s, rows, p, now);
      && |rows| <= |o.rows| <= |rows| + 1
      && (o.error.Some? ==> |o.rows| == |rows|)
      && forall k :: 0 <= k < |rows| && o.rows[k] != rows[k] ==> "id" in p && Holds(rows[k], p["id"]) && o.rows[k].data == p
  {
    if "id" !in p {
      assert Upsert(s, rows, p, now) == Outcome(Some(MissingKey), rows);
    } else {
      var hits := Hits(rows, p["id"]);
      HitsExact(rows, p["id"]);
      if |hits| == 0 {
        var a := Apply(map[], s.insert, p);
        if a.complete {
          var rows' := rows + [Row(p, a.columns, now)];
          assert Upsert(s, rows, p, now) == Outcome(None, rows');
          assert forall k :: 0 <= k < |rows| ==> rows'[k] == rows[k];
        } else {
          assert Upsert(s, rows, p, now) == Outcome(Some(MissingKey), rows);
        }
      } else if |hits| == 1 {
        var k := hits[0];
        assert k in hits;
        var a := Apply(rows[k].columns, s.update, p);
        var row' := if a.complete then Row(p, a.columns, now) else Row(p, a.columns, rows[k].lastSync);
        assert Upsert(s, rows, p, now) == Outcome(if a.complete then None else Some(MissingKey), rows[k := row']);
      } else {
        assert Upsert(s, rows, p, now) == Outcome(Some(MultipleFound(p["id"])), rows);
      }
    }
  }

  lemma KeepsUnlistedColumnIn(s: Schema, rows: seq<Row>, p: Payload, now: Instant, c: string)
    requires c !in Columns(s.update)
    ensures var o := Upsert(s, rows, p, now);
      forall k :: 0 <= k < |rows| ==>
        (c in o.rows[k].columns <==> c in rows[k].columns) &&
        (c in rows[k].columns ==> o.rows[k].columns[c] == rows[k].columns[c])
  {
    var o := Upsert(s, rows, p, now);
    if "id" !in p {
      assert o.rows == rows;
    } else {
      var hits := Hits(rows, p["id"]);
      if |hits| == 0 {
        var a := Apply(map[], s.insert, p);
        if a.complete {
          assert o.rows == rows + [Row(p, a.columns, now)];
        } else {
          assert o.rows == rows;
        }
        assert forall k :: 0 <= k < |rows| ==> o.rows[k] == rows[k];
      } else if |hits| == 1 {
        var k := hits[0];
        var a := Apply(rows[k].columns, s.update, p);
        assert o.rows == rows[k := Row(p, a.columns, if a.complete then now else rows[k].lastSync)];
        ApplyLeavesOthers(rows[k].columns, s.update, p, c);
      } else {
        assert o.rows == rows;
      }
    }
  }

  /** No stored payload has the record's id: one row is appended holding the
      record, its promoted columns and the sync instant; the others are untouched. */
  lemma UpsertAppendsWhenAbsent(kind: Kind, rows: seq<Row>, p: Payload, now: Instant)
    requires "id" in p
    requires forall k :: 0 <= k < |rows| ==> !Holds(rows[k], p["id"])
    requires forall a :: a in InsertAssigns(kind) ==> a.key in p
    ensures var o := Upsert(SchemaOf(kind), rows, p, now);
      && o.error == None
      && |o.rows| == |rows| + 1
      && o.rows[..|rows|] == rows
      && o.rows[|rows|].data == p && o.rows[|rows|].lastSync == now
      && o.rows[|rows|].columns.Keys == Columns(InsertAssigns(kind))
      && forall a :: a in InsertAssigns(kind) ==> o.rows[|rows|].columns[a.column] == p[a.key]
  {
    SchemasWellFormed(kind);
    AppendsWhenAbsentIn(SchemaOf(kind), rows, p, now);
  }

  /** Exactly one stored payload has the record's id: that row's data, update
      columns and sync instant are overwritten in place, its other columns and
      every other row are kept, and the row count does not change. */
  lemma UpsertOverwritesSingleMatch(kind: Kind, rows: seq<Row>, p: Payload, now: Instant, k: nat)
    requires "id" in p
    requires k < |rows| && Holds(rows[k], p["id"])
    requires forall j :: 0 <= j < |rows| && j != k ==> !Holds(rows[j], p["id"])
    requires forall a :: a in UpdateAssigns(kind) ==> a.key in p
    ensures var o := Upsert(SchemaOf(kind), rows, p, now);
      && o.error == None
      && |o.rows| == |rows|
      && (forall j :: 0 <= j < |rows| && j != k ==> o.rows[j] == rows[j])
      && o.rows[k].data == p && o.rows[k].lastSync == now
      && (forall a :: a in UpdateAssigns(kind) ==> a.column in o.rows[k].columns && o.rows[k].columns[a.column] == p[a.key])
      && (forall c :: c !in Columns(UpdateAssigns(kind)) ==>
            (c in o.rows[k].columns <==> c in rows[k].columns) &&
            (c in rows[k].columns ==> o.rows[k].columns[c] == rows[k].columns[c]))
  {
    SchemasWellFormed(kind);
    OverwritesSingleMatchIn(SchemaOf(kind), rows, p, now, k);
  }

  /** Two stored payloads have the record's id: the upsert fails naming the id
      and changes nothing. */
  lemma UpsertFailsOnDuplicates(kind: Kind, rows: seq<Row>, p: Payload, now: Instant, i: nat, j: nat)
    requires "id" in p
    requires i < j < |rows| && Holds(rows[i], p["id"]) && Holds(rows[j], p["id"])
    ensures Upsert(SchemaOf(kind), rows, p, now) == Outcome(Some(MultipleFound(p["id"])), rows)
  {
    HitsMany(rows, p["id"], i, j);
  }

  /** An upsert never removes a row, and never moves one. */
  lemma UpsertKeepsPositions(kind: Kind, rows: seq<Row>, p: Payload, now: Instant)
    ensures var o := Upsert(SchemaOf(kind), rows, p, now);
      && |rows| <= |o.rows| <= |rows| + 1
      && (o.error.Some? ==> |o.rows| == |rows|)
      && forall k :: 0 <= k < |rows| && o.rows[k] != rows[k] ==> "id" in p && Holds(rows[k], p["id"]) && o.rows[k].data == p
  {
    KeepsPositionsIn(SchemaOf(kind), rows, p, now);
  }

  /** A column the update list never names keeps, in every row that existed
      before, its presence and its value, whatever the outcome. */
  lemma UpsertKeepsUnlistedColumn(kind: Kind, rows: seq<Row>, p: Payload, now: Instant, c: string)
    requires c !in Columns(UpdateAssigns(kind))
    ensures var o := Upsert(SchemaOf(kind), rows, p, now);
      forall k :: 0 <= k < |rows| ==>
        (c in o.rows[k].columns <==> c in rows[k].columns) &&
        (c in rows[k].columns ==> o.rows[k].columns[c] == rows[k].columns[c])
  {
    KeepsUnlistedColumnIn(SchemaOf(kind), rows, p, now, c);
  }

  /** Updating an order rewrites data, location_id, created_at, updated_at and
      lastSyncDate, and never order_id. */
  lemma OrderUpdateKeepsOrderId(rows: seq<Row>, p: Payload, now: Instant)
    ensures var o := Upsert(SchemaOf(Orders), rows, p, now);
      forall k :: 0 <= k < |rows| ==>
        ("order_id" in o.rows[k].columns <==> "order_id" in rows[k].columns) &&
        ("order_id" in rows[k].columns ==> o.rows[k].columns["order_id"] == rows[k].columns["order_id"])
  {
    assert "order_id" !in Columns(UpdateAssigns(Orders));
    UpsertKeepsUnlistedColumn(Orders, rows, p, now, "order_id");
  }

  /** Updating a location rewrites data, name and lastSyncDate, never location_id. */
  lemma LocationUpdateKeepsLocationId(rows: seq<Row>, p: Payload, now: Instant)
    ensures var o := Upsert(SchemaOf(Locations), rows, p, now);
      forall k :: 0 <= k < |rows| ==>
        ("location_id" in o.rows[k].columns <==> "location_id" in rows[k].columns) &&
        ("location_id" in rows[k].columns ==> o.rows[k].columns["location_id"] == rows[k].columns["location_id"])
  {
    assert "location_id" !in Columns(UpdateAssigns(Locations));
    UpsertKeepsUnlistedColumn(Locations, rows, p, now, "location_id");
  }

  /** Updating a catalog object rewrites data, type, is_deleted and lastSyncDate,
      never catalog_id. */
  lemma CatalogUpdateKeepsCatalogId(rows: seq<Row>, p: Payload, now: Instant)
    ensures var o := Upsert(SchemaOf(CatalogObjects), rows, p, now);
      forall k :: 0 <= k < |rows| ==>
        ("catalog_id" in o.rows[k].columns <==> "catalog_id" in rows[k].columns) &&
        ("catalog_id" in rows[k].columns ==> o.rows[k].columns["catalog_id"] == rows[k].columns["catalog_id"])
  {
    assert "catalog_id" !in Columns(UpdateAssigns(CatalogObjects));
    UpsertKeepsUnlistedColumn(CatalogObjects, rows, p, now, "catalog_id");
  }

  // ---------------------------------------------------------------------------
  // The table invariant: remote ids are unique and mirrored in the id column

  predicate KeyedOn(idColumn: string, row: Row)
  {
    "id" in row.data && idColumn in row.columns && row.columns[idColumn] == row.data["id"]
  }

  predicate ConsistentOn(idColumn: string, rows: seq<Row>)
  {
    && (forall k :: 0 <= k < |rows| ==> KeyedOn(idColumn, rows[k]))
    && (forall i, j :: 0 <= i < j < |rows| && "id" in rows[i].data && "id" in rows[j].data ==>
          rows[i].data["id"] != rows[j].data["id"])
  }

  predicate Consistent(kind: Kind, rows: seq<Row>)
  {
    ConsistentOn(IdColumn(kind), rows)
  }

  lemma AppendKeepsConsistentIn(s: Schema, rows: seq<Row>, p: Payload, now: Instant)
    requires WellFormed(s) && ConsistentOn(s.idColumn, rows) && "id" in p
    requires forall k :: 0 <= k < |rows| ==> !Holds(rows[k], p["id"])
    ensures ConsistentOn(s.idColumn, Upsert(s, rows, p, now).rows)
  {
    HitsExact(rows, p["id"]);
    var a := Apply(map[], s.insert, p);
    if a.complete {
      ApplyWritesAll(map[], s.insert, p, 0);
      var rows' := rows + [Row(p, a.columns, now)];
      assert Upsert(s, rows, p, now).rows == rows';
      assert KeyedOn(s.idColumn, rows'[|rows|]);
      assert forall k :: 0 <= k < |rows| ==> rows'[k] == rows[k];
    }
  }

  lemma OverwriteKeepsConsistentIn(s: Schema, rows: seq<Row>, p: Payload, now: Instant, k: nat)
    requires WellFormed(s) && ConsistentOn(s.idColumn, rows) && "id" in p
    requires k < |rows| && Holds(rows[k], p["id"])
    ensures ConsistentOn(s.idColumn, Upsert(s, rows, p, now).rows)
  {
    HitsSingle(rows, p["id"], k);
    ApplyKeepsValue(rows[k].columns, s.update, p, s.idColumn, p["id"]);
    var a := Apply(rows[k].columns, s.update, p);
    var row' := if a.complete then Row(p, a.columns, now) else Row(p, a.columns, rows[k].lastSync);
    var rows' := rows[k := row'];
    assert Upsert(s, rows, p, now).rows == rows';
    assert KeyedOn(s.idColumn, row');
    assert forall j :: 0 <= j < |rows| ==> "id" in rows'[j].data && rows'[j].data["id"] == rows[j].data["id"];
  }

  lemma PreservesConsistentIn(s: Schema, rows: seq<Row>, p: Payload, now: Instant)
    requires WellFormed(s) && ConsistentOn(s.idColumn, rows)
    ensures ConsistentOn(s.idColumn, Upsert(s, rows, p, now).rows)
  {
    if "id" in p {
      var hits := Hits(rows, p["id"]);
      HitsExact(rows, p["id"]);
      if |hits| == 0 {
        AppendKeepsConsistentIn(s, rows, p, now);
      } else if |hits| == 1 {
        var k := hits[0];
        assert k in hits;
        OverwriteKeepsConsistentIn(s, rows, p, now, k);
      }
    }
  }

  /** Every upsert, whatever its outcome, keeps ids unique and the promoted id
      column equal to the payload id; in particular the id columns that the
      location, order and catalog updates leave alone can never go stale. */
  lemma UpsertPreservesConsistent(kind: Kind, rows: seq<Row>, p: Payload, now: Instant)
    requires Consistent(kind, rows)
    ensures Consistent(kind, Upsert(SchemaOf(kind), rows, p, now).rows)
  {
    SchemasWellFormed(kind);
    PreservesConsistentIn(SchemaOf(kind), rows, p, now);
  }

  /** Hence, on a table that satisfies the invariant, the multiple-match error
      cannot arise. */
  lemma ConsistentNeverDuplicates(kind: Kind, rows: seq<Row>, p: Payload, now: Instant)
    requires Consistent(kind, rows)
    ensures forall id :: Upsert(SchemaOf(kind), rows, p, now).error != Some(MultipleFound(id))
  {
    if "id" in p {
      HitsAtMostOne(rows, p["id"]);
    }
  }

  // ---------------------------------------------------------------------------
  // Facts the sync loops rely on

  /** A payload carrying every key its columns read. */
  predicate CompleteIn(s: Schema, p: Payload)
  {
    && "id" in p
    && (forall a :: a in s.insert ==> a.key in p)
    && (forall a :: a in s.update ==> a.key in p)
  }

  predicate Complete(kind: Kind, p: Payload)
  {
    CompleteIn(SchemaOf(kind), p)
  }

  lemma SucceedsIn(s: Schema, rows: seq<Row>, p: Payload, now: Instant)
    requires WellFormed(s) && ConsistentOn(s.idColumn, rows) && CompleteIn(s, p)
    ensures Upsert(s, rows, p, now).error == None
  {
    var hits := Hits(rows, p["id"]);
    HitsExact(rows, p["id"]);
    HitsAtMostOne(rows, p["id"]);
    if |hits| == 0 {
      AppendsWhenAbsentIn(s, rows, p, now);
    } else {
      var k := hits[0];
      assert k in hits;
      assert hits == [k];
      OverwritesSingleMatchIn(s, rows, p, now, k);
    }
  }

  /** On a consistent table, saving a complete payload never fails. */
  lemma UpsertSucceeds(kind: Kind, rows: seq<Row>, p: Payload, now: Instant)
    requires Consistent(kind, rows) && Complete(kind, p)
    ensures Upsert(SchemaOf(kind), rows, p, now).error == None
  {
    SchemasWellFormed(kind);
    SucceedsIn(SchemaOf(kind), rows, p, now);
  }

  lemma StoresRecordIn(s: Schema, rows: seq<Row>, p: Payload, now: Instant)
    requires Upsert(s, rows, p, now).error == None
    ensures "id" in p
    ensures var o := Upsert(s, rows, p, now);
      exists k :: 0 <= k < |o.rows| && o.rows[k].data == p && Holds(o.rows[k], p["id"])
  {
    var o := Upsert(s, rows, p, now);
    var hits := Hits(rows, p["id"]);
    HitsExact(rows, p["id"]);
    if |hits| == 0 {
      assert o.rows[|rows|].data == p;
    } else {
      var k := hits[0];
      assert k in hits;
      assert o.rows[k].data == p;
    }
  }

  /** A successful save leaves a row that holds the payload verbatim. */
  lemma UpsertStoresRecord(kind: Kind, rows: seq<Row>, p: Payload, now: Instant)
    requires Upsert(SchemaOf(kind), rows, p, now).error == None
    ensures "id" in p
    ensures var o := Upsert(SchemaOf(kind), rows, p, now);
      exists k :: 0 <= k < |o.rows| && o.rows[k].data == p && Holds(o.rows[k], p["id"])
  {
    StoresRecordIn(SchemaOf(kind), rows, p, now);
  }

  /** A row that holds an id still holds it after any save. */
  lemma UpsertKeepsHolders(kind: Kind, rows: seq<Row>, p: Payload, now: Instant, k: nat, id: Value)
    requires k < |rows| && Holds(rows[k], id)
    ensures var o := Upsert(SchemaOf(kind), rows, p, now); k < |o.rows| && Holds(o.rows[k], id)
  {
    KeepsPositionsIn(SchemaOf(kind), rows, p, now);
  }
}
