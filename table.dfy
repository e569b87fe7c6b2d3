/** The report table as a value: which table bodies exist on the page, the rows by id, and the order
    the rows were appended in. `Declare` is `createPendingRow` and `Update` is `updateRow`. */
module Table {
  import opened Verdicts

  /** A row's status cell: Pending until a result arrives, then Clear or Flagged with its detail text. */
  datatype RowState = Pending | Clear(detail: string) | Flagged(detail: string)

  datatype Row = Row(tableId: string, name: string, state: RowState)

  datatype Report = Report(tables: set<string>, rows: map<string, Row>, order: seq<string>)

  /** The page before any row exists. */
  function Empty(tables: set<string>): (r: Report)
    ensures Valid(r) && r.rows == map[] && r.tables == tables
  {
    Report(tables, map[], [])
  }

  /** Every row is listed once in the append order, and sits in a table body that exists. */
  ghost predicate Valid(r: Report)
  {
    && (forall id :: id in r.rows <==> id in r.order)
    && (forall i, j :: 0 <= i < j < |r.order| ==> r.order[i] != r.order[j])
    && (forall id :: id in r.rows ==> r.rows[id].tableId in r.tables)
  }

  /** `createPendingRow(tableId, checkName, checkId)`: a Pending row is appended to the table body,
      unless the table body is missing or a row with that id already exists. */
  function Declare(t: Report, tableId: string, checkName: string, checkId: string): (r: Report)
    ensures r.tables == t.tables
    ensures tableId !in t.tables || checkId in t.rows ==> r == t
    ensures tableId in t.tables && checkId !in t.rows ==>
      && r.rows.Keys == t.rows.Keys + {checkId}
      && r.rows[checkId] == Row(tableId, checkName, Pending)
      && r.order == t.order + [checkId]
    ensures forall id :: id in t.rows ==> id in r.rows && r.rows[id] == t.rows[id]
  {
    if tableId !in t.tables || checkId in t.rows then t
    else t.(rows := t.rows[checkId := Row(tableId, checkName, Pending)], order := t.order + [checkId])
  }

  /** A declaration keeps the table consistent: the new id is appended once, into a body that exists. */
  lemma DeclareValid(t: Report, tableId: string, checkName: string, checkId: string)
    requires Valid(t)
    ensures Valid(Declare(t, tableId, checkName, checkId))
  {
  }

  /** Declaring an id again, under any table or name, changes nothing: the first declaration wins. */
  lemma DeclareIdempotent(t: Report, tableId: string, checkName: string, checkId: string,
                          tableId': string, checkName': string)
    requires tableId in t.tables
    ensures var once := Declare(t, tableId, checkName, checkId);
      Declare(once, tableId', checkName', checkId) == once
  {
  }

  /** The status a result string selects: Clear exactly for "pass", Flagged for any other string. */
  function StateOf(status: string, data: string): (s: RowState)
    ensures s.Clear? <==> status == PassStatus
    ensures s != Pending && s.detail == data
  {
    if status == PassStatus then Clear(data) else Flagged(data)
  }

  /** `updateRow(checkId, status, data)`: sets the status cell and the detail of an existing row. */
  function Update(t: Report, checkId: string, status: string, data: string): (r: Report)
    ensures r.tables == t.tables && r.order == t.order && r.rows.Keys == t.rows.Keys
    ensures checkId !in t.rows ==> r == t
    ensures forall id :: id in t.rows && id != checkId ==> r.rows[id] == t.rows[id]
    ensures checkId in t.rows ==>
      && r.rows[checkId].tableId == t.rows[checkId].tableId
      && r.rows[checkId].name == t.rows[checkId].name
      && r.rows[checkId].state != Pending
      && (r.rows[checkId].state.Clear? <==> status == PassStatus)
      && r.rows[checkId].state.detail == data
  {
    if checkId !in t.rows then t
    else t.(rows := t.rows[checkId := t.rows[checkId].(state := StateOf(status, data))])
  }

  /** A later update of the same row replaces the earlier one: the last write wins. */
  lemma UpdateLastWins(t: Report, checkId: string, status: string, data: string, status': string, data': string)
    ensures Update(Update(t, checkId, status, data), checkId, status', data') == Update(t, checkId, status', data')
  {
    if checkId in t.rows {
      var row := t.rows[checkId];
      var first := row.(state := StateOf(status, data));
      assert t.rows[checkId := first][checkId := first.(state := StateOf(status', data'))]
          == t.rows[checkId := row.(state := StateOf(status', data'))];
    }
  }

  /** Updates of different rows commute. */
  lemma UpdatesCommute(t: Report, id1: string, s1: string, d1: string, id2: string, s2: string, d2: string)
    requires id1 != id2
    ensures Update(Update(t, id1, s1, d1), id2, s2, d2) == Update(Update(t, id2, s2, d2), id1, s1, d1)
  {
    if id1 in t.rows && id2 in t.rows {
      var row1, row2 := t.rows[id1].(state := StateOf(s1, d1)), t.rows[id2].(state := StateOf(s2, d2));
      assert t.rows[id1 := row1][id2 := row2] == t.rows[id2 := row2][id1 := row1];
    }
  }
}
