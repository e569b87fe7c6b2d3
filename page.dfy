/** The report page as an object: the table bodies it was loaded with, the rows it holds and the order they
    were appended in. Its methods are `createPendingRow`, `updateRow`, `initializeReportUI`, the per-check
    callback of `runSystemCheck` and `runSystemCheck` itself, each proved against the functions of
    `Table` and `Dispatch` that describe them. */
module Page {
  import opened Verdicts
  import opened Table
  import opened Registry
  import opened Dispatch

  class ReportPage {
    var tables: set<string>
    var rows: map<string, Row>
    var order: seq<string>

    /** What the page shows. */
    function Model(): Report
      reads this
    {
      Report(tables, rows, order)
    }

    /** A freshly loaded page: the table bodies exist and hold no rows. */
    constructor(tables: set<string>)
      ensures Model() == Empty(tables)
    {
      this.tables := tables;
      rows := map[];
      order := [];
    }

    /** `createPendingRow`: appends a Pending row unless the table body is missing or the id is taken. */
    method CreatePendingRow(tableId: string, checkName: string, checkId: string)
      modifies this
      ensures Model() == Declare(old(Model()), tableId, checkName, checkId)
    {
      if tableId !in tables || checkId in rows {
        return;
      }
      rows := rows[checkId := Row(tableId, checkName, Pending)];
      order := order + [checkId];
    }

    /** `updateRow`: an existing row shows Clear for "pass" and Flagged otherwise, with `data` as detail. */
    method UpdateRow(checkId: string, status: string, data: string)
      modifies this
      ensures Model() == Update(old(Model()), checkId, status, data)
    {
      if checkId !in rows {
        return;
      }
      var state := if status == PassStatus then Clear(data) else Flagged(data);
      rows := rows[checkId := rows[checkId].(state := state)];
    }

    /** `initializeReportUI`: one declaration step per registry entry, in registry order. */
    method InitializeReportUI()
      modifies this
      ensures Model() == InitTable(old(Model()), AllChecks)
    {
      ghost var initial := Model();
      for i := 0 to |AllChecks|
        invariant Model() == InitTable(initial, AllChecks[..i])
      {
        var check := AllChecks[i];
        if check.checkId == CamerasId {
          CreatePendingRow(check.tableId, "Connected Cameras", CamerasId);
          CreatePendingRow(check.tableId, "Connected Microphones", MicsId);
        } else if check.checkId != MicsId {
          CreatePendingRow(check.tableId, check.checkName, check.checkId);
        }
        InitTablePrefix(initial, AllChecks, i);
      }
      assert AllChecks[..|AllChecks|] == AllChecks;
    }

    /** The callback `runSystemCheck` attaches to one check's promise. */
    method OnSettled(check: Check, outcome: Outcome)
      modifies this
      ensures Model() == Complete(old(Model()), Completion(check, outcome))
    {
      match outcome
      case Threw =>
        UpdateRow(check.checkId, FlaggedStatus, ErrorDetail);
      case Returned(result) =>
        if check.checkId == CamerasId || check.checkId == MicsId {
          match result
          case Keyed(cameras, mics) =>
            if cameras.Some? {
              UpdateRow(CamerasId, cameras.value.status, cameras.value.data);
            }
            if mics.Some? {
              UpdateRow(MicsId, mics.value.status, mics.value.data);
            }
          case Single(_) =>
        } else {
          match result
          case Single(v) => UpdateRow(check.checkId, v.status, v.data);
          case Keyed(_, _) => UpdateRow(check.checkId, "", "");
        }
    }

    /** The callbacks of the checks' promises, delivered one at a time in the order the checks settle. */
    method SettleInOrder(run: seq<Completion>)
      modifies this
      ensures Model() == ApplyAll(old(Model()), run)
    {
      ghost var initial := Model();
      for i := 0 to |run|
        invariant Model() == ApplyAll(initial, run[..i])
      {
        OnSettled(run[i].check, run[i].outcome);
        ApplyAllPrefix(initial, run, i);
      }
      assert run[..|run|] == run;
    }

    /** `runSystemCheck`: the Pending rows first, then each check's callback in the order the checks
        settle. `outcomes[k]` is how entry `k` settled and `settleOrder` lists the entries as they did. */
    method RunSystemCheck(outcomes: seq<Outcome>, settleOrder: seq<nat>)
      requires |outcomes| == |AllChecks| && IsPermutation(settleOrder, |AllChecks|)
      modifies this
      ensures Model() == ApplyAll(InitTable(old(Model()), AllChecks), RunOf(AllChecks, outcomes, settleOrder))
    {
      InitializeReportUI();
      SettleInOrder(RunOf(AllChecks, outcomes, settleOrder));
    }
  }
}
