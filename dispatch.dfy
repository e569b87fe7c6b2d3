/** `initializeReportUI` and the per-check callback of `runSystemCheck` as functions on the report,
    and a run as the initial declarations followed by the completions in an arbitrary order. */
module Dispatch {
  import opened Verdicts
  import opened Table
  import opened Registry
  import Rules

  /** What a check function resolves to: one `{ status, data }` verdict, or an object keyed by
      row id whose entries may be missing (the shape `checkMediaDevices` returns). */
  datatype CheckResult = Single(verdict: Verdict) | Keyed(cameras: Option<Verdict>, mics: Option<Verdict>)

  /** How one check's promise settled: with a result, or by throwing. */
  datatype Outcome = Returned(result: CheckResult) | Threw

  /** One registry entry whose check has settled. */
  datatype Completion = Completion(check: Check, outcome: Outcome)

  const ErrorDetail: string := "Error during check."

  /** The object `checkMediaDevices` returns always carries both sub-keys. */
  function MediaResult(m: Rules.MediaVerdicts): (r: CheckResult)
    ensures r.Keyed? && r.cameras == Some(m.cameras) && r.mics == Some(m.mics)
  {
    Keyed(Some(m.cameras), Some(m.mics))
  }

  /** How a media entry can settle: `checkMediaDevices` catches its own errors and always returns both
      sub-keys, and a throw from elsewhere is caught by the callback. */
  predicate FromMediaCheck(o: Outcome)
  {
    o.Threw? || (o.Returned? && o.result.Keyed? && o.result.cameras.Some? && o.result.mics.Some?)
  }

  lemma MediaResultFromMediaCheck(m: Rules.MediaVerdicts)
    ensures FromMediaCheck(Returned(MediaResult(m)))
  {
  }

  /** Whichever media entry it reaches, the result of `checkMediaDevices` writes both media rows, each
      with its own sub-result: both media rows are written twice in a run. */
  lemma MediaResultWritesBoth(c: Check, m: Rules.MediaVerdicts)
    requires IsMediaId(c.checkId)
    ensures var w := Writes(Completion(c, Returned(MediaResult(m))));
      && w.Keys == {CamerasId, MicsId}
      && w[CamerasId] == StateOf(m.cameras.status, m.cameras.data)
      && w[MicsId] == StateOf(m.mics.status, m.mics.data)
  {
    assert CamerasId != MicsId by { assert CamerasId[10] != MicsId[10]; }
  }

  // ------------------------------------------------------------ declaration

  /** The row ids one registry entry declares on a page with the given table bodies. */
  function EntryIds(c: Check, tables: set<string>): set<string>
  {
    if c.tableId !in tables || c.checkId == MicsId then {}
    else if c.checkId == CamerasId then {CamerasId, MicsId}
    else {c.checkId}
  }

  /** One step of `initializeReportUI`: the cameras entry declares both media rows, the
      microphones entry declares none, every other entry declares its own row. */
  function DeclareEntry(t: Report, c: Check): (r: Report)
    ensures r.tables == t.tables
    ensures c.checkId == MicsId ==> r == t
  {
    if c.checkId == CamerasId then
      Declare(Declare(t, c.tableId, "Connected Cameras", CamerasId), c.tableId, "Connected Microphones", MicsId)
    else if c.checkId != MicsId then
      Declare(t, c.tableId, c.checkName, c.checkId)
    else
      t
  }

  /** A declaration step keeps the table consistent. */
  lemma DeclareEntryValid(t: Report, c: Check)
    requires Valid(t)
    ensures Valid(DeclareEntry(t, c))
  {
    if c.checkId == CamerasId {
      DeclareValid(t, c.tableId, "Connected Cameras", CamerasId);
      DeclareValid(Declare(t, c.tableId, "Connected Cameras", CamerasId), c.tableId, "Connected Microphones", MicsId);
    } else if c.checkId != MicsId {
      DeclareValid(t, c.tableId, c.checkName, c.checkId);
    }
  }

  /** Two declarations of distinct ids into one table body add both ids, or none when the body is missing. */
  lemma DeclareTwice(t: Report, tableId: string, name1: string, id1: string, name2: string, id2: string)
    requires id1 != id2
    ensures var r := Declare(Declare(t, tableId, name1, id1), tableId, name2, id2);
      && r.rows.Keys == t.rows.Keys + (if tableId in t.tables then {id1, id2} else {})
      && (forall id :: id in t.rows ==> r.rows[id] == t.rows[id])
      && (forall id :: id in r.rows && id !in t.rows ==> r.rows[id].state == Pending)
  {
    var first := Declare(t, tableId, name1, id1);
    assert first.rows.Keys == t.rows.Keys + (if tableId in t.tables then {id1} else {});
  }

  /** A declaration step adds exactly the ids the entry declares, as Pending rows, and keeps the rows
      that exist. */
  lemma DeclareEntryRows(t: Report, c: Check)
    ensures var r := DeclareEntry(t, c);
      && r.rows.Keys == t.rows.Keys + EntryIds(c, t.tables)
      && (forall id :: id in t.rows ==> r.rows[id] == t.rows[id])
      && (forall id :: id in r.rows && id !in t.rows ==> r.rows[id].state == Pending)
  {
    if c.checkId == CamerasId {
      assert CamerasId != MicsId by { assert CamerasId[10] != MicsId[10]; }
      DeclareTwice(t, c.tableId, "Connected Cameras", CamerasId, "Connected Microphones", MicsId);
    }
  }

  /** `registry.forEach(...)` of `initializeReportUI`. */
  function InitTable(t: Report, registry: seq<Check>): (r: Report)
    ensures r.tables == t.tables
  {
    if registry == [] then t
    else DeclareEntry(InitTable(t, registry[..|registry| - 1]), registry[|registry| - 1])
  }

  /** Declaring one more entry of a registry. */
  lemma InitTablePrefix(t: Report, registry: seq<Check>, i: nat)
    requires i < |registry|
    ensures InitTable(t, registry[..i + 1]) == DeclareEntry(InitTable(t, registry[..i]), registry[i])
  {
    assert registry[..i + 1][..i] == registry[..i];
  }

  /** The row ids a registry declares on a page with the given table bodies. */
  function DeclaredIds(registry: seq<Check>, tables: set<string>): set<string>
  {
    if registry == [] then {}
    else DeclaredIds(registry[..|registry| - 1], tables) + EntryIds(registry[|registry| - 1], tables)
  }

  /** Declaration keeps the rows, the append order and the table bodies consistent. */
  lemma {:induction false} InitTableValid(t: Report, registry: seq<Check>)
    requires Valid(t)
    ensures Valid(InitTable(t, registry))
  {
    if registry != [] {
      InitTableValid(t, registry[..|registry| - 1]);
      DeclareEntryValid(InitTable(t, registry[..|registry| - 1]), registry[|registry| - 1]);
    }
  }

  /** Declaration adds exactly the declared ids. */
  lemma {:induction false} InitTableKeys(t: Report, registry: seq<Check>)
    ensures InitTable(t, registry).rows.Keys == t.rows.Keys + DeclaredIds(registry, t.tables)
  {
    if registry != [] {
      InitTableKeys(t, registry[..|registry| - 1]);
      DeclareEntryRows(InitTable(t, registry[..|registry| - 1]), registry[|registry| - 1]);
    }
  }

  /** Declaration leaves the rows that already exist alone. */
  lemma {:induction false} InitTableKeeps(t: Report, registry: seq<Check>)
    ensures forall id :: id in t.rows ==> id in InitTable(t, registry).rows && InitTable(t, registry).rows[id] == t.rows[id]
  {
    if registry != [] {
      InitTableKeeps(t, registry[..|registry| - 1]);
      DeclareEntryRows(InitTable(t, registry[..|registry| - 1]), registry[|registry| - 1]);
    }
  }

  /** Every row declaration adds is Pending. */
  lemma {:induction false} InitTablePending(t: Report, registry: seq<Check>)
    ensures var r := InitTable(t, registry);
      forall id :: id in r.rows && id !in t.rows ==> r.rows[id].state == Pending
  {
    if registry != [] {
      InitTablePending(t, registry[..|registry| - 1]);
      DeclareEntryRows(InitTable(t, registry[..|registry| - 1]), registry[|registry| - 1]);
    }
  }

  /** Declaration adds exactly the declared ids, as Pending rows, and leaves existing rows alone. */
  lemma InitTableRows(t: Report, registry: seq<Check>)
    ensures var r := InitTable(t, registry);
      && r.rows.Keys == t.rows.Keys + DeclaredIds(registry, t.tables)
      && (forall id :: id in t.rows ==> r.rows[id] == t.rows[id])
      && (forall id :: id in r.rows && id !in t.rows ==> r.rows[id].state == Pending)
  {
    InitTableKeys(t, registry);
    InitTableKeeps(t, registry);
    InitTablePending(t, registry);
  }

  lemma CheckIdsSnoc(registry: seq<Check>)
    requires registry != []
    ensures CheckIds(registry) == CheckIds(registry[..|registry| - 1]) + {registry[|registry| - 1].checkId}
  {
    var init, last := registry[..|registry| - 1], registry[|registry| - 1];
    assert registry == init + [last];
    forall id | id in CheckIds(registry) ensures id in CheckIds(init) + {last.checkId} {
      var c :| c in registry && c.checkId == id;
      if c != last { assert c in init; }
    }
    forall id | id in CheckIds(init) ensures id in CheckIds(registry) {
      var c :| c in init && c.checkId == id;
      assert c in registry;
    }
  }

  /** With every table body present, the declared ids are the registry's ids, with the microphones row
      standing or falling with the cameras entry rather than its own. */
  lemma {:induction false} DeclaredIdsAllTables(registry: seq<Check>, tables: set<string>)
    requires TableIds(registry) <= tables
    ensures DeclaredIds(registry, tables)
         == (CheckIds(registry) - {MicsId}) + (if CamerasId in CheckIds(registry) then {MicsId} else {})
  {
    if registry != [] {
      var init, last := registry[..|registry| - 1], registry[|registry| - 1];
      assert last in registry;
      assert last.tableId in TableIds(registry);
      assert TableIds(init) <= tables by {
        forall x | x in TableIds(init) ensures x in tables {
          var c :| c in init && c.tableId == x;
          assert c in registry;
          assert x in TableIds(registry);
        }
      }
      DeclaredIdsAllTables(init, tables);
      CheckIdsSnoc(registry);
    }
  }

  /** After `initializeReportUI` on a page with every table body, for a registry holding both media
      entries, the rows are exactly the registry's ids, all Pending. */
  lemma InitRegistry(registry: seq<Check>, tables: set<string>)
    requires TableIds(registry) <= tables
    requires CamerasId in CheckIds(registry) && MicsId in CheckIds(registry)
    ensures var r := InitTable(Empty(tables), registry);
      && r.rows.Keys == CheckIds(registry)
      && (forall id :: id in r.rows ==> r.rows[id].state == Pending)
  {
    var e := Empty(tables);
    InitTableRows(e, registry);
    DeclaredIdsAllTables(registry, tables);
    assert (CheckIds(registry) - {MicsId}) + {MicsId} == CheckIds(registry);
    assert e.rows.Keys == {};
  }

  /** `initializeReportUI` on the real registry: the cameras entry has declared the microphones row,
      so every id of `ALL_CHECKS` has a Pending row and there is no other row. */
  lemma InitAllChecks(tables: set<string>)
    requires TableIds(AllChecks) <= tables
    ensures var r := InitTable(Empty(tables), AllChecks);
      && Valid(r)
      && r.rows.Keys == CheckIds(AllChecks)
      && (forall id :: id in r.rows ==> r.rows[id].state == Pending)
  {
    MediaRegisteredTwice();
    assert AllChecks[CamerasIndex] in AllChecks && AllChecks[MicsIndex] in AllChecks;
    InitTableValid(Empty(tables), AllChecks);
    InitRegistry(AllChecks, tables);
  }

  // ------------------------------------------------------------- completion

  /** `if (result[id]) updateRow(id, ...)`: a present sub-key updates its row, a missing one does nothing. */
  function UpdateIfPresent(t: Report, id: string, sub: Option<Verdict>): (r: Report)
    ensures r.tables == t.tables && r.order == t.order && r.rows.Keys == t.rows.Keys
    ensures sub.None? ==> r == t
    ensures forall other :: other in t.rows && other != id ==> r.rows[other] == t.rows[other]
    ensures sub.Some? && id in t.rows ==> r.rows[id].state == StateOf(sub.value.status, sub.value.data)
  {
    match sub
    case None => t
    case Some(v) => Update(t, id, v.status, v.data)
  }

  /** The callback of `runSystemCheck` once a check has settled. A media entry reads the two sub-keys
      of its result; any other entry reads `status` and `data` (a keyed result has neither, so the row
      gets a non-"pass" status and empty text); a thrown error flags the entry's own row. */
  function Complete(t: Report, c: Completion): (r: Report)
    ensures r.tables == t.tables && r.order == t.order && r.rows.Keys == t.rows.Keys
  {
    match c.outcome
    case Threw => Update(t, c.check.checkId, FlaggedStatus, ErrorDetail)
    case Returned(result) =>
      if IsMediaId(c.check.checkId) then
        match result
        case Keyed(cameras, mics) => UpdateIfPresent(UpdateIfPresent(t, CamerasId, cameras), MicsId, mics)
        case Single(_) => t
      else
        match result
        case Single(v) => Update(t, c.check.checkId, v.status, v.data)
        case Keyed(_, _) => Update(t, c.check.checkId, "", "")
  }

  function SubWrite(id: string, sub: Option<Verdict>): map<string, RowState>
  {
    match sub
    case None => map[]
    case Some(v) => map[id := StateOf(v.status, v.data)]
  }

  /** The state each row id is given by a completion, independently of what the table holds. */
  function Writes(c: Completion): (w: map<string, RowState>)
    ensures !IsMediaId(c.check.checkId) ==> w.Keys == {c.check.checkId}
    ensures IsMediaId(c.check.checkId) ==> w.Keys <= {CamerasId, MicsId}
    ensures forall id :: id in w ==> w[id] != Pending
  {
    match c.outcome
    case Threw => map[c.check.checkId := Flagged(ErrorDetail)]
    case Returned(result) =>
      if IsMediaId(c.check.checkId) then
        match result
        case Keyed(cameras, mics) => SubWrite(CamerasId, cameras) + SubWrite(MicsId, mics)
        case Single(_) => map[]
      else
        match result
        case Single(v) => map[c.check.checkId := StateOf(v.status, v.data)]
        case Keyed(_, _) => map[c.check.checkId := Flagged("")]
  }

  /** The rows named in `w` that exist take their new state; nothing else changes. */
  function Overwrite(t: Report, w: map<string, RowState>): (r: Report)
    ensures r.tables == t.tables && r.order == t.order && r.rows.Keys == t.rows.Keys
  {
    t.(rows := map id | id in t.rows :: if id in w then t.rows[id].(state := w[id]) else t.rows[id])
  }

  lemma UpdateOverwrites(t: Report, id: string, status: string, data: string)
    ensures Update(t, id, status, data) == Overwrite(t, map[id := StateOf(status, data)])
  {
    var r, o := Update(t, id, status, data), Overwrite(t, map[id := StateOf(status, data)]);
    assert r.rows == o.rows;
  }

  lemma UpdateIfPresentOverwrites(t: Report, id: string, sub: Option<Verdict>)
    ensures UpdateIfPresent(t, id, sub) == Overwrite(t, SubWrite(id, sub))
  {
    if sub.Some? {
      UpdateOverwrites(t, id, sub.value.status, sub.value.data);
    } else {
      assert Overwrite(t, map[]).rows == t.rows;
    }
  }

  lemma OverwriteTwice(t: Report, w1: map<string, RowState>, w2: map<string, RowState>)
    ensures Overwrite(Overwrite(t, w1), w2) == Overwrite(t, w1 + w2)
  {
    var r, o := Overwrite(Overwrite(t, w1), w2), Overwrite(t, w1 + w2);
    assert r.rows == o.rows;
  }

  /** Each completion does exactly what `Writes` says to the rows that exist. */
  lemma CompleteWrites(t: Report, c: Completion)
    ensures Complete(t, c) == Overwrite(t, Writes(c))
  {
    var id := c.check.checkId;
    match c.outcome
    case Threw =>
      UpdateOverwrites(t, id, FlaggedStatus, ErrorDetail);
    case Returned(result) =>
      if IsMediaId(id) {
        match result
        case Keyed(cameras, mics) =>
          UpdateIfPresentOverwrites(t, CamerasId, cameras);
          UpdateIfPresentOverwrites(UpdateIfPresent(t, CamerasId, cameras), MicsId, mics);
          OverwriteTwice(t, SubWrite(CamerasId, cameras), SubWrite(MicsId, mics));
        case Single(_) =>
          assert Overwrite(t, map[]).rows == t.rows;
      } else {
        match result
        case Single(v) => UpdateOverwrites(t, id, v.status, v.data);
        case Keyed(_, _) => UpdateOverwrites(t, id, "", "");
      }
  }

  /** The dispatch rules: a thrown error flags only the entry's own row with the fixed message; a
      single-row entry touches only its own row; a media entry touches the two media rows only where
      its result carries the sub-key, so a missing sub-key leaves that row as it was. */
  lemma CompleteRules(t: Report, c: Completion)
    ensures var r := Complete(t, c);
      && r.tables == t.tables && r.order == t.order && r.rows.Keys == t.rows.Keys
      && (c.outcome.Threw? ==> r == Update(t, c.check.checkId, FlaggedStatus, ErrorDetail))
      && (c.outcome.Threw? && c.check.checkId in t.rows ==>
            r.rows[c.check.checkId].state == Flagged(ErrorDetail))
      && (!IsMediaId(c.check.checkId) ==>
            forall id :: id in t.rows && id != c.check.checkId ==> r.rows[id] == t.rows[id])
      && (IsMediaId(c.check.checkId) ==>
            forall id :: id in t.rows && !IsMediaId(id) ==> r.rows[id] == t.rows[id])
      && (IsMediaId(c.check.checkId) && c.outcome.Returned? && c.outcome.result.Keyed? ==>
            && (c.outcome.result.cameras.None? && CamerasId in t.rows ==> r.rows[CamerasId] == t.rows[CamerasId])
            && (c.outcome.result.mics.None? && MicsId in t.rows ==> r.rows[MicsId] == t.rows[MicsId]))
  {
    CompleteWrites(t, c);
  }

  // -------------------------------------------------------------------- runs

  /** The completions applied in the order given. */
  function ApplyAll(t: Report, run: seq<Completion>): (r: Report)
    ensures r.tables == t.tables && r.order == t.order && r.rows.Keys == t.rows.Keys
    ensures forall id :: id in t.rows ==>
      r.rows[id].tableId == t.rows[id].tableId && r.rows[id].name == t.rows[id].name
  {
    if run == [] then t
    else
      var before := ApplyAll(t, run[..|run| - 1]);
      CompleteWrites(before, run[|run| - 1]);
      Complete(before, run[|run| - 1])
  }

  /** Applying one more completion of a run. */
  lemma ApplyAllPrefix(t: Report, run: seq<Completion>, i: nat)
    requires i < |run|
    ensures ApplyAll(t, run[..i + 1]) == Complete(ApplyAll(t, run[..i]), run[i])
  {
    assert run[..i + 1][..i] == run[..i];
  }

  /** Writing states keeps the table consistent: ids, order and table bodies stay as they were. */
  lemma OverwriteValid(t: Report, w: map<string, RowState>)
    requires Valid(t)
    ensures Valid(Overwrite(t, w))
  {
  }

  /** A run keeps the table consistent: it changes neither the ids, nor the order, nor where rows sit. */
  lemma {:induction false} ApplyAllValid(t: Report, run: seq<Completion>)
    requires Valid(t)
    ensures Valid(ApplyAll(t, run))
  {
    if run != [] {
      var before := ApplyAll(t, run[..|run| - 1]);
      ApplyAllValid(t, run[..|run| - 1]);
      CompleteWrites(before, run[|run| - 1]);
      OverwriteValid(before, Writes(run[|run| - 1]));
    }
  }

  /** The last completion that writes a row decides it. */
  lemma LastWriteWins(t: Report, run: seq<Completion>, id: string)
    requires run != [] && id in t.rows && id in Writes(run[|run| - 1])
    ensures ApplyAll(t, run).rows[id].state == Writes(run[|run| - 1])[id]
  {
    CompleteWrites(ApplyAll(t, run[..|run| - 1]), run[|run| - 1]);
  }

  /** Completions that give a common row the same state. */
  ghost predicate Agree(w1: map<string, RowState>, w2: map<string, RowState>)
  {
    forall id :: id in w1 && id in w2 ==> w1[id] == w2[id]
  }

  /** Any two completions of the run agree on every row both write. */
  ghost predicate Compatible(run: seq<Completion>)
  {
    forall c, d :: c in run && d in run ==> Agree(Writes(c), Writes(d))
  }

  /** Any two completions of the run that write row `id` give it the same state. */
  ghost predicate AgreeOn(run: seq<Completion>, id: string)
  {
    forall c, d :: c in run && d in run && id in Writes(c) && id in Writes(d) ==> Writes(c)[id] == Writes(d)[id]
  }

  /** A row nobody writes keeps its state; a row somebody writes is no longer Pending, and when the
      completions writing it agree, it ends in the state they give it, whatever the order. */
  lemma {:induction false} RowAfterRun(t: Report, run: seq<Completion>, id: string)
    requires id in t.rows
    ensures (forall c :: c in run ==> id !in Writes(c)) ==> ApplyAll(t, run).rows[id] == t.rows[id]
    ensures (exists c :: c in run && id in Writes(c)) ==> ApplyAll(t, run).rows[id].state != Pending
    ensures AgreeOn(run, id) ==>
      forall c :: c in run && id in Writes(c) ==> ApplyAll(t, run).rows[id].state == Writes(c)[id]
  {
    if run != [] {
      var init, last := run[..|run| - 1], run[|run| - 1];
      assert run == init + [last];
      assert forall c :: c in init ==> c in run;
      assert AgreeOn(run, id) ==> AgreeOn(init, id);
      RowAfterRun(t, init, id);
      CompleteWrites(ApplyAll(t, init), last);
    }
  }

  /** Order independence: two runs made of the same completions give the same table when
      no two of them disagree about a row. */
  lemma OrderIndependent(t: Report, run1: seq<Completion>, run2: seq<Completion>)
    requires forall c :: c in run1 <==> c in run2
    requires Compatible(run1)
    ensures ApplyAll(t, run1) == ApplyAll(t, run2)
  {
    var r1, r2 := ApplyAll(t, run1), ApplyAll(t, run2);
    forall id | id in t.rows ensures r1.rows[id] == r2.rows[id] {
      assert AgreeOn(run1, id) && AgreeOn(run2, id);
      RowAfterRun(t, run1, id);
      RowAfterRun(t, run2, id);
      if c :| c in run1 && id in Writes(c) {
        assert r1.rows[id].state == r2.rows[id].state;
      }
    }
    assert r1.rows == r2.rows;
  }

  // ------------------------------------------------------- runs of a registry

  /** `order` lists each of the indices `0 .. n - 1` once: the order in which the checks settle. */
  ghost predicate IsPermutation(order: seq<nat>, n: nat)
  {
    && |order| == n
    && (forall i :: 0 <= i < |order| ==> order[i] < n)
    && (forall k :: 0 <= k < n ==> k in order)
  }

  /** The elements of `s` in the order `order` names them. */
  function Permute<T>(s: seq<T>, order: seq<nat>): seq<T>
    requires forall i :: 0 <= i < |order| ==> order[i] < |s|
  {
    seq(|order|, i requires 0 <= i < |order| => s[order[i]])
  }

  /** A permutation keeps exactly the elements. */
  lemma PermuteMembers<T>(s: seq<T>, order: seq<nat>)
    requires IsPermutation(order, |s|)
    ensures forall x :: x in Permute(s, order) <==> x in s
  {
    var r := Permute(s, order);
    forall x | x in s ensures x in r {
      var k :| 0 <= k < |s| && s[k] == x;
      assert k in order;
      var i :| 0 <= i < |order| && order[i] == k;
      assert r[i] == x;
    }
  }

  /** Entry `k` of the registry settling with `outcomes[k]`, in registry order. */
  function Settled(registry: seq<Check>, outcomes: seq<Outcome>): (s: seq<Completion>)
    requires |outcomes| == |registry|
    ensures |s| == |registry| && forall k :: 0 <= k < |s| ==> s[k].check == registry[k]
    ensures forall k :: 0 <= k < |s| ==> s[k] == Completion(registry[k], outcomes[k])
  {
    seq(|registry|, k requires 0 <= k < |registry| => Completion(registry[k], outcomes[k]))
  }

  /** `runSystemCheck` after `initializeReportUI`: every entry settles once, in the order given. */
  function RunOf(registry: seq<Check>, outcomes: seq<Outcome>, order: seq<nat>): (run: seq<Completion>)
    requires |outcomes| == |registry| && forall i :: 0 <= i < |order| ==> order[i] < |registry|
    ensures |run| == |order|
    ensures forall i :: 0 <= i < |order| ==> run[i] == Completion(registry[order[i]], outcomes[order[i]])
  {
    Permute(Settled(registry, outcomes), order)
  }

  /** In a registry without repeated ids, entry `j` other than the media entries writes only its own
      row, and the media entries write only the media rows. */
  lemma WritersOf(registry: seq<Check>, outcomes: seq<Outcome>, j: nat, id: string)
    requires |outcomes| == |registry| && j < |registry|
    requires id in Writes(Settled(registry, outcomes)[j])
    ensures IsMediaId(registry[j].checkId) || id == registry[j].checkId
    ensures IsMediaId(registry[j].checkId) ==> IsMediaId(id)
  {
  }

  /** With distinct ids, any two completions of the run agree once the two media rows' writers agree. */
  lemma SettledCompatible(registry: seq<Check>, outcomes: seq<Outcome>)
    requires |outcomes| == |registry| && UniqueIds(registry)
    requires forall i, j :: 0 <= i < j < |registry| && IsMediaId(registry[i].checkId) && IsMediaId(registry[j].checkId) ==>
      Agree(Writes(Completion(registry[i], outcomes[i])), Writes(Completion(registry[j], outcomes[j])))
    ensures Compatible(Settled(registry, outcomes))
  {
    var s := Settled(registry, outcomes);
    forall c, d | c in s && d in s ensures Agree(Writes(c), Writes(d)) {
      var i :| 0 <= i < |s| && s[i] == c;
      var j :| 0 <= j < |s| && s[j] == d;
      forall id | id in Writes(c) && id in Writes(d) ensures Writes(c)[id] == Writes(d)[id] {
        WritersOf(registry, outcomes, i, id);
        WritersOf(registry, outcomes, j, id);
        if i < j {
          assert Agree(Writes(s[i]), Writes(s[j]));
        } else if j < i {
          assert Agree(Writes(s[j]), Writes(s[i]));
        }
      }
    }
  }

  /** The two media entries agree about the rows both write. */
  ghost predicate MediaAgree(outcomes: seq<Outcome>)
    requires |outcomes| == |AllChecks|
  {
    Agree(Writes(Completion(AllChecks[CamerasIndex], outcomes[CamerasIndex])),
          Writes(Completion(AllChecks[MicsIndex], outcomes[MicsIndex])))
  }

  /** Both media entries run the same check function, so equal outcomes agree: a media result writes the
      same rows whichever media entry it reached, and a throw flags only the entry's own row. */
  lemma SameMediaOutcomeAgrees(outcomes: seq<Outcome>)
    requires |outcomes| == |AllChecks| && outcomes[CamerasIndex] == outcomes[MicsIndex]
    ensures MediaAgree(outcomes)
  {
    MediaRegisteredTwice();
  }

  /** Order independence of `runSystemCheck`: on any table, two settling orders of the registry give the
      same rows, unless the two media entries disagree about a media row. */
  lemma RunOrderIndependent(t: Report, outcomes: seq<Outcome>, order1: seq<nat>, order2: seq<nat>)
    requires |outcomes| == |AllChecks|
    requires IsPermutation(order1, |AllChecks|) && IsPermutation(order2, |AllChecks|)
    requires MediaAgree(outcomes)
    ensures ApplyAll(t, RunOf(AllChecks, outcomes, order1)) == ApplyAll(t, RunOf(AllChecks, outcomes, order2))
  {
    var s := Settled(AllChecks, outcomes);
    MediaRegisteredTwice();
    AllChecksUniqueIds();
    SettledCompatible(AllChecks, outcomes);
    PermuteMembers(s, order1);
    PermuteMembers(s, order2);
    var run1, run2 := RunOf(AllChecks, outcomes, order1), RunOf(AllChecks, outcomes, order2);
    assert Compatible(run1) by {
      forall c, d | c in run1 && d in run1 ensures Agree(Writes(c), Writes(d)) {
        assert c in s && d in s;
      }
    }
    OrderIndependent(t, run1, run2);
  }

  /** In a registry with distinct ids, only entry `k` writes the row of a non-media entry `k`, so the
      completions of a run agree on it. */
  lemma OwnRowAgreed(registry: seq<Check>, outcomes: seq<Outcome>, order: seq<nat>, k: nat)
    requires UniqueIds(registry) && |outcomes| == |registry| && IsPermutation(order, |registry|)
    requires k < |registry| && !IsMediaId(registry[k].checkId)
    ensures AgreeOn(RunOf(registry, outcomes, order), registry[k].checkId)
  {
    var id := registry[k].checkId;
    var s := Settled(registry, outcomes);
    var run := RunOf(registry, outcomes, order);
    PermuteMembers(s, order);
    forall c, d | c in run && d in run && id in Writes(c) && id in Writes(d)
      ensures Writes(c)[id] == Writes(d)[id]
    {
      var i :| 0 <= i < |s| && s[i] == c;
      var j :| 0 <= j < |s| && s[j] == d;
      WritersOf(registry, outcomes, i, id);
      WritersOf(registry, outcomes, j, id);
    }
  }

  /** In a registry with distinct ids, a row other than the media rows ends in the state its own
      check's outcome gives it, whatever the settling order. */
  lemma OwnRowAfterRun(t: Report, registry: seq<Check>, outcomes: seq<Outcome>, order: seq<nat>, k: nat)
    requires UniqueIds(registry) && |outcomes| == |registry| && IsPermutation(order, |registry|)
    requires k < |registry| && !IsMediaId(registry[k].checkId) && registry[k].checkId in t.rows
    ensures var id := registry[k].checkId;
      ApplyAll(t, RunOf(registry, outcomes, order)).rows[id].state == Writes(Completion(registry[k], outcomes[k]))[id]
  {
    var id := registry[k].checkId;
    var s := Settled(registry, outcomes);
    var run := RunOf(registry, outcomes, order);
    var own := s[k];
    assert own == Completion(registry[k], outcomes[k]);
    PermuteMembers(s, order);
    assert own in run && id in Writes(own);
    OwnRowAgreed(registry, outcomes, order, k);
    RowAfterRun(t, run, id);
  }

  /** No entry's outcome writes row `id`. */
  ghost predicate Unwritten(registry: seq<Check>, outcomes: seq<Outcome>, id: string)
    requires |outcomes| == |registry|
  {
    forall k :: 0 <= k < |registry| ==> id !in Writes(Completion(registry[k], outcomes[k]))
  }

  /** A row no entry's outcome writes is a row no completion of the run writes. */
  lemma UnwrittenInRun(registry: seq<Check>, outcomes: seq<Outcome>, order: seq<nat>, id: string)
    requires |outcomes| == |registry| && IsPermutation(order, |registry|)
    ensures Unwritten(registry, outcomes, id) <==> forall c :: c in RunOf(registry, outcomes, order) ==> id !in Writes(c)
  {
    var s := Settled(registry, outcomes);
    PermuteMembers(s, order);
    if !Unwritten(registry, outcomes, id) {
      var k :| 0 <= k < |registry| && id in Writes(s[k]);
      assert s[k] in RunOf(registry, outcomes, order);
    }
  }

  /** A Pending row stays Pending through a run exactly when no check's outcome writes it. */
  lemma PendingAfterRun(t: Report, registry: seq<Check>, outcomes: seq<Outcome>, order: seq<nat>, id: string)
    requires |outcomes| == |registry| && IsPermutation(order, |registry|)
    requires id in t.rows && t.rows[id].state == Pending
    ensures ApplyAll(t, RunOf(registry, outcomes, order)).rows[id].state == Pending <==> Unwritten(registry, outcomes, id)
  {
    UnwrittenInRun(registry, outcomes, order, id);
    RowAfterRun(t, RunOf(registry, outcomes, order), id);
  }

  /** On a table of Pending rows, the rows a run leaves Pending are exactly those no outcome writes. */
  lemma PendingRowsAfterRun(t: Report, registry: seq<Check>, outcomes: seq<Outcome>, order: seq<nat>)
    requires |outcomes| == |registry| && IsPermutation(order, |registry|)
    requires forall id :: id in t.rows ==> t.rows[id].state == Pending
    ensures var r := ApplyAll(t, RunOf(registry, outcomes, order));
      forall id :: id in r.rows ==>
        (r.rows[id].state == Pending <==> Unwritten(registry, outcomes, id))
  {
    forall id | id in t.rows
      ensures ApplyAll(t, RunOf(registry, outcomes, order)).rows[id].state == Pending <==> Unwritten(registry, outcomes, id)
    {
      PendingAfterRun(t, registry, outcomes, order, id);
    }
  }

  /** Once `runSystemCheck` has finished, in any settling order, each row other than the media rows is
      in the state its own check's outcome gives it, whenever the registry's ids are distinct. */
  lemma RunOwnRows(t: Report, registry: seq<Check>, outcomes: seq<Outcome>, order: seq<nat>)
    requires UniqueIds(registry) && |outcomes| == |registry| && IsPermutation(order, |registry|)
    requires forall k :: 0 <= k < |registry| ==> registry[k].checkId in t.rows
    ensures var r := ApplyAll(t, RunOf(registry, outcomes, order));
      forall k :: 0 <= k < |registry| && !IsMediaId(registry[k].checkId) ==>
        r.rows[registry[k].checkId].state == Writes(Completion(registry[k], outcomes[k]))[registry[k].checkId]
  {
    forall k | 0 <= k < |registry| && !IsMediaId(registry[k].checkId)
      ensures ApplyAll(t, RunOf(registry, outcomes, order)).rows[registry[k].checkId].state
           == Writes(Completion(registry[k], outcomes[k]))[registry[k].checkId]
    {
      OwnRowAfterRun(t, registry, outcomes, order, k);
    }
  }

  /** Every entry of a registry has its row once `initializeReportUI` has run. */
  lemma InitRegistryHasEntries(registry: seq<Check>, tables: set<string>)
    requires TableIds(registry) <= tables
    requires CamerasId in CheckIds(registry) && MicsId in CheckIds(registry)
    ensures forall k :: 0 <= k < |registry| ==> registry[k].checkId in InitTable(Empty(tables), registry).rows
  {
    InitRegistry(registry, tables);
    forall k | 0 <= k < |registry| ensures registry[k].checkId in CheckIds(registry) {
      assert registry[k] in registry;
    }
  }

  /** `ALL_CHECKS` has distinct ids and holds both media entries. */
  lemma AllChecksRunnable()
    ensures UniqueIds(AllChecks) && CamerasId in CheckIds(AllChecks) && MicsId in CheckIds(AllChecks)
  {
    AllChecksUniqueIds();
    MediaRegisteredTwice();
    assert AllChecks[CamerasIndex] in AllChecks && AllChecks[MicsIndex] in AllChecks;
  }

  /** Without agreement the order matters: two results of `checkMediaDevices` that give the cameras
      row different states leave whichever settled last. */
  lemma DisagreeingMediaResultsDependOnOrder(t: Report, c1: Check, c2: Check, m1: Rules.MediaVerdicts, m2: Rules.MediaVerdicts)
    requires IsMediaId(c1.checkId) && IsMediaId(c2.checkId)
    requires CamerasId in t.rows
    requires StateOf(m1.cameras.status, m1.cameras.data) != StateOf(m2.cameras.status, m2.cameras.data)
    ensures var first := Completion(c1, Returned(MediaResult(m1)));
      var second := Completion(c2, Returned(MediaResult(m2)));
      ApplyAll(t, [first, second]) != ApplyAll(t, [second, first])
  {
    var first := Completion(c1, Returned(MediaResult(m1)));
    var second := Completion(c2, Returned(MediaResult(m2)));
    MediaResultWritesBoth(c1, m1);
    MediaResultWritesBoth(c2, m2);
    LastWriteWins(t, [first, second], CamerasId);
    LastWriteWins(t, [second, first], CamerasId);
  }

  // ------------------------------------------------------- every row resolves

  /** An entry whose outcome is possible writes its own row; a media one writes both media rows
      unless it threw. So every id of the registry is written by some outcome. */
  lemma EveryIdWritten(registry: seq<Check>, outcomes: seq<Outcome>, id: string)
    requires |outcomes| == |registry| && id in CheckIds(registry)
    requires forall k :: 0 <= k < |registry| && IsMediaId(registry[k].checkId) ==> FromMediaCheck(outcomes[k])
    ensures !Unwritten(registry, outcomes, id)
  {
    var c :| c in registry && c.checkId == id;
    var k :| 0 <= k < |registry| && registry[k] == c;
    var w := Writes(Completion(c, outcomes[k]));
    if IsMediaId(id) && outcomes[k].Returned? {
      assert CamerasId != MicsId by { assert CamerasId[10] != MicsId[10]; }
      assert w == SubWrite(CamerasId, outcomes[k].result.cameras) + SubWrite(MicsId, outcomes[k].result.mics);
    }
    assert id in w;
  }

  /** From a table whose rows are Pending rows of the registry's ids, a run leaves no row Pending,
      provided each media entry settled the way the media check can. */
  lemma NoRowPendingFrom(t: Report, registry: seq<Check>, outcomes: seq<Outcome>, order: seq<nat>)
    requires |outcomes| == |registry| && IsPermutation(order, |registry|)
    requires forall id :: id in t.rows ==> id in CheckIds(registry) && t.rows[id].state == Pending
    requires forall k :: 0 <= k < |registry| && IsMediaId(registry[k].checkId) ==> FromMediaCheck(outcomes[k])
    ensures var r := ApplyAll(t, RunOf(registry, outcomes, order));
      forall id :: id in r.rows ==> r.rows[id].state != Pending
  {
    PendingRowsAfterRun(t, registry, outcomes, order);
    forall id | id in t.rows ensures !Unwritten(registry, outcomes, id) {
      EveryIdWritten(registry, outcomes, id);
    }
  }

  /** Once every check of a registry holding both media entries has settled, no row is still Pending,
      provided each media entry settled the way the media check can. */
  lemma NoRowPendingAfterRun(registry: seq<Check>, tables: set<string>, outcomes: seq<Outcome>, order: seq<nat>)
    requires TableIds(registry) <= tables
    requires CamerasId in CheckIds(registry) && MicsId in CheckIds(registry)
    requires |outcomes| == |registry| && IsPermutation(order, |registry|)
    requires forall k :: 0 <= k < |registry| && IsMediaId(registry[k].checkId) ==> FromMediaCheck(outcomes[k])
    ensures var r := ApplyAll(InitTable(Empty(tables), registry), RunOf(registry, outcomes, order));
      forall id :: id in r.rows ==> r.rows[id].state != Pending
  {
    InitRegistry(registry, tables);
    NoRowPendingFrom(InitTable(Empty(tables), registry), registry, outcomes, order);
  }

  /** After `Promise.all` in `runSystemCheck`, every row of the report is resolved, in any settle order. */
  lemma NoRowPending(tables: set<string>, outcomes: seq<Outcome>, order: seq<nat>)
    requires TableIds(AllChecks) <= tables
    requires |outcomes| == |AllChecks| && IsPermutation(order, |AllChecks|)
    requires FromMediaCheck(outcomes[CamerasIndex]) && FromMediaCheck(outcomes[MicsIndex])
    ensures var r := ApplyAll(InitTable(Empty(tables), AllChecks), RunOf(AllChecks, outcomes, order));
      forall id :: id in r.rows ==> r.rows[id].state != Pending
  {
    MediaRegisteredTwice();
    AllChecksRunnable();
    NoRowPendingAfterRun(AllChecks, tables, outcomes, order);
  }
}
