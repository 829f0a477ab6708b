/** The home picker's event loop and its background inspection worker, as interleaved steps
    (crates/jig-agents-tui/src/runtime.rs, crates/jig-agents-tui/src/runtime/mouse.rs,
    crates/jig-agents-tui/src/model/app.rs). Drawing, key maps and filtering are reduced to what
    they may change. */
module PickerLoop {
  import opened Wrappers

  datatype Inspection<D> = Loading | Inspected(details: D) | Unavailable

  datatype Row<D> = Row(reported: bool, refreshing: bool, inspection: Inspection<D>)

  /** `lastClick` is the home last clicked on, which the screen does not show. Whether a second click
      comes in time is left open. */
  datatype App<D> = App(rows: seq<Row<D>>, completed: nat, finished: bool, failed: bool, chosen: Option<nat>,
                        tick: nat, focusHomes: bool, lastClick: Option<nat>)

  datatype Update<D> = Update(index: nat, details: D)

  datatype Worker = Running | Done(ok: bool) | Joined(ok: bool)

  datatype UiPc =
    | Top
    | Polled(result: Option<bool>)
    | Drained(result: Option<bool>)
    | AwaitingInput
    | Exited(selected: Option<nat>)

  /** One round's channel is `sent`, of which `taken` were received. `limit` bounds what the
      inspection source emits in a round. `drawn` is the application last drawn. Two more are
      history: `base` is the application when the round began, and `cleared` tells that a click
      since the last draw has cleared the mark of an earlier one. */
  datatype World<D> = World(app: App<D>, drawn: Option<App<D>>, dirty: bool, pc: UiPc, worker: Worker,
                            sent: seq<Update<D>>, taken: nat, limit: nat, base: App<D>, cleared: bool)

  // ---- the application's own operations ----

  function ApplyRow<D>(rows: seq<Row<D>>, update: Update<D>): seq<Row<D>> {
    if update.index < |rows| then rows[update.index := Row(true, false, Inspected(update.details))] else rows
  }

  /** `apply_update`: an unknown index is recorded as an error. `chosen` is what selection
      reconciliation picks. */
  function Apply<D>(app: App<D>, update: Update<D>, chosen: Option<nat>): App<D> {
    if update.index < |app.rows| then
      app.(rows := ApplyRow(app.rows, update), chosen := chosen,
           completed := if app.rows[update.index].reported then app.completed else app.completed + 1)
    else app.(failed := true)
  }

  function FinishRow<D>(row: Row<D>): Row<D> {
    row.(refreshing := false, inspection := if row.inspection.Loading? then Unavailable else row.inspection)
  }

  function FinishRows<D>(rows: seq<Row<D>>): (r: seq<Row<D>>)
    ensures |r| == |rows| && forall i | 0 <= i < |rows| :: r[i] == FinishRow(rows[i])
  {
    seq(|rows|, i requires 0 <= i < |rows| => FinishRow(rows[i]))
  }

  function Finish<D>(app: App<D>, ok: bool): App<D> {
    app.(rows := FinishRows(app.rows), finished := true, failed := app.failed || !ok)
  }

  function RefreshRow<D>(row: Row<D>): Row<D> {
    match row.inspection
    case Inspected(_) => row.(reported := false, refreshing := true)
    case _ => row.(reported := false, inspection := Loading)
  }

  function RefreshRows<D>(rows: seq<Row<D>>): (r: seq<Row<D>>)
    ensures |r| == |rows| && forall i | 0 <= i < |rows| :: r[i] == RefreshRow(rows[i])
  {
    seq(|rows|, i requires 0 <= i < |rows| => RefreshRow(rows[i]))
  }

  function BeginRefresh<D>(app: App<D>): App<D> {
    app.(rows := RefreshRows(app.rows), finished := false, failed := false, completed := 0)
  }

  // ---- steps ----

  ghost predicate WorkerStep<D>(w: World<D>, w': World<D>) {
    && w.worker == Running
    && (|| (|w.sent| < w.limit && |w'.sent| == |w.sent| + 1 && w' == w.(sent := w.sent + [w'.sent[|w.sent|]]))
        || (exists ok: bool :: w' == w.(worker := Done(ok))))
  }

  /** `try_finish`, before the channel is drained. */
  ghost predicate Poll<D>(w: World<D>, w': World<D>) {
    && w.pc == Top
    && w' == if w.worker.Done? then w.(worker := Joined(w.worker.ok), pc := Polled(Some(w.worker.ok)))
             else w.(pc := Polled(None))
  }

  ghost predicate TakeUpdate<D>(w: World<D>, w': World<D>) {
    && w.pc.Polled? && w.taken < |w.sent|
    && exists chosen ::
         w' == w.(app := Apply(w.app, w.sent[w.taken], chosen), taken := w.taken + 1, dirty := true)
  }

  ghost predicate StopDraining<D>(w: World<D>, w': World<D>) {
    w.pc.Polled? && w.taken == |w.sent| && w' == w.(pc := Drained(w.pc.result))
  }

  /** The application after the finish mark and the redraw timer. */
  function Settled<D>(app: App<D>, result: Option<bool>, due: bool): App<D> {
    var marked := if result.Some? then Finish(app, result.value) else app;
    if due && !marked.finished then marked.(tick := marked.tick + 1) else marked
  }

  ghost predicate DrawIfDirty<D>(w: World<D>, due: bool, w': World<D>) {
    && w.pc.Drained?
    && var app := Settled(w.app, w.pc.result, due);
    var dirty := w.dirty || w.pc.result.Some? || due;
    w' == w.(app := app, drawn := if dirty then Some(app) else w.drawn, dirty := false, pc := AwaitingInput,
             cleared := !dirty && w.cleared)
  }

  /** What a redraw action may change: anything but the inspection state. */
  ghost predicate UserChange<D>(app: App<D>, app': App<D>) {
    app' == app.(chosen := app'.chosen, tick := app'.tick, focusHomes := app'.focusHomes, lastClick := app'.lastClick)
  }

  ghost predicate Input<D>(w: World<D>, w': World<D>) {
    && w.pc == AwaitingInput
    && (|| w' == w.(pc := Top)
        || StrayClick(w, w')
        || (UserChange(w.app, w'.app) && w' == w.(pc := Top, app := w'.app, dirty := true))
        || Refresh(w, w')
        || Select(w, w')
        || w' == w.(pc := Exited(None)))
  }

  /** A refresh is offered only when the previous round is finished; its channel is new. */
  ghost predicate Refresh<D>(w: World<D>, w': World<D>) {
    && w.app.finished
    && exists limit: nat ::
         var app := BeginRefresh(w.app);
         w' == w.(pc := Top, app := app, base := app, dirty := true, worker := Running, sent := [], taken := 0,
                  limit := limit)
  }

  /** A click outside every area is ignored, but for the mark of the click before. */
  ghost predicate StrayClick<D>(w: World<D>, w': World<D>) {
    w' == w.(pc := Top, app := w.app.(lastClick := None), cleared := w.cleared || w.app.lastClick.Some?)
  }

  ghost predicate Select<D>(w: World<D>, w': World<D>) {
    KeySelect(w, w') || DoubleClick(w, w')
  }

  /** Enter selects as the application stands. */
  ghost predicate KeySelect<D>(w: World<D>, w': World<D>) {
    w' == w.(pc := if w.app.chosen.Some? && w.app.chosen.value < |w.app.rows| then Exited(w.app.chosen) else Top)
  }

  /** A second click on the chosen home in time first moves the focus to the homes and clears the
      mark of the first, without a redraw, and then selects. */
  ghost predicate DoubleClick<D>(w: World<D>, w': World<D>) {
    && w.app.lastClick.Some? && w.app.chosen == w.app.lastClick && w.app.chosen.value < |w.app.rows|
    && w' == w.(app := w.app.(focusHomes := true, lastClick := None), pc := Exited(w.app.chosen))
  }

  ghost predicate UiStep<D>(w: World<D>, w': World<D>) {
    || Poll(w, w') || TakeUpdate(w, w') || StopDraining(w, w')
    || DrawIfDirty(w, true, w') || DrawIfDirty(w, false, w') || Input(w, w')
  }

  ghost predicate Step<D>(w: World<D>, w': World<D>) {
    WorkerStep(w, w') || UiStep(w, w')
  }

  ghost predicate Initial<D>(w: World<D>) {
    && (forall i | 0 <= i < |w.app.rows| :: w.app.rows[i] == Row(false, false, Loading))
    && w.app.completed == 0 && !w.app.finished
    && w.drawn.None? && w.dirty && w.pc == Top && !w.worker.Done?
    && w.sent == [] && w.taken == 0 && w.base == w.app
  }

  ghost predicate Run<D>(trace: seq<World<D>>) {
    |trace| > 0 && forall k | 0 <= k < |trace| - 1 :: Step(trace[k], trace[k + 1])
  }

  // ---- the invariant ----

  function ApplyAll<D>(rows: seq<Row<D>>, updates: seq<Update<D>>): (r: seq<Row<D>>)
    ensures |r| == |rows|
  {
    if updates == [] then rows
    else ApplyRow(ApplyAll(rows, updates[..|updates| - 1]), updates[|updates| - 1])
  }

  function Reported<D>(rows: seq<Row<D>>): nat {
    if rows == [] then 0 else Reported(rows[1..]) + if rows[0].reported then 1 else 0
  }

  /** What the screen shows of an application. */
  function Shown<D>(app: App<D>): App<D> {
    app.(lastClick := None)
  }

  /** Some update is for a home that there is not. */
  ghost predicate UnknownHome<D>(rows: seq<Row<D>>, updates: seq<Update<D>>) {
    exists k | 0 <= k < |updates| :: updates[k].index >= |rows|
  }

  lemma UnknownStep<D>(rows: seq<Row<D>>, updates: seq<Update<D>>, update: Update<D>)
    ensures UnknownHome(rows, updates + [update]) <==> UnknownHome(rows, updates) || update.index >= |rows|
  {
    if UnknownHome(rows, updates) {
      var k :| 0 <= k < |updates| && updates[k].index >= |rows|;
      assert (updates + [update])[k] == updates[k];
    }
    assert (updates + [update])[|updates|] == update;
  }

  ghost predicate Inv<D>(w: World<D>) {
    && w.taken <= |w.sent|
    // The rows are the round's own updates, applied in the order they were sent.
    && w.app.rows == (if w.app.finished then FinishRows(ApplyAll(w.base.rows, w.sent[..w.taken]))
                      else ApplyAll(w.base.rows, w.sent[..w.taken]))
    && w.app.completed == Reported(w.app.rows)
    // An error is recorded exactly for an unknown home or a worker that failed.
    && (w.app.failed <==> w.base.failed || UnknownHome(w.base.rows, w.sent[..w.taken])
                          || (w.app.finished && w.worker.Joined? && !w.worker.ok))
    // Once the worker's end was seen, the channel only shrinks; once marked, it is empty.
    && (w.app.finished ==> w.worker.Joined? && w.taken == |w.sent|)
    && ((w.pc.Polled? || w.pc.Drained?) && w.pc.result.Some? ==>
          w.worker == Joined(w.pc.result.value) && !w.app.finished)
    && (w.pc.Drained? && w.pc.result.Some? ==> w.taken == |w.sent|)
    // What is not dirty is on the screen, but for a cleared mark.
    && (!w.dirty && !w.pc.Exited? ==> OnScreen(w))
    && (w.pc == AwaitingInput ==> !w.dirty)
  }

  ghost predicate OnScreen<D>(w: World<D>) {
    && w.drawn.Some?
    && w.app == (if w.cleared then w.drawn.value.(lastClick := None) else w.drawn.value)
    && (w.cleared ==> w.drawn.value.lastClick.Some?)
  }

  lemma ReportedAt<D>(rows: seq<Row<D>>, i: nat, row: Row<D>)
    requires i < |rows|
    ensures Reported(rows[i := row]) + (if rows[i].reported then 1 else 0) ==
            Reported(rows) + if row.reported then 1 else 0
  {
    if i == 0 {
      assert rows[0 := row][1..] == rows[1..];
    } else {
      ReportedAt(rows[1..], i - 1, row);
      assert rows[i := row][1..] == rows[1..][i - 1 := row];
    }
  }

  lemma {:induction false} SameReported<D>(rows: seq<Row<D>>, rows': seq<Row<D>>)
    requires |rows| == |rows'| && forall i | 0 <= i < |rows| :: rows'[i].reported == rows[i].reported
    ensures Reported(rows') == Reported(rows)
  {
    if rows != [] { SameReported(rows[1..], rows'[1..]); }
  }

  lemma {:induction false} NoneReported<D>(rows: seq<Row<D>>)
    requires forall i | 0 <= i < |rows| :: !rows[i].reported
    ensures Reported(rows) == 0
  {
    if rows != [] { NoneReported(rows[1..]); }
  }

  lemma InitialInv<D>(w: World<D>)
    requires Initial(w)
    ensures Inv(w)
  {
    NoneReported(w.app.rows);
  }

  lemma WorkerKeeps<D>(w: World<D>, w': World<D>)
    requires Inv(w) && WorkerStep(w, w')
    ensures Inv(w')
  {
    assert w'.sent[..w.taken] == w.sent[..w.taken];
  }

  lemma TakeKeeps<D>(w: World<D>, w': World<D>)
    requires Inv(w) && TakeUpdate(w, w')
    ensures Inv(w')
  {
    var update := w.sent[w.taken];
    assert w.sent[..w.taken + 1] == w.sent[..w.taken] + [update];
    assert !w.app.finished;
    UnknownStep(w.base.rows, w.sent[..w.taken], update);
    if update.index < |w.app.rows| {
      ReportedAt(w.app.rows, update.index, Row(true, false, Inspected(update.details)));
    }
  }

  lemma DrawKeeps<D>(w: World<D>, due: bool, w': World<D>)
    requires Inv(w) && DrawIfDirty(w, due, w')
    ensures Inv(w')
  {
    if w.pc.result.Some? {
      SameReported(w.app.rows, FinishRows(w.app.rows));
    }
  }

  lemma RefreshKeeps<D>(w: World<D>, w': World<D>)
    requires Inv(w) && Refresh(w, w')
    ensures Inv(w')
  {
    NoneReported(w'.app.rows);
  }

  lemma PollKeeps<D>(w: World<D>, w': World<D>)
    requires Inv(w) && (Poll(w, w') || StopDraining(w, w'))
    ensures Inv(w')
  {
  }

  /** Input other than a refresh leaves the round alone. */
  lemma InputKeeps<D>(w: World<D>, w': World<D>)
    requires Inv(w) && Input(w, w') && !Refresh(w, w')
    ensures Inv(w')
  {
    assert w'.app.rows == w.app.rows && w'.app.completed == w.app.completed && w'.app.finished == w.app.finished;
    assert w'.sent == w.sent && w'.taken == w.taken && w'.base == w.base && w'.worker == w.worker;
  }

  lemma StepKeeps<D>(w: World<D>, w': World<D>)
    requires Inv(w) && Step(w, w')
    ensures Inv(w')
  {
    if WorkerStep(w, w') { WorkerKeeps(w, w'); }
    else if Poll(w, w') || StopDraining(w, w') { PollKeeps(w, w'); }
    else if TakeUpdate(w, w') { TakeKeeps(w, w'); }
    else if DrawIfDirty(w, true, w') { DrawKeeps(w, true, w'); }
    else if DrawIfDirty(w, false, w') { DrawKeeps(w, false, w'); }
    else if Refresh(w, w') { RefreshKeeps(w, w'); }
    else { InputKeeps(w, w'); }
  }

  lemma {:induction false} RunKeeps<D>(trace: seq<World<D>>, k: nat)
    requires Run(trace) && Initial(trace[0]) && k < |trace|
    ensures Inv(trace[k])
  {
    if k == 0 {
      InitialInv(trace[0]);
    } else {
      RunKeeps(trace, k - 1);
      StepKeeps(trace[k - 1], trace[k]);
    }
  }

  // ---- no update is lost, none is stale ----

  /** Whenever inspection is marked finished, the worker is gone and every update it sent in
      this round has been applied, in the order sent, to the rows the round began with; and at
      any time only this round's updates have been. */
  lemma NothingLostNothingStale<D>(trace: seq<World<D>>, k: nat)
    requires Run(trace) && Initial(trace[0]) && k < |trace|
    ensures var w := trace[k];
            && w.taken <= |w.sent|
            && (w.app.finished ==> w.worker.Joined? && w.app.rows == FinishRows(ApplyAll(w.base.rows, w.sent)))
            && (!w.app.finished ==> w.app.rows == ApplyAll(w.base.rows, w.sent[..w.taken]))
            && w.app.completed == Reported(w.app.rows) <= |w.app.rows|
  {
    RunKeeps(trace, k);
    var w := trace[k];
    assert w.sent[..|w.sent|] == w.sent;
    AtMostAll(w.app.rows);
  }

  lemma {:induction false} AtMostAll<D>(rows: seq<Row<D>>)
    ensures Reported(rows) <= |rows|
  {
    if rows != [] { AtMostAll(rows[1..]); }
  }

  /** The last update for row `i`. */
  function LastFor<D>(updates: seq<Update<D>>, i: nat): Option<D> {
    if updates == [] then None
    else
      var last := updates[|updates| - 1];
      if last.index == i then Some(last.details) else LastFor(updates[..|updates| - 1], i)
  }

  /** A row shows the last update of the round for it; without one it shows what it showed when
      the round began. */
  lemma {:induction false} LastUpdateShows<D>(rows: seq<Row<D>>, updates: seq<Update<D>>, i: nat)
    requires i < |rows|
    ensures var last := LastFor(updates, i);
            ApplyAll(rows, updates)[i] == if last.Some? then Row(true, false, Inspected(last.value)) else rows[i]
  {
    if updates != [] { LastUpdateShows(rows, updates[..|updates| - 1], i); }
  }

  /** A finished round leaves no row loading or refreshing. */
  lemma FinishedRowsAreSettled<D>(trace: seq<World<D>>, k: nat, i: nat)
    requires Run(trace) && Initial(trace[0]) && k < |trace|
    requires trace[k].app.finished && i < |trace[k].app.rows|
    ensures !trace[k].app.rows[i].inspection.Loading? && !trace[k].app.rows[i].refreshing
  {
    RunKeeps(trace, k);
  }

  /** The rows of a finished round, as the user sees them: the last update that the round sent for
      a row, or what the row showed before, with nothing left loading. */
  lemma FinishedRowsShowLastUpdates<D>(trace: seq<World<D>>, k: nat, i: nat)
    requires Run(trace) && Initial(trace[0]) && k < |trace|
    requires trace[k].app.finished && i < |trace[k].app.rows|
    ensures var w := trace[k];
            var last := LastFor(w.sent, i);
            && i < |w.base.rows|
            && w.app.rows[i] == if last.Some? then Row(true, false, Inspected(last.value))
                else FinishRow(w.base.rows[i])
  {
    NothingLostNothingStale(trace, k);
    LastUpdateShows(trace[k].base.rows, trace[k].sent, i);
  }

  // ---- what a refresh keeps ----

  /** A row while its round goes on or is over, by what it showed when the round began and by the
      last update of the round for it. */
  ghost predicate IsRowOfRound<D>(row: Row<D>, sample: Option<D>, last: Option<D>, finished: bool) {
    if last.Some? then row == Row(true, false, Inspected(last.value))
    else if sample.Some? then row == Row(false, !finished, Inspected(sample.value))
    else row == Row(false, false, if finished then Unavailable else Loading)
  }

  function SampleOf<D>(row: Row<D>): Option<D> {
    if row.inspection.Inspected? then Some(row.inspection.details) else None
  }

  /** No new round begins between two states. */
  ghost predicate SameRound<D>(trace: seq<World<D>>, k: nat, m: nat)
    requires k <= m < |trace|
  {
    forall j | k <= j < m :: !Refresh(trace[j], trace[j + 1])
  }

  lemma StepKeepsBase<D>(w: World<D>, w': World<D>)
    requires Step(w, w') && !Refresh(w, w')
    ensures w'.base == w.base
  {
  }

  lemma {:induction false} RoundKeepsBase<D>(trace: seq<World<D>>, k: nat, m: nat)
    requires Run(trace) && k <= m < |trace| && SameRound(trace, k, m)
    ensures trace[m].base == trace[k].base
  {
    if k < m {
      RoundKeepsBase(trace, k, m - 1);
      assert Step(trace[m - 1], trace[m - 1 + 1]) && !Refresh(trace[m - 1], trace[m - 1 + 1]);
      StepKeepsBase(trace[m - 1], trace[m]);
    }
  }

  /** Through a round, every row keeps the sample it had when the refresh began, marked as
      refreshing, until an update for it comes, and without one also when the round is over; a row
      that had none is loading, and then unavailable. */
  lemma RefreshKeepsSamples<D>(trace: seq<World<D>>, k: nat, m: nat, i: nat)
    requires Run(trace) && Initial(trace[0]) && k < m < |trace|
    requires Refresh(trace[k], trace[k + 1]) && SameRound(trace, k + 1, m) && i < |trace[k].app.rows|
    ensures var w := trace[m];
            && |w.app.rows| == |trace[k].app.rows| && w.taken <= |w.sent|
            && (w.app.finished ==> w.taken == |w.sent|)
            && IsRowOfRound(w.app.rows[i], SampleOf(trace[k].app.rows[i]), LastFor(w.sent[..w.taken], i),
                            w.app.finished)
  {
    RunKeeps(trace, k);
    RunKeeps(trace, m);
    RoundKeepsBase(trace, k + 1, m);
    var w := trace[m];
    assert w.base == BeginRefresh(trace[k].app);
    FinishedRowsAreSettled(trace, k, i);
    LastUpdateShows(w.base.rows, w.sent[..w.taken], i);
  }

  /** In the first round no row has a sample to keep. */
  lemma FirstRoundRows<D>(trace: seq<World<D>>, m: nat, i: nat)
    requires Run(trace) && Initial(trace[0]) && m < |trace| && SameRound(trace, 0, m) && i < |trace[0].app.rows|
    ensures var w := trace[m];
            && |w.app.rows| == |trace[0].app.rows| && w.taken <= |w.sent|
            && IsRowOfRound(w.app.rows[i], None, LastFor(w.sent[..w.taken], i), w.app.finished)
  {
    RunKeeps(trace, m);
    RoundKeepsBase(trace, 0, m);
    LastUpdateShows(trace[m].base.rows, trace[m].sent[..trace[m].taken], i);
  }

  /** An inspection error shows exactly when this round had an update for an unknown home or its
      worker failed. */
  lemma ErrorsOfTheRound<D>(trace: seq<World<D>>, k: nat, m: nat)
    requires Run(trace) && Initial(trace[0]) && k < m < |trace|
    requires Refresh(trace[k], trace[k + 1]) && SameRound(trace, k + 1, m)
    ensures var w := trace[m];
            w.taken <= |w.sent| &&
            (w.app.failed <==> UnknownHome(trace[k].app.rows, w.sent[..w.taken])
                               || (w.app.finished && w.worker.Joined? && !w.worker.ok))
  {
    RunKeeps(trace, m);
    RoundKeepsBase(trace, k + 1, m);
    assert trace[m].base == BeginRefresh(trace[k].app);
  }

  // ---- what a selection acts on ----

  /** Every selection acts on the rows and the choice last drawn. The application it acts on is the
      drawn one exactly for a key, when no click has cleared a mark since; and it looks like the
      drawn one exactly for a key or when the homes had the focus. */
  lemma SelectActsOnTheScreen<D>(trace: seq<World<D>>, k: nat)
    requires Run(trace) && Initial(trace[0]) && k + 1 < |trace|
    requires trace[k].pc == AwaitingInput && Select(trace[k], trace[k + 1])
    ensures var w, w' := trace[k], trace[k + 1];
            && w.drawn.Some?
            && w'.app == w.drawn.value.(focusHomes := w'.app.focusHomes, lastClick := w'.app.lastClick)
            && (w'.pc.Exited? ==> w'.pc.selected == w.drawn.value.chosen)
            && (w'.app == w.drawn.value <==> KeySelect(w, w') && !w.cleared)
            && (Shown(w'.app) == Shown(w.drawn.value) <==> KeySelect(w, w') || w.drawn.value.focusHomes)
  {
    RunKeeps(trace, k);
    assert OnScreen(trace[k]);
  }

  lemma Longer<D>(trace: seq<World<D>>, w: World<D>) returns (longer: seq<World<D>>)
    requires Run(trace) && Step(trace[|trace| - 1], w)
    ensures longer == trace + [w] && Run(longer)
  {
    longer := trace + [w];
    forall k | 0 <= k < |longer| - 1 ensures Step(longer[k], longer[k + 1]) {
      if k < |trace| - 1 { assert Step(trace[k], trace[k + 1]); }
    }
  }

  /** One quiet turn of the loop draws what is dirty. */
  lemma QuietTurn<D>(trace: seq<World<D>>) returns (longer: seq<World<D>>)
    requires Run(trace)
    requires var w := trace[|trace| - 1]; w.pc == Top && w.worker == Running && w.taken == |w.sent| && w.dirty
    ensures Run(longer) && longer[0] == trace[0]
    ensures var w := trace[|trace| - 1];
            longer[|longer| - 1] == w.(drawn := Some(w.app), dirty := false, pc := AwaitingInput, cleared := false)
  {
    var w := trace[|trace| - 1];
    longer := Longer(trace, w.(pc := Polled(None)));
    longer := Longer(longer, w.(pc := Drained(None)));
    var drawn := w.(drawn := Some(w.app), dirty := false, pc := AwaitingInput, cleared := false);
    assert DrawIfDirty(w.(pc := Drained(None)), false, drawn);
    longer := Longer(longer, drawn);
  }

  lemma InputTurn<D>(trace: seq<World<D>>, app: App<D>) returns (longer: seq<World<D>>)
    requires Run(trace)
    requires var w := trace[|trace| - 1];
             w.pc == AwaitingInput && w.worker == Running && w.taken == |w.sent| && UserChange(w.app, app)
    ensures Run(longer) && longer[0] == trace[0]
    ensures var w := trace[|trace| - 1];
            longer[|longer| - 1] == w.(app := app, drawn := Some(app), dirty := false, pc := AwaitingInput,
                                       cleared := false)
  {
    var w := trace[|trace| - 1];
    var changed := w.(pc := Top, app := app, dirty := true);
    assert Input(w, changed);
    longer := Longer(trace, changed);
    longer := QuietTurn(longer);
  }

  /** A double click that does not act on the drawn application, nor on one that looks like it: a
      click on the first home, the tab key, which takes the focus to the details, and the second
      click. */
  lemma DoubleClickFromDetails<D>(home: Row<D>) returns (trace: seq<World<D>>)
    requires home == Row(false, false, Loading)
    ensures Run(trace) && Initial(trace[0]) && |trace| > 1
    ensures var w, w' := trace[|trace| - 2], trace[|trace| - 1];
            && w.pc == AwaitingInput && DoubleClick(w, w') && w'.pc == Exited(Some(0))
            && w.drawn.Some? && Shown(w'.app) != Shown(w.drawn.value)
            && !w.drawn.value.focusHomes && w'.app.focusHomes
  {
    var app := App([home], 0, false, false, Some(0), 0, true, None);
    var start := World(app, None, true, Top, Running, [], 0, 0, app, false);
    trace := QuietTurn([start]);
    trace := InputTurn(trace, app.(lastClick := Some(0)));
    trace := InputTurn(trace, app.(lastClick := Some(0), focusHomes := false));
    var w := trace[|trace| - 1];
    var w' := w.(app := w.app.(focusHomes := true, lastClick := None), pc := Exited(Some(0)));
    assert DoubleClick(w, w');
    assert Input(w, w');
    trace := Longer(trace, w');
  }
}
