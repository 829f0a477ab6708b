/** `prepare_for_input` in the source's own form, with the worker free to run before every
    call on its channels. Each statement is a step of the `PickerLoop` machine. */
module PickerSession {
  import opened Wrappers
  import opened PickerLoop
  import opened Traces

  class HomePicker<D(!new)> {
    var world: World<D>

    /** The worker may send updates and may end. Nothing else moves. */
    method WorkerRuns()
      requires Inv(world)
      modifies this
      ensures Inv(world) && forall w :: Reaches(Step, w, old(world)) ==> Reaches(Step, w, world)
      ensures world == old(world).(worker := world.worker, sent := world.sent)
      ensures old(world).sent <= world.sent
      ensures |world.sent| > |old(world).sent| ==> |world.sent| <= world.limit
      ensures old(world).worker != Running ==> world == old(world)
    {
    }

    method Act(w': World<D>)
      requires Inv(world) && Step(world, w')
      modifies this
      ensures world == w' && Inv(world) && forall w :: Reaches(Step, w, old(world)) ==> Reaches(Step, w, world)
    {
      StepKeeps(world, w');
      forall w | Reaches(Step, w, world) ensures Reaches(Step, w, w') {
        ReachesNext(Step, w, world, w');
      }
      world := w';
    }

    /** The worker's result when it has ended; it is then joined. */
    method TryFinish() returns (result: Option<bool>)
      requires Inv(world) && world.pc == Top
      modifies this
      ensures Inv(world) && forall w :: Reaches(Step, w, old(world)) ==> Reaches(Step, w, world)
      ensures old(world).worker.Done? ==> result == Some(old(world).worker.ok)
      ensures result.Some? ==> !old(world).worker.Joined? && world.worker == Joined(result.value)
      ensures old(world).worker.Joined? ==> result.None? && world.worker == old(world).worker
      ensures old(world).worker.Joined? ==> world.sent == old(world).sent
      ensures world.pc == Polled(result) && world.app == old(world).app && world.taken == old(world).taken
      ensures world.limit == old(world).limit && world.base == old(world).base
      ensures |world.sent| > |old(world).sent| ==> |world.sent| <= world.limit
    {
      WorkerRuns();
      result := if world.worker.Done? then Some(world.worker.ok) else None;
      Act(if world.worker.Done? then world.(worker := Joined(world.worker.ok), pc := Polled(result))
          else world.(pc := Polled(result)));
    }

    /** Receives and applies one update, or finds the channel empty. */
    method TakeNext() returns (more: bool)
      requires Inv(world) && world.pc.Polled?
      modifies this
      ensures Inv(world) && forall w :: Reaches(Step, w, old(world)) ==> Reaches(Step, w, world)
      ensures world.limit == old(world).limit && world.base == old(world).base
      ensures |world.sent| >= |old(world).sent|
      ensures |world.sent| > |old(world).sent| ==> |world.sent| <= world.limit
      ensures more ==> world.pc == old(world).pc && world.taken == old(world).taken + 1 && world.dirty
      ensures !more ==> world.pc == Drained(old(world).pc.result) && world.taken == |world.sent|
      ensures old(world).pc.result.Some? ==> world.sent == old(world).sent
      ensures world.app.tick == old(world).app.tick && world.app.finished == old(world).app.finished
    {
      WorkerRuns();
      more := world.taken < |world.sent|;
      if more {
        var w' := world.(app := Apply(world.app, world.sent[world.taken], world.app.chosen), taken := world.taken + 1,
                         dirty := true);
        assert TakeUpdate(world, w');
        Act(w');
      } else {
        Act(world.(pc := Drained(world.pc.result)));
      }
    }

    /** Marks the round finished if its worker was seen to have ended, and draws if needed. */
    method SettleAndDraw(due: bool)
      requires Inv(world) && world.pc.Drained?
      modifies this
      ensures Inv(world) && forall w :: Reaches(Step, w, old(world)) ==> Reaches(Step, w, world)
      ensures world.pc == AwaitingInput && world.base == old(world).base
      ensures old(world).pc.result.Some? ==> world.app.finished
      ensures old(world).pc.result.None? ==> world.app.finished == old(world).app.finished
      ensures world.sent == old(world).sent && world.taken == old(world).taken && world.worker == old(world).worker
      ensures due || old(world).dirty || old(world).pc.result.Some? ==> world.drawn == Some(world.app)
      ensures world.app.tick == old(world).app.tick + if due && !world.app.finished then 1 else 0
    {
      var app := Settled(world.app, world.pc.result, due);
      var w' := world.(app := app,
                       drawn := if world.dirty || world.pc.result.Some? || due then Some(app) else world.drawn,
                       dirty := false, pc := AwaitingInput,
                       cleared := !(world.dirty || world.pc.result.Some? || due) && world.cleared);
      assert DrawIfDirty(world, due, w');
      Act(w');
    }

    /** One turn of the loop up to waiting for input: poll the worker, drain its channel, mark
        the round finished, draw. The screen is then current; and if the worker had ended, the
        round is finished with every update it ever sent applied. */
    method PrepareForInput(due: bool)
      requires Inv(world) && world.pc == Top
      modifies this
      ensures Inv(world) && Reaches(Step, old(world), world)
      ensures world.pc == AwaitingInput && world.base == old(world).base
      ensures !world.dirty && OnScreen(world) && (due ==> world.drawn == Some(world.app))
      ensures world.app.tick == old(world).app.tick + if due && !world.app.finished then 1 else 0
      ensures old(world).worker.Done? ==>
                world.app.finished && world.app.rows == FinishRows(ApplyAll(world.base.rows, world.sent))
    {
      ReachesItself(Step, world);
      var finished := TryFinish();
      Drain();
      SettleAndDraw(due);
      assert world.sent[..|world.sent|] == world.sent;
    }

    /** The drain loop. It ends because a round's updates are limited. */
    method Drain()
      requires Inv(world) && world.pc.Polled?
      modifies this
      ensures Inv(world) && forall w :: Reaches(Step, w, old(world)) ==> Reaches(Step, w, world)
      ensures world.pc == Drained(old(world).pc.result) && world.taken == |world.sent| && world.base == old(world).base
      ensures world.app.tick == old(world).app.tick && world.app.finished == old(world).app.finished
    {
      var more := true;
      ghost var bound := if |world.sent| > world.limit then |world.sent| else world.limit;
      ghost var result := world.pc.result;
      while more
        invariant Inv(world) && world.base == old(world).base
        invariant world.app.tick == old(world).app.tick && world.app.finished == old(world).app.finished
        invariant forall w :: Reaches(Step, w, old(world)) ==> Reaches(Step, w, world)
        invariant world.pc == if more then Polled(result) else Drained(result)
        invariant world.taken <= |world.sent| <= bound && world.limit <= bound
        invariant !more ==> world.taken == |world.sent|
        decreases more, bound - world.taken
      {
        more := TakeNext();
      }
    }
  }
}
