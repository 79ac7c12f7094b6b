/**
 Why submissions are fresh: within one scheduler run on an empty task store, every id the store or a call
 knows was submitted before, and the id generator never repeats an id.
 */
module DeliveryIds {
  import opened Texts
  import opened RedisStores
  import opened Delivery
  import opened DeliveryRecords
  import opened DeliveryRetries
  import Snowflakes

  /** The ids submitted, in order. */
  function Submitted(actions: seq<Action>): seq<Text>
  {
    if actions == [] then [] else
    var a := actions[|actions| - 1];
    Submitted(actions[..|actions| - 1]) + if a.StartSubmit? then [a.task.id] else []
  }

  ghost predicate Distinct(ids: seq<Text>)
  {
    forall i, j :: 0 <= i < j < |ids| ==> ids[i] != ids[j]
  }

  /** Retries and completions name saved tasks. */
  ghost predicate NamesSaved(p: Proto, a: Action)
  {
    (a.StartRetry? || a.StartFinish?) ==> a.id in p.store.tasks
  }

  ghost predicate NamesSavedRun(actions: seq<Action>)
  {
    actions == [] ||
    (NamesSavedRun(actions[..|actions| - 1])
      && NamesSaved(Run(START, actions[..|actions| - 1]), actions[|actions| - 1]))
  }

  /** The id is saved, or a call carries it. */
  ghost predicate Known(p: Proto, id: Text)
  {
    id in p.store.tasks || exists t :: t in p.calls && p.calls[t].id == id
  }

  lemma CallStepKnows(s: Store, c: Call, x: Inputs, id: Text)
    ensures id in CallStep(s, c, x).0.tasks ==> id in s.tasks || id == c.id
  {
    hide ToString, Stoi, Stoll, Decode;
  }

  lemma AdvanceKnows(p: Proto, t: nat, x: Inputs, id: Text)
    requires t in p.calls && Known(Next(p, Advance(t, x)), id)
    ensures Known(p, id)
  {
    hide CallStep, CallTouch;
    var q := Next(p, Advance(t, x));
    CallStepKnows(p.store, p.calls[t], x, id);
    if p.calls[t].id != id && id !in q.store.tasks {
      var u :| u in q.calls && q.calls[u].id == id;
      assert u in p.calls && p.calls[u].id == id;
    }
  }

  lemma LoopStepKnows(p: Proto, x: Inputs, id: Text)
    requires Sound(p, id) && Known(Next(p, LoopStep(x)), id)
    ensures Known(p, id)
  {
    hide LoopNext, LoopTouch, Decode, QueuesFit, SubmittedOnce, CallFits, Drops;
    LoopStepKeepsFile(p.store, p.loop, x, id);
    assert Next(p, LoopStep(x)).calls == p.calls;
  }

  /** A step makes known only the id it submits. */
  lemma StepKnows(p: Proto, a: Action, id: Text)
    requires Sound(p, id) && Proper(p, a) && Known(Next(p, a), id)
    ensures Known(p, id) || (a.StartSubmit? && a.task.id == id)
  {
    hide CallStep, LoopNext, CallTouch, LoopTouch, Sound, Drops;
    var q := Next(p, a);
    if a.LoopStep? {
      LoopStepKnows(p, a.inputs, id);
    } else if a.Advance? && a.thread in p.calls {
      AdvanceKnows(p, a.thread, a.inputs, id);
    } else if id !in q.store.tasks {
      var t :| t in q.calls && q.calls[t].id == id;
      assert t in p.calls ==> p.calls[t].id == q.calls[t].id;
    }
  }

  lemma {:induction false} KnownWasSubmitted(actions: seq<Action>, id: Text)
    requires ProperRun(actions)
    ensures Known(Run(START, actions), id) ==> id in Submitted(actions)
  {
    hide Next, Proper, Sound, Known;
    if actions == [] {
      NothingIsKnown(id);
    } else {
      var before := actions[..|actions| - 1];
      KnownWasSubmitted(before, id);
      RecordsStaySound(before, id);
      if Known(Run(START, actions), id) { StepKnows(Run(START, before), actions[|actions| - 1], id); }
    }
  }

  lemma NothingIsKnown(id: Text)
    ensures !Known(START, id)
  {
  }

  /** Submissions that never repeat an id are new to the store and to every call, so nothing saved is overwritten. */
  lemma {:induction false} DistinctIdsAreProper(actions: seq<Action>)
    requires NamesSavedRun(actions) && Distinct(Submitted(actions))
    ensures ProperRun(actions)
  {
    hide Next, Known;
    if actions == [] {
    } else {
      var before, a := actions[..|actions| - 1], actions[|actions| - 1];
      assert Submitted(before) <= Submitted(actions);
      assert Distinct(Submitted(before));
      DistinctIdsAreProper(before);
      if a.StartSubmit? {
        KnownWasSubmitted(before, a.task.id);
        assert a.task.id !in Submitted(before) by { LastIsNew(Submitted(before), a.task.id); }
        UnknownIsProper(Run(START, before), a);
      }
    }
  }

  lemma LastIsNew(ids: seq<Text>, id: Text)
    requires Distinct(ids + [id])
    ensures id !in ids
  {
    assert forall i :: 0 <= i < |ids| ==> (ids + [id])[i] == ids[i] && (ids + [id])[|ids|] == id;
  }

  lemma UnknownIsProper(p: Proto, a: Action)
    requires a.StartSubmit? && !Known(p, a.task.id)
    ensures Proper(p, a)
  {
  }

  /**
   A scheduler run from an empty store: the i-th submission takes the i-th id of the generator, printed, while the
   clock stays within 2^41 ms of the epoch. Every such run is proper, so all that holds for proper runs holds for it.
   */
  lemma {:induction false} GeneratedIdsAreProper(actions: seq<Action>, g: Snowflakes.Generator,
        calls: seq<Snowflakes.Clock>)
    requires NamesSavedRun(actions) && g.Valid() && g.lastTimestamp >= -1
    requires |Submitted(actions)| <= |Snowflakes.Stamps(g, calls)|
    requires forall i :: 0 <= i < |Submitted(actions)| ==>
               var s := Snowflakes.Stamps(g, calls)[i];
               s.lastTimestamp < Snowflakes.EPOCH + Snowflakes.TWO_41 && Submitted(actions)[i] == ToString(s.Id())
    ensures ProperRun(actions)
  {
    var ids := Submitted(actions);
    forall i, j | 0 <= i < j < |ids| ensures ids[i] != ids[j] {
      Snowflakes.TaskIdsAreFresh(g, calls, i, j);
    }
    DistinctIdsAreProper(actions);
  }
}
