/**
 Runs of a stream manager, for any step function: the state after a sequence of requests, all hardware
 writes on the way, and which request a given write belongs to.
 */
module Runs {
  import opened TrackTable
  import opened StreamCommon
  import opened Windows

  datatype StepOutcome<S, R> = Outcome(state: S, result: Result, writes: seq<Write<R>>)

  type Stepper<!S, !C, R> = (S, Handle, StreamCommand<C>) -> StepOutcome<S, R>

  function RunBy<S, C, R>(step: Stepper<S, C, R>, s: S, reqs: seq<StreamRequest<C>>): S
    decreases |reqs|
  {
    if reqs == [] then s else RunBy(step, step(s, reqs[0].filp, reqs[0].cmd).state, reqs[1..])
  }

  /** All hardware writes of a run, in order. */
  function WritesBy<S, C, R>(step: Stepper<S, C, R>, s: S, reqs: seq<StreamRequest<C>>): seq<Write<R>>
    decreases |reqs|
  {
    if reqs == [] then []
    else var o := step(s, reqs[0].filp, reqs[0].cmd); o.writes + WritesBy(step, o.state, reqs[1..])
  }

  lemma {:induction false} RunAppend<S, C, R>(step: Stepper<S, C, R>, s: S, reqs: seq<StreamRequest<C>>,
                                              r: StreamRequest<C>)
    ensures RunBy(step, s, reqs + [r]) == step(RunBy(step, s, reqs), r.filp, r.cmd).state
    decreases |reqs|
  {
    if reqs == [] {
      assert RunBy(step, s, [r]) == RunBy(step, step(s, r.filp, r.cmd).state, []);
    } else {
      assert (reqs + [r])[1..] == reqs[1..] + [r];
      RunAppend(step, step(s, reqs[0].filp, reqs[0].cmd).state, reqs[1..], r);
    }
  }

  // ------------------------------------------------------------------------------------------
  // Invariants
  // ------------------------------------------------------------------------------------------

  ghost predicate StepsKeep<S(!new), C(!new), R(!new)>(step: Stepper<S, C, R>, inv: S -> bool) {
    forall s, filp, cmd | inv(s) :: inv(step(s, filp, cmd).state)
  }

  lemma {:induction false} RunKeeps<S(!new), C(!new), R(!new)>(step: Stepper<S, C, R>, inv: S -> bool, s: S,
                                                               reqs: seq<StreamRequest<C>>)
    requires StepsKeep(step, inv) && inv(s)
    ensures inv(RunBy(step, s, reqs))
    decreases |reqs|
  {
    if reqs != [] {
      RunKeeps(step, inv, step(s, reqs[0].filp, reqs[0].cmd).state, reqs[1..]);
    }
  }

  /** The writes of every step account for its change of the hardware. */
  ghost predicate Accounts<S(!new), C(!new), R(!new)>(step: Stepper<S, C, R>, hw: S -> Hardware<R>) {
    forall s, filp, cmd :: ApplyAll(hw(s), step(s, filp, cmd).writes) == hw(step(s, filp, cmd).state)
  }

  /** The writes of a run account for the hardware after it. */
  lemma {:induction false} WritesEffect<S(!new), C(!new), R(!new)>(step: Stepper<S, C, R>, hw: S -> Hardware<R>, s: S,
                                                                   reqs: seq<StreamRequest<C>>)
    requires Accounts(step, hw)
    ensures ApplyAll(hw(s), WritesBy(step, s, reqs)) == hw(RunBy(step, s, reqs))
    decreases |reqs|
  {
    if reqs != [] {
      var o := step(s, reqs[0].filp, reqs[0].cmd);
      WritesEffect(step, hw, o.state, reqs[1..]);
      ApplyAllConcat(hw(s), o.writes, WritesBy(step, o.state, reqs[1..]));
    }
  }

  // ------------------------------------------------------------------------------------------
  // The command in progress
  // ------------------------------------------------------------------------------------------

  /** The first `p` writes of the run end within the request number `q`. */
  ghost predicate InProgress<S, C, R>(step: Stepper<S, C, R>, s: S, reqs: seq<StreamRequest<C>>, q: nat, p: nat) {
    q < |reqs| && |WritesBy(step, s, reqs[..q])| <= p <= |WritesBy(step, s, reqs[..q + 1])|
  }

  lemma PrefixUnfolds<S, C, R>(step: Stepper<S, C, R>, s: S, reqs: seq<StreamRequest<C>>, q: nat)
    requires q < |reqs|
    ensures var o := step(s, reqs[0].filp, reqs[0].cmd);
            && RunBy(step, s, reqs[..q + 1]) == RunBy(step, o.state, reqs[1..][..q])
            && WritesBy(step, s, reqs[..q + 1]) == o.writes + WritesBy(step, o.state, reqs[1..][..q])
  {
    assert reqs[..q + 1][1..] == reqs[1..][..q];
  }

  lemma LaterInProgress<S, C, R>(step: Stepper<S, C, R>, s: S, reqs: seq<StreamRequest<C>>, q: nat, p: nat)
    requires reqs != []
    requires var o := step(s, reqs[0].filp, reqs[0].cmd);
             p >= |o.writes| && InProgress(step, o.state, reqs[1..], q, p - |o.writes|)
    ensures InProgress(step, s, reqs, q + 1, p)
  {
    PrefixUnfolds(step, s, reqs, q);
    PrefixUnfolds(step, s, reqs, q + 1);
  }

  /** Every write of a run belongs to a command, and the hardware after it is the hardware before that
      command with some of the command's writes applied. */
  lemma {:induction false} Locate<S(!new), C(!new), R(!new)>(step: Stepper<S, C, R>, hw: S -> Hardware<R>, s: S,
                                                             reqs: seq<StreamRequest<C>>, p: nat)
    returns (q: nat, w: nat)
    requires Accounts(step, hw) && reqs != [] && p <= |WritesBy(step, s, reqs)|
    ensures InProgress(step, s, reqs, q, p)
    ensures var before := RunBy(step, s, reqs[..q]);
            var o := step(before, reqs[q].filp, reqs[q].cmd);
            && o.state == RunBy(step, s, reqs[..q + 1])
            && w <= |o.writes|
            && ApplyAll(hw(s), WritesBy(step, s, reqs)[..p]) == ApplyAll(hw(before), o.writes[..w])
    decreases |reqs|
  {
    var o := step(s, reqs[0].filp, reqs[0].cmd);
    var rest := WritesBy(step, o.state, reqs[1..]);
    PrefixOfConcat(hw(s), o.writes, rest, p);
    if p <= |o.writes| {
      PrefixUnfolds(step, s, reqs, 0);
      q, w := 0, p;
    } else {
      assert reqs[1..] != [];
      q, w := Locate(step, hw, o.state, reqs[1..], p - |o.writes|);
      LaterInProgress(step, s, reqs, q, p);
      PrefixUnfolds(step, s, reqs, q);
      PrefixUnfolds(step, s, reqs, q + 1);
      q := q + 1;
    }
  }
}
