/**
 IDLE on one handle: the idle loop and everyone who enqueues updates, interleaved in any way
 (internal/go-imap-mess/mailbox.go). A step is what one goroutine does while it holds the
 handle's lock, or one channel operation.
 */
module Idle {
  import opened S = Session

  /** Where the idle loop is: not running, about to call `Sync(true)`, or in its `select`. */
  datatype Pc = Away | Committed | Waiting

  datatype State = State(session: Session, pc: Pc)

  datatype Step =
    | Begin                       // make the channel, look for updates that came before
    | RunSync                     // Sync(true), called by the idle loop
    | Receive                     // the select takes the token
    | Finish                      // the select sees `done`; the channel is dropped
    | Created(uids: set<nat>, takesRecent: bool)
    | Expunged(uids: set<nat>)
    | Flags(uid: nat, flags: seq<string>)
    | OtherSync(expunge: bool)    // Sync called by a command of the same connection

  predicate Enabled(s: State, step: Step) {
    match step
    case Begin => s.pc.Away?
    case RunSync => s.pc.Committed?
    case Receive => s.pc.Waiting? && s.session.wake.Token?
    case Finish => s.pc.Waiting?
    case _ => true
  }

  ghost function Next(s: State, step: Step): State
    requires Enabled(s, step)
  {
    match step
    case Begin => State(s.session.(wake := Empty), if Pending(s.session) then Committed else Waiting)
    case RunSync => State(SyncState(s.session, true), Waiting)
    case Receive => State(s.session.(wake := Empty), Committed)
    case Finish => State(s.session.(wake := NoChannel), Away)
    case Created(uids, takesRecent) => s.(session := EnqueueCreated(s.session, uids, takesRecent))
    case Expunged(uids) => s.(session := EnqueueExpunged(s.session, uids))
    case Flags(uid, flags) => s.(session := EnqueueFlags(s.session, uid, flags))
    case OtherSync(expunge) => s.(session := SyncState(s.session, expunge))
  }

  ghost predicate Allowed(s: State, steps: seq<Step>)
    decreases |steps|
  {
    steps == [] || (Enabled(s, steps[0]) && Allowed(Next(s, steps[0]), steps[1..]))
  }

  ghost function After(s: State, steps: seq<Step>): State
    requires Allowed(s, steps)
    decreases |steps|
  {
    if steps == [] then s else After(Next(s, steps[0]), steps[1..])
  }

  predicate Initial(s: State) {
    s.session.connected && s.session.wake.NoChannel? && s.pc.Away?
  }

  /** While the session idles, anything pending has left a token or the loop is committed to a `Sync`. */
  predicate NothingForgotten(s: State) {
    && s.session.connected
    && (s.pc.Away? <==> s.session.wake.NoChannel?)
    && (!s.pc.Away? && Pending(s.session) ==> s.session.wake.Token? || s.pc.Committed?)
  }

  lemma StepForgetsNothing(s: State, step: Step)
    requires NothingForgotten(s) && Enabled(s, step)
    ensures NothingForgotten(Next(s, step))
  {
  }

  /** The invariant over every interleaving. */
  lemma {:induction false} RunsForgetNothing(s: State, steps: seq<Step>)
    requires NothingForgotten(s) && Allowed(s, steps)
    ensures NothingForgotten(After(s, steps))
    decreases |steps|
  {
    if steps == [] {
    } else {
      StepForgetsNothing(s, steps[0]);
      RunsForgetNothing(Next(s, steps[0]), steps[1..]);
    }
  }

  /**
   No lost wakeup (RFC 2177): in every interleaving, an idle loop blocked on an empty channel
   has nothing left to send.
   */
  lemma {:induction false} NoLostWakeup(s: State, steps: seq<Step>)
    requires Initial(s) && Allowed(s, steps)
    requires After(s, steps).pc.Waiting? && After(s, steps).session.wake == Empty
    ensures !Pending(After(s, steps).session)
  {
    RunsForgetNothing(s, steps);
  }

  /** What the idle loop does next when left alone with something pending. */
  function OwnSteps(s: State): seq<Step> {
    if s.pc.Committed? then [RunSync] else [Receive, RunSync]
  }

  lemma {:induction false} OneStep(s: State, step: Step)
    requires Enabled(s, step)
    ensures Allowed(s, [step]) && After(s, [step]) == Next(s, step)
  {
    assert [step][1..] == [];
  }

  lemma {:induction false} TwoSteps(s: State, a: Step, b: Step)
    requires Enabled(s, a) && Enabled(Next(s, a), b)
    ensures Allowed(s, [a, b]) && After(s, [a, b]) == Next(Next(s, a), b)
  {
    OneStep(Next(s, a), b);
    assert [a, b][1..] == [b];
  }

  /** Whenever something is pending while the session idles, the loop's own next steps send all of it. */
  lemma {:induction false} IdlerDrains(t: State)
    requires NothingForgotten(t) && !t.pc.Away? && Pending(t.session)
    ensures Allowed(t, OwnSteps(t))
    ensures var after := After(t, OwnSteps(t));
            after.pc.Waiting? && !Pending(after.session) && after.session.uidMap == SyncState(t.session, true).uidMap
  {
    if t.pc.Committed? {
      OneStep(t, RunSync);
    } else {
      TwoSteps(t, Receive, RunSync);
    }
  }
}
