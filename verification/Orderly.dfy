/**
 Rules for the callers of internal/go-imap-mess under which a session cannot drift from the mailbox, but
 for a `Sync` that meets a UID both created and expunged: UIDs ascend, announcements reach every session in
 the order in which they are made, a removal is announced behind the arrival and through a connected handle,
 and a session lists the mailbox while nothing stored awaits its announcement and registers before
 anything else is announced.
 */
module Orderly {
  import opened Uids
  import opened R = Runs

  ghost predicate Below(a: set<nat>, b: set<nat>) {
    forall x, y :: x in a && y in b ==> x < y
  }

  /** The rules for a single step. */
  ghost predicate InOrder(w: World, step: Step)
    requires Enabled(w, step)
  {
    match step
    case Announce(uids, _) => Below(w.announced, uids)
    case AnnounceRemoval(uids, connected) => connected && uids <= w.announced
    case List(_, _) => w.announced == w.committed && |Live(w)| <= LISTING_LIMIT
    case Deliver(id, note) => forall n :: n in w.members[id].todo ==> note.serial <= n.serial
    case _ => true
  }

  predicate Announces(step: Step) {
    step.Announce? || step.AnnounceRemoval?
  }

  /** The session that registers with step `i` listed the mailbox with step `k`, and nothing was announced since. */
  ghost predicate ListedAt(steps: seq<Step>, k: nat, i: nat) {
    && k < i < |steps| && steps[i].Register? && steps[k].List? && steps[k].id == steps[i].id
    && forall l :: k < l < i ==> !Announces(steps[l])
  }

  ghost predicate ListedInTime(steps: seq<Step>, i: nat) {
    exists k :: ListedAt(steps, k, i)
  }

  ghost predicate OrderlyRun(ws: seq<World>, steps: seq<Step>)
    requires Run(ws, steps)
  {
    forall i {:trigger steps[i]} :: 0 <= i < |steps| ==>
      InOrder(ws[i], steps[i]) && (steps[i].Register? ==> ListedInTime(steps, i))
  }

  // ---- What the rules keep ----

  /** Of two announcements on their way, the first made: an arrival lies above what it names. */
  ghost predicate Before(a: Note, b: Note) {
    a.serial < b.serial && (b.Arrival? ==> if a.Arrival? then Below(a.uids, b.uids) else a.uids !! b.uids)
  }

  /** An arrival on its way lies above all that is known, and its removal was not taken. */
  ghost predicate Ahead(m: Member, n: Note) {
    n.Arrival? ==> Below(m.known, n.uids) && n.uids !! m.told
  }

  ghost predicate InSequence(m: Member, announced: set<nat>, serial: nat) {
    && m.known + m.told <= announced
    && (forall n :: n in m.todo ==> n.serial < serial && n.uids <= announced && Ahead(m, n))
    && forall a, b :: a in m.todo && b in m.todo && a != b ==> Before(a, b) || Before(b, a)
  }

  ghost predicate Sequenced(w: World) {
    && w.removed <= w.announced && w.removed <= w.dropped
    && forall id :: id in w.members ==> InSequence(w.members[id], w.announced, w.serial)
  }

  lemma ReceivingInSequence(m: Member, note: Note, announced: set<nat>, serial: nat)
    requires InSequence(m, announced, serial) && note.serial == serial
    requires if note.Arrival? then Below(announced, note.uids) && note.uids !! announced else note.uids <= announced
    ensures InSequence(Receiving(m, note), announced + note.uids, serial + 1)
  {
    var m' := Receiving(m, note);
    forall a | a in m.todo ensures Before(a, note) { }
  }

  lemma TakingInSequence(m: Member, id: Id, note: Note, announced: set<nat>, serial: nat)
    requires InSequence(m, announced, serial) && note in m.todo
    requires forall n :: n in m.todo ==> note.serial <= n.serial
    ensures InSequence(Taking(m, id, note), announced, serial)
  {
    var m' := Taking(m, id, note);
    forall n | n in m'.todo ensures Ahead(m', n) {
      assert Before(note, n) && Ahead(m, n);
    }
  }

  /** What a session has listed, if nothing was announced since. */
  ghost predicate Current(w: World, l: Listing) {
    w.announced - w.dropped <= l.uids <= w.announced && l.uids !! w.removed
  }

  lemma JoinedInSequence(w: World, l: Listing)
    requires Current(w, l)
    ensures InSequence(Joined(l), w.announced, w.serial)
  {
  }

  lemma MemberSequenced(w: World, step: Step, a: Id)
    requires Sequenced(w) && Enabled(w, step) && InOrder(w, step) && a in Next(w, step).members
    requires step.Register? ==> Current(w, w.listings[step.id])
    ensures InSequence(Next(w, step).members[a], Next(w, step).announced, Next(w, step).serial)
  {
    match step
    case Announce(uids, taker) =>
      ReceivingInSequence(w.members[a], Arrival(w.serial, uids, taker), w.announced, w.serial);
    case AnnounceRemoval(uids, connected) =>
      ReceivingInSequence(w.members[a], Removal(w.serial, uids), w.announced, w.serial);
      assert w.announced + uids == w.announced;
    case Register(id) => if a == id { JoinedInSequence(w, w.listings[id]); }
    case Deliver(id, note) => if a == id { TakingInSequence(w.members[a], a, note, w.announced, w.serial); }
    case _ =>
  }

  lemma StepSequenced(w: World, step: Step)
    requires Sequenced(w) && Enabled(w, step) && InOrder(w, step)
    requires step.Register? ==> Current(w, w.listings[step.id])
    ensures Sequenced(Next(w, step))
  {
    var w' := Next(w, step);
    forall a | a in w'.members ensures InSequence(w'.members[a], w'.announced, w'.serial) {
      MemberSequenced(w, step, a);
    }
  }

  // ---- Such steps are clean ----

  lemma TakenInTime(m: Member, note: Note, announced: set<nat>, serial: nat)
    requires Mirrors(m) && InSequence(m, announced, serial) && note in m.todo && note.Arrival?
    ensures InTime(m, note.uids)
  {
    assert Ahead(m, note);
    assert Elements(m.session.uidMap) <= m.known;
  }

  lemma OrderlyStepIsClean(w: World, step: Step)
    requires Sound(w) && Sequenced(w) && Enabled(w, step) && InOrder(w, step) && !step.Sync?
    requires step.Register? ==> Current(w, w.listings[step.id])
    ensures Clean(w, step)
  {
    match step
    case Deliver(id, note) =>
      if note.Arrival? { TakenInTime(w.members[id], note, w.announced, w.serial); }
    case Announce(uids, _) => assert uids * w.removed == {};
    case _ =>
  }

  // ---- Over a run ----

  /** A listing made by the rules is current, and stays so until something is announced. */
  lemma ListingCurrent(w: World, step: Step)
    requires Enabled(w, step) && step.List? && InOrder(w, step) && w.removed <= w.dropped
    ensures step.id in Next(w, step).listings && Current(Next(w, step), Next(w, step).listings[step.id])
  {
    PageLive(Live(w));
  }

  lemma StaysCurrent(w: World, step: Step, id: Id)
    requires Sound(w) && Enabled(w, step) && !Announces(step) && id in w.listings && Current(w, w.listings[id])
    ensures id in Next(w, step).listings ==> Current(Next(w, step), Next(w, step).listings[id])
  {
  }

  lemma StepOf(ws: seq<World>, steps: seq<Step>, i: nat)
    requires Run(ws, steps) && i < |steps|
    ensures Enabled(ws[i], steps[i]) && ws[i + 1] == Next(ws[i], steps[i])
  {
  }

  lemma {:induction false} CurrentSince(ws: seq<World>, steps: seq<Step>, k: nat, i: nat, id: Id)
    requires Run(ws, steps) && k < i < |ws| && Sound(ws[0])
    requires steps[k].List? && steps[k].id == id && InOrder(ws[k], steps[k]) && ws[k].removed <= ws[k].dropped
    requires (forall l :: k < l < i ==> !Announces(steps[l])) && id in ws[i].listings
    ensures Current(ws[i], ws[i].listings[id])
    decreases i
  {
    if i == k + 1 {
      StepOf(ws, steps, k);
      ListingCurrent(ws[k], steps[k]);
    } else {
      UsedSince(ws, steps, k, i - 1, id);
      CurrentSince(ws, steps, k, i - 1, id);
      CurrentOn(ws, steps, i - 1, id);
    }
  }

  lemma CurrentOn(ws: seq<World>, steps: seq<Step>, i: nat, id: Id)
    requires Run(ws, steps) && Sound(ws[0]) && i < |steps| && !Announces(steps[i])
    requires id in ws[i].listings && Current(ws[i], ws[i].listings[id]) && id in ws[i + 1].listings
    ensures Current(ws[i + 1], ws[i + 1].listings[id])
  {
    RunsStaySound(ws, steps, i);
    StepOf(ws, steps, i);
    StaysCurrent(ws[i], steps[i], id);
  }

  /** An identifier is used once. */
  lemma {:induction false} UsedSince(ws: seq<World>, steps: seq<Step>, k: nat, i: nat, id: Id)
    requires Run(ws, steps) && k < i < |ws| && steps[k].List? && steps[k].id == id
    ensures id in ws[i].used && (i < |steps| && id in ws[i + 1].listings ==> id in ws[i].listings)
    decreases i
  {
    StepOf(ws, steps, i - 1);
    if i > k + 1 { UsedSince(ws, steps, k, i - 1, id); }
    if i < |steps| { StepOf(ws, steps, i); }
  }

  /** In a run by the rules every session that registers has a current listing. */
  lemma RegistersCurrent(ws: seq<World>, steps: seq<Step>, i: nat)
    requires Run(ws, steps) && OrderlyRun(ws, steps) && i < |steps| && steps[i].Register? && Sound(ws[0])
    requires forall k :: 0 <= k <= i ==> Sequenced(ws[k])
    ensures Enabled(ws[i], steps[i]) && Current(ws[i], ws[i].listings[steps[i].id])
  {
    StepOf(ws, steps, i);
    assert ListedInTime(steps, i);
    var k: nat :| ListedAt(steps, k, i);
    StepOf(ws, steps, k);
    assert InOrder(ws[k], steps[k]) && Sequenced(ws[k]);
    CurrentSince(ws, steps, k, i, steps[i].id);
  }

  lemma {:induction false} RunsStaySequenced(ws: seq<World>, steps: seq<Step>, j: nat)
    requires Run(ws, steps) && OrderlyRun(ws, steps) && Initial(ws[0]) && j < |ws|
    ensures forall k :: 0 <= k <= j ==> Sequenced(ws[k])
    decreases j
  {
    if j == 0 {
    } else {
      RunsStaySequenced(ws, steps, j - 1);
      SequencedOn(ws, steps, j - 1);
    }
  }

  lemma SequencedOn(ws: seq<World>, steps: seq<Step>, i: nat)
    requires Run(ws, steps) && OrderlyRun(ws, steps) && Sound(ws[0]) && i < |steps|
    requires forall k :: 0 <= k <= i ==> Sequenced(ws[k])
    ensures Sequenced(ws[i + 1])
  {
    var w, step := ws[i], steps[i];
    StepOf(ws, steps, i);
    if step.Register? { RegistersCurrent(ws, steps, i); }
    StepSequenced(w, step);
  }

  /** In a run by the rules every step but a `Sync` is clean. */
  lemma OrderlyIsClean(ws: seq<World>, steps: seq<Step>, i: nat)
    requires Run(ws, steps) && OrderlyRun(ws, steps) && Initial(ws[0]) && i < |steps| && !steps[i].Sync?
    ensures Enabled(ws[i], steps[i]) && Clean(ws[i], steps[i])
  {
    RunsStaySound(ws, steps, i);
    RunsStaySequenced(ws, steps, i);
    StepOf(ws, steps, i);
    if steps[i].Register? { RegistersCurrent(ws, steps, i); }
    OrderlyStepIsClean(ws[i], steps[i]);
  }

  /**
   In every run by the rules, whatever the `Sync`s met, every session has an ascending map that lies below all that is
   pending, and of the messages that are announced and still there none is missing from map and pending arrivals
   but those on their way.
   */
  lemma OrderlyStaysOrdered(ws: seq<World>, steps: seq<Step>, j: nat, id: Id)
    requires Run(ws, steps) && OrderlyRun(ws, steps) && Initial(ws[0]) && j < |ws| && id in ws[j].members
    ensures Ordered(ws[j].members[id].session)
    ensures Covered(ws[j].members[id], ws[j].announced - ws[j].dropped)
    ensures (ws[j].announced - ws[j].dropped) - Coming(ws[j].members[id].todo)
            <= Elements(ws[j].members[id].session.uidMap) + ws[j].members[id].session.created
  {
    OrderlyIsOnTop(ws, steps);
    RunsStaySound(ws, steps, j);
    RunsStayOrdered(ws, steps, j);
    RunsStayCovered(ws, steps, j);
    var w := ws[j];
    NothingMissing(w.members[id], w.committed + w.announced, w.dropped, w.announced - w.dropped);
  }

  lemma OrderlyIsOnTop(ws: seq<World>, steps: seq<Step>)
    requires Run(ws, steps) && OrderlyRun(ws, steps) && Initial(ws[0])
    ensures OnTopRun(ws, steps) && ListedRun(ws, steps)
  {
    forall i | 0 <= i < |steps|
      ensures Enabled(ws[i], steps[i]) && TakesOnTop(ws[i], steps[i]) && ListsAll(ws[i], steps[i])
    {
      StepOf(ws, steps, i);
      if !steps[i].Sync? { OrderlyIsClean(ws, steps, i); }
    }
  }

  /**
   So a session that has taken everything announced shows its client exactly the mailbox after a
   `Sync(true)`, if no `Sync` of the run met a UID both created and expunged.
   */
  lemma OrderlyClientSeesMailbox(ws: seq<World>, steps: seq<Step>, j: nat, id: Id)
    requires Run(ws, steps) && OrderlyRun(ws, steps) && Initial(ws[0]) && j < |ws|
    requires forall i {:trigger steps[i]} :: 0 <= i < |steps| && steps[i].Sync? ==> Clean(ws[i], steps[i])
    requires Quiet(ws[j]) && id in ws[j].members && ws[j].members[id].todo == {}
    requires Clean(ws[j], Sync(id, true))
    ensures Next(ws[j], Sync(id, true)).members[id].view == Listed(Live(ws[j]))
  {
    forall i | 0 <= i < |steps| ensures Clean(ws[i], steps[i]) {
      if !steps[i].Sync? { OrderlyIsClean(ws, steps, i); }
    }
    ClientSeesMailbox(ws, steps, j, id);
  }
}
