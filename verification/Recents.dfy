/**
 Which session shows a message as \Recent, over every run of `Runs` (section 2.3.2 of RFC 3501: a message
 is recent in one session only). The manager answers an announcement with whether the flag is to be
 stored, and a stored flag is cleared when a session that may write lists the mailbox.
 */
module Recents {
  import opened Uids
  import opened S = Session
  import opened Runs
  import R = Races

  /** What is announced with session `id` as the one to show it, and has yet to reach it. */
  ghost function PromisedTo(todo: set<Note>, id: Id): set<nat> {
    set n, x | n in todo && n.Arrival? && n.recentFor == Some(id) && x in n.uids :: x
  }

  /** What a session shows as \Recent or is about to. */
  ghost function Reserved(m: Member, id: Id): set<nat> {
    m.session.recent + PromisedTo(m.todo, id)
  }

  ghost function Held(w: World, a: Id): set<nat> {
    if a in w.members then Reserved(w.members[a], a)
    else if a in w.listings then w.listings[a].recents else {}
  }

  ghost predicate Counted(m: Member, id: Id) {
    m.session.recentCount == |m.session.recent| && m.session.recent !! PromisedTo(m.todo, id)
  }

  /** No flag is held twice, nor held while it is still stored. */
  ghost predicate OnePlace(w: World) {
    (forall a: Id, b: Id :: a != b ==> Held(w, a) !! Held(w, b)) && forall a: Id :: Held(w, a) !! w.persisted
  }

  /** And the counts are the sizes of the sets. */
  ghost predicate RecentOnce(w: World) {
    OnePlace(w) && forall a :: a in w.members ==> Counted(w.members[a], a)
  }

  // ---- Every message is announced once ----

  ghost predicate NotesApart(todo: set<Note>) {
    forall m, n :: m in todo && n in todo && m != n && m.Arrival? && n.Arrival? ==> m.uids !! n.uids
  }

  ghost predicate NotesNew(w: World) {
    forall a :: a in w.members ==> NotesApart(w.members[a].todo) && Coming(w.members[a].todo) <= w.announced
  }

  lemma ReceivingNew(todo: set<Note>, note: Note, announced: set<nat>)
    requires NotesApart(todo) && Coming(todo) <= announced && (note.Arrival? ==> note.uids !! announced)
    ensures NotesApart(todo + {note})
    ensures Coming(todo + {note}) <= announced + if note.Arrival? then note.uids else {}
  {
    MoreToCome(todo, note);
    forall n | n in todo && n.Arrival? ensures n.uids <= Coming(todo) { }
  }

  lemma StepNotesNew(w: World, step: Step)
    requires NotesNew(w) && Enabled(w, step)
    ensures NotesNew(Next(w, step))
  {
    var w' := Next(w, step);
    forall a | a in w'.members ensures NotesApart(w'.members[a].todo) && Coming(w'.members[a].todo) <= w'.announced {
      match step
      case Announce(uids, taker) => ReceivingNew(w.members[a].todo, Arrival(w.serial, uids, taker), w.announced);
      case AnnounceRemoval(uids, _) => ReceivingNew(w.members[a].todo, Removal(w.serial, uids), w.announced);
      case Deliver(id, note) => if a == id { assert Coming(w.members[a].todo - {note}) <= Coming(w.members[a].todo); }
      case _ =>
    }
  }

  // ---- What a step does to the flags held ----

  lemma PromisedMore(todo: set<Note>, note: Note, id: Id)
    ensures PromisedTo(todo + {note}, id)
            == PromisedTo(todo, id) + if note.Arrival? && note.recentFor == Some(id) then note.uids else {}
  {
    var more := todo + {note};
    forall x | x in PromisedTo(todo, id) ensures x in PromisedTo(more, id) {
      var n :| n in todo && n.Arrival? && n.recentFor == Some(id) && x in n.uids;
      assert n in more;
    }
    assert note in more;
  }

  lemma PromisedLess(todo: set<Note>, note: Note, id: Id)
    requires note in todo && NotesApart(todo)
    ensures PromisedTo(todo, id)
            == if note.Arrival? && note.recentFor == Some(id) then PromisedTo(todo - {note}, id) + note.uids
               else PromisedTo(todo - {note}, id)
    ensures note.Arrival? ==> note.uids !! PromisedTo(todo - {note}, id)
  {
    assert todo - {note} + {note} == todo;
    PromisedMore(todo - {note}, note, id);
  }

  lemma TakesFlag(m: Member, id: Id, note: Note)
    requires note in m.todo && NotesApart(m.todo) && Counted(m, id) && note.Arrival? && note.recentFor == Some(id)
    ensures Reserved(Taking(m, id, note), id) == Reserved(m, id) && Counted(Taking(m, id, note), id)
  {
    var rest := PromisedTo(m.todo - {note}, id);
    PromisedLess(m.todo, note, id);
    MoreRecent(m.session.recent, rest, note.uids);
  }

  lemma TakesOther(m: Member, id: Id, note: Note)
    requires note in m.todo && NotesApart(m.todo) && Counted(m, id) && !(note.Arrival? && note.recentFor == Some(id))
    ensures Reserved(Taking(m, id, note), id) == Reserved(m, id) && Counted(Taking(m, id, note), id)
  {
    PromisedLess(m.todo, note, id);
  }

  /** Taking an announcement turns a promise into a flag shown. */
  lemma TakingReserved(m: Member, id: Id, note: Note)
    requires note in m.todo && NotesApart(m.todo) && Counted(m, id)
    ensures Reserved(Taking(m, id, note), id) == Reserved(m, id) && Counted(Taking(m, id, note), id)
  {
    if note.Arrival? && note.recentFor == Some(id) {
      TakesFlag(m, id, note);
    } else {
      TakesOther(m, id, note);
    }
  }

  lemma MoreRecent(recent: set<nat>, rest: set<nat>, uids: set<nat>)
    requires recent !! rest + uids
    ensures (recent + uids) + rest == recent + (rest + uids)
    ensures |recent + uids| == |recent| + |uids|
  {
  }

  ghost predicate Distinct(w: World) {
    w.members.Keys !! w.listings.Keys && w.members.Keys + w.listings.Keys <= w.used
  }

  lemma HeldBroadcast(w: World, w': World, note: Note, a: Id)
    requires w'.members == Broadcast(w.members, note) && w'.listings == w.listings
    ensures Held(w', a) ==
            Held(w, a) + if a in w.members && note.Arrival? && note.recentFor == Some(a) then note.uids else {}
  {
    if a in w.members {
      var m := w.members[a];
      PromisedMore(m.todo, note, a);
      assert w'.members[a] == Receiving(m, note);
      assert m.session.recent + (PromisedTo(m.todo, a) + note.uids) == Reserved(m, a) + note.uids;
      assert Reserved(m, a) + {} == Reserved(m, a) && PromisedTo(m.todo, a) + {} == PromisedTo(m.todo, a);
    }
  }

  /** What one session holds after a step. */
  ghost function HeldNext(w: World, step: Step, a: Id): set<nat> {
    match step
    case Announce(uids, taker) => if taker == Some(a) then Held(w, a) + uids else Held(w, a)
    case List(id, _) => if a == id then w.persisted * Page(Live(w)) else Held(w, a)
    case Close(id) => if a == id then {} else Held(w, a)
    case _ => Held(w, a)
  }

  lemma HeldAnnounced(w: World, step: Step, a: Id)
    requires Enabled(w, step) && (step.Announce? || step.AnnounceRemoval?)
    ensures Held(Next(w, step), a) == HeldNext(w, step, a)
  {
    match step
    case Announce(uids, taker) => HeldBroadcast(w, Next(w, step), Arrival(w.serial, uids, taker), a);
    case AnnounceRemoval(uids, connected) =>
      if connected { HeldBroadcast(w, Next(w, step), Removal(w.serial, uids), a); }
  }

  lemma HeldUpdated(w: World, w': World, id: Id, m: Member, a: Id)
    requires id in w.members && w'.members == w.members[id := m] && w'.listings == w.listings
    requires a == id ==> Reserved(m, id) == Reserved(w.members[id], id)
    ensures Held(w', a) == Held(w, a)
  {
  }

  lemma HeldOpening(w: World, step: Step, a: Id)
    requires Distinct(w) && Enabled(w, step) && (step.List? || step.Register? || step.Close?)
    ensures Held(Next(w, step), a) == HeldNext(w, step, a)
  {
    match step
    case List(id, _) =>
    case Register(id) => assert PromisedTo({}, id) == {};
    case Close(id) =>
  }

  lemma HeldInSession(w: World, step: Step, a: Id)
    requires Enabled(w, step) && (step.Deliver? || step.Sync? || step.FlagsChanged?)
    requires a in w.members ==> NotesApart(w.members[a].todo) && Counted(w.members[a], a)
    ensures Held(Next(w, step), a) == Held(w, a)
  {
    var w' := Next(w, step);
    if step.Deliver? && a == step.id { TakingReserved(w.members[a], a, step.note); }
    HeldUpdated(w, w', step.id, w'.members[step.id], a);
  }

  lemma HeldAfter(w: World, step: Step, a: Id)
    requires Distinct(w) && Enabled(w, step)
    requires a in w.members ==> NotesApart(w.members[a].todo) && Counted(w.members[a], a)
    ensures Held(Next(w, step), a) == HeldNext(w, step, a)
  {
    match step
    case Commit(_, _) =>
    case Announce(_, _) => HeldAnnounced(w, step, a);
    case Drop(_) =>
    case AnnounceRemoval(_, _) => HeldAnnounced(w, step, a);
    case List(_, _) => HeldOpening(w, step, a);
    case Register(_) => HeldOpening(w, step, a);
    case Close(_) => HeldOpening(w, step, a);
    case Deliver(_, _) => HeldInSession(w, step, a);
    case Sync(_, _) => HeldInSession(w, step, a);
    case FlagsChanged(_, _, _) => HeldInSession(w, step, a);
  }

  lemma CountedAfter(w: World, step: Step, a: Id)
    requires Enabled(w, step) && a in Next(w, step).members
    requires a in w.members ==> NotesApart(w.members[a].todo) && Counted(w.members[a], a)
    ensures Counted(Next(w, step).members[a], a)
            <==> (step.Announce? && step.taker == Some(a) ==> step.uids !! w.members[a].session.recent)
  {
    match step
    case Announce(uids, taker) => PromisedMore(w.members[a].todo, Arrival(w.serial, uids, taker), a);
    case AnnounceRemoval(uids, _) => PromisedMore(w.members[a].todo, Removal(w.serial, uids), a);
    case Deliver(id, note) => if a == id { TakingReserved(w.members[a], a, note); }
    case Register(id) => assert PromisedTo({}, id) == {};
    case _ =>
  }

  // ---- Exactly when no flag is shown twice ----

  ghost predicate NobodyHolds(w: World, uids: set<nat>) {
    forall a: Id :: Held(w, a) !! uids
  }

  /**
   A flag is stored, or promised to a session, only if nobody holds it, promised only if it is not stored
   either, and a session that may not clear stored flags is given none.
   */
  ghost predicate HonoursRecent(w: World, step: Step) {
    match step
    case Commit(uids, store) => store ==> NobodyHolds(w, uids)
    case Announce(uids, taker) => taker.Some? ==> uids !! w.persisted && NobodyHolds(w, uids)
    case List(_, readOnly) => readOnly ==> w.persisted * Page(Live(w)) == {}
    case _ => true
  }

  lemma CommitRecentIff(w: World, w': World, uids: set<nat>)
    requires OnePlace(w) && w'.persisted == w.persisted + uids && forall a: Id :: Held(w', a) == Held(w, a)
    ensures OnePlace(w') <==> NobodyHolds(w, uids)
  {
    if OnePlace(w') {
      forall a: Id ensures Held(w, a) !! uids { assert Held(w', a) !! w'.persisted; }
    }
  }

  lemma AnnounceRecentIff(w: World, w': World, uids: set<nat>, taker: Id)
    requires OnePlace(w) && w'.persisted == w.persisted
    requires forall a: Id :: Held(w', a) == if a == taker then Held(w, a) + uids else Held(w, a)
    ensures OnePlace(w') <==> uids !! w.persisted && forall a: Id :: a != taker ==> Held(w, a) !! uids
  {
    if OnePlace(w') {
      assert Held(w', taker) !! w'.persisted;
      forall a: Id | a != taker ensures Held(w, a) !! uids { assert Held(w', a) !! Held(w', taker); }
    }
  }

  lemma ListRecentIff(w: World, w': World, id: Id, read: set<nat>)
    requires OnePlace(w) && read <= w.persisted && (w'.persisted == w.persisted || w'.persisted == {})
    requires forall a: Id :: Held(w', a) == if a == id then read else Held(w, a)
    ensures OnePlace(w') <==> (w'.persisted == w.persisted ==> read == {})
  {
    if OnePlace(w') { assert Held(w', id) !! w'.persisted; }
  }

  lemma LessHeld(w: World, w': World)
    requires OnePlace(w) && w'.persisted <= w.persisted && forall a: Id :: Held(w', a) <= Held(w, a)
    ensures OnePlace(w')
  {
    forall a: Id, b: Id | a != b ensures Held(w', a) !! Held(w', b) { assert Held(w, a) !! Held(w, b); }
  }

  lemma OnePlaceIff(w: World, step: Step, w': World)
    requires OnePlace(w) && Enabled(w, step) && w' == Next(w, step)
    requires forall a: Id :: Held(w', a) == HeldNext(w, step, a)
    ensures OnePlace(w') <==>
            match step
            case Commit(uids, store) => store ==> NobodyHolds(w, uids)
            case Announce(uids, taker) =>
              taker.Some? ==> uids !! w.persisted && forall a: Id :: a != taker.value ==> Held(w, a) !! uids
            case List(_, readOnly) => readOnly ==> w.persisted * Page(Live(w)) == {}
            case _ => true
  {
    match step
    case Commit(uids, store) => if store { CommitRecentIff(w, w', uids); } else { LessHeld(w, w'); }
    case Announce(uids, taker) =>
      if taker.Some? { AnnounceRecentIff(w, w', uids, taker.value); } else { LessHeld(w, w'); }
    case List(id, readOnly) => ListRecentIff(w, w', id, w.persisted * Page(Live(w)));
    case _ => LessHeld(w, w');
  }

  /** A step keeps every flag in one place, and the counts right, if and only if it honours the rule. */
  lemma StepRecentIff(w: World, step: Step)
    requires Sound(w) && NotesNew(w) && RecentOnce(w) && Enabled(w, step)
    ensures RecentOnce(Next(w, step)) <==> HonoursRecent(w, step)
  {
    var w' := Next(w, step);
    forall a: Id ensures Held(w', a) == HeldNext(w, step, a) { HeldAfter(w, step, a); }
    OnePlaceIff(w, step, w');
    forall a | a in w'.members
      ensures Counted(w'.members[a], a)
              <==> (step.Announce? && step.taker == Some(a) ==> step.uids !! w.members[a].session.recent)
    {
      CountedAfter(w, step, a);
    }
    if step.Announce? && step.taker.Some? { TakerHolds(w, step.taker.value, step.uids); }
  }

  /** New messages are promised to nobody yet, so what the taker holds of them it shows. */
  lemma TakerHolds(w: World, a: Id, uids: set<nat>)
    requires NotesNew(w) && a in w.members && uids !! w.announced
    ensures Held(w, a) !! uids <==> w.members[a].session.recent !! uids
  {
    assert PromisedTo(w.members[a].todo, a) <= Coming(w.members[a].todo);
  }

  // ---- The contract of the manager ----

  /**
   The callers' side: the flag of a new message is stored only when an announcement found no session to
   show it, and only a session that clears the stored flags lists a mailbox that has some.
   */
  ghost predicate Obeys(w: World, step: Step) {
    match step
    case Commit(uids, store) => store ==> uids <= w.announced - w.promised
    case List(_, readOnly) => readOnly ==> w.persisted == {}
    case _ => true
  }

  /** Whatever is held or stored was announced, and was promised unless it is in the database. */
  ghost predicate Traced(w: World) {
    && (forall a: Id :: Held(w, a) <= w.announced && Held(w, a) <= w.promised + w.committed)
    && w.persisted <= w.announced && w.persisted <= w.committed
  }

  lemma ObeysHonours(w: World, step: Step)
    requires Traced(w) && Enabled(w, step) && Obeys(w, step)
    ensures HonoursRecent(w, step)
  {
    match step
    case Commit(uids, store) => if store { forall a: Id ensures Held(w, a) !! uids { } }
    case Announce(uids, taker) => forall a: Id ensures Held(w, a) !! uids { }
    case _ =>
  }

  lemma HeldTraced(w: World, step: Step, a: Id)
    requires Traced(w) && Enabled(w, step) && Held(Next(w, step), a) == HeldNext(w, step, a)
    ensures var w' := Next(w, step); Held(w', a) <= w'.announced && Held(w', a) <= w'.promised + w'.committed
  {
  }

  lemma StepTraced(w: World, step: Step)
    requires Sound(w) && NotesNew(w) && RecentOnce(w) && Traced(w) && Enabled(w, step) && Obeys(w, step)
    ensures Traced(Next(w, step))
  {
    var w' := Next(w, step);
    forall a: Id ensures Held(w', a) <= w'.announced && Held(w', a) <= w'.promised + w'.committed {
      HeldAfter(w, step, a);
      HeldTraced(w, step, a);
    }
  }

  ghost predicate InOrder(w: World) {
    Sound(w) && NotesNew(w) && RecentOnce(w) && Traced(w)
  }

  lemma StepInOrder(w: World, step: Step)
    requires InOrder(w) && Enabled(w, step) && Obeys(w, step)
    ensures InOrder(Next(w, step))
  {
    ObeysHonours(w, step);
    StepRecentIff(w, step);
    StepTraced(w, step);
    StepNotesNew(w, step);
    StepSound(w, step);
  }

  ghost predicate StaysInOrder(ws: seq<World>, i: nat)
    requires i + 1 < |ws|
  {
    InOrder(ws[i]) ==> InOrder(ws[i + 1])
  }

  lemma InOrderAt(ws: seq<World>, steps: seq<Step>, i: nat)
    requires Run(ws, steps) && i < |steps| && Obeys(ws[i], steps[i])
    ensures StaysInOrder(ws, i)
  {
    if InOrder(ws[i]) { StepInOrder(ws[i], steps[i]); }
  }

  lemma {:induction false} RunsStayInOrder(ws: seq<World>, j: nat)
    requires j < |ws| && InOrder(ws[0]) && forall i :: 0 <= i && i + 1 < |ws| ==> StaysInOrder(ws, i)
    ensures InOrder(ws[j])
    decreases j
  {
    if j == 0 {
    } else {
      RunsStayInOrder(ws, j - 1);
      assert StaysInOrder(ws, j - 1);
    }
  }

  /**
   In every run whose callers obey the manager no message is shown as \Recent by two sessions, and each
   session's count is the size of its set.
   */
  lemma RecentShownOnce(ws: seq<World>, steps: seq<Step>, j: nat)
    requires Run(ws, steps) && j < |ws| && Initial(ws[0])
    requires forall i :: 0 <= i < |steps| ==> Obeys(ws[i], steps[i])
    ensures forall a, b :: a in ws[j].members && b in ws[j].members && a != b ==>
              ws[j].members[a].session.recent !! ws[j].members[b].session.recent
    ensures forall a :: a in ws[j].members ==> ws[j].members[a].session.recentCount == |ws[j].members[a].session.recent|
  {
    forall i | 0 <= i && i + 1 < |ws| ensures StaysInOrder(ws, i) { InOrderAt(ws, steps, i); }
    RunsStayInOrder(ws, j);
    var w := ws[j];
    forall a, b | a in w.members && b in w.members && a != b
      ensures w.members[a].session.recent !! w.members[b].session.recent
    {
      assert Held(w, a) !! Held(w, b);
    }
    forall a | a in w.members ensures w.members[a].session.recentCount == |w.members[a].session.recent| {
      assert Counted(w.members[a], a);
    }
  }

  // ---- What is said of it ----

  /** The session takes an arrival that is its to show as \Recent. */
  predicate TakesRecent(step: Step, id: Id) {
    step.Deliver? && step.id == id && step.note.Arrival? && step.note.recentFor == Some(id)
  }

  /** Such an arrival was taken with step `k`, and no `Sync` has been since. */
  ghost predicate TookSince(steps: seq<Step>, id: Id, k: nat, j: nat) {
    && k < j <= |steps| && TakesRecent(steps[k], id)
    && forall l :: k < l < j ==> !(steps[l].Sync? && steps[l].id == id)
  }

  ghost predicate TookRecent(steps: seq<Step>, id: Id, j: nat) {
    exists k :: TookSince(steps, id, k, j)
  }

  lemma TookOn(steps: seq<Step>, id: Id, j: nat)
    requires j < |steps|
    ensures TookRecent(steps, id, j + 1)
            <==> TakesRecent(steps[j], id) || (TookRecent(steps, id, j) && !(steps[j].Sync? && steps[j].id == id))
  {
    if TakesRecent(steps[j], id) { assert TookSince(steps, id, j, j + 1); }
    if k: nat :| TookSince(steps, id, k, j) && !(steps[j].Sync? && steps[j].id == id) {
      assert TookSince(steps, id, k, j + 1);
    }
    var next := j + 1;
    if k: nat :| TookSince(steps, id, k, next) && k < j { assert TookSince(steps, id, k, j); }
  }

  /** Announcements name at least one message. */
  ghost predicate NotesName(w: World) {
    forall a :: a in w.members ==> forall n :: n in w.members[a].todo && n.Arrival? ==> n.uids != {}
  }

  /** A session has something new to say of recent messages only while it has arrivals to show. */
  ghost predicate NewRecentPending(w: World) {
    forall a :: a in w.members && w.members[a].session.hasNewRecent ==> w.members[a].session.created != {}
  }

  lemma StepNotesName(w: World, step: Step)
    requires NotesName(w) && NewRecentPending(w) && Enabled(w, step)
    ensures NotesName(Next(w, step)) && NewRecentPending(Next(w, step))
  {
    var w' := Next(w, step);
    forall a | a in w'.members
      ensures forall n :: n in w'.members[a].todo && n.Arrival? ==> n.uids != {}
      ensures w'.members[a].session.hasNewRecent ==> w'.members[a].session.created != {}
    {
      if a in w.members { assert forall n :: n in w.members[a].todo && n.Arrival? ==> n.uids != {}; }
    }
  }

  lemma {:induction false} RunsNotesName(ws: seq<World>, steps: seq<Step>, j: nat)
    requires Run(ws, steps) && j < |ws| && Initial(ws[0])
    ensures NotesName(ws[j]) && NewRecentPending(ws[j])
    decreases j
  {
    if j == 0 {
    } else {
      RunsNotesName(ws, steps, j - 1);
      assert Enabled(ws[j - 1], steps[j - 1]);
      StepNotesName(ws[j - 1], steps[j - 1]);
    }
  }

  /** A session is registered once. */
  lemma {:induction false} NotListedAgain(ws: seq<World>, steps: seq<Step>, k: nat, j: nat, id: Id)
    requires Run(ws, steps) && Sound(ws[0]) && k <= j < |ws| && id in ws[k].members
    ensures id in ws[j].used && id !in ws[j].listings
    decreases j
  {
    RunsStaySound(ws, steps, k);
    if j == k {
    } else {
      NotListedAgain(ws, steps, k, j - 1, id);
      assert Enabled(ws[j - 1], steps[j - 1]);
    }
  }

  lemma NewRecentStep(w: World, step: Step, id: Id)
    requires Sound(w) && NewRecentPending(w) && Enabled(w, step) && id in w.members && id in Next(w, step).members
    ensures Next(w, step).members[id].session.hasNewRecent
            <==> TakesRecent(step, id) || (w.members[id].session.hasNewRecent && !(step.Sync? && step.id == id))
  {
  }

  /** In every run a session has something new to say exactly if it took such an arrival since its last `Sync`. */
  lemma {:induction false} NewRecentIff(ws: seq<World>, steps: seq<Step>, j: nat, id: Id)
    requires Run(ws, steps) && j < |ws| && Initial(ws[0]) && id in ws[j].members
    ensures ws[j].members[id].session.hasNewRecent <==> TookRecent(steps, id, j)
    decreases j
  {
    if j == 0 {
    } else {
      NewRecentOn(ws, steps, j - 1, id);
      if id in ws[j - 1].members {
        NewRecentIff(ws, steps, j - 1, id);
      }
      TookOn(steps, id, j - 1);
    }
  }

  lemma NewRecentOn(ws: seq<World>, steps: seq<Step>, i: nat, id: Id)
    requires Run(ws, steps) && i < |steps| && Initial(ws[0]) && id in ws[i + 1].members
    ensures id in ws[i].members ==>
              (ws[i + 1].members[id].session.hasNewRecent
               <==> TakesRecent(steps[i], id)
                    || (ws[i].members[id].session.hasNewRecent && !(steps[i].Sync? && steps[i].id == id)))
    ensures id !in ws[i].members ==>
              !ws[i + 1].members[id].session.hasNewRecent && !TakesRecent(steps[i], id) && !TookRecent(steps, id, i)
  {
    var w, step := ws[i], steps[i];
    RunsStaySound(ws, steps, i);
    RunsNotesName(ws, steps, i);
    if id in w.members {
      NewRecentStep(w, step, id);
    } else {
      assert step == Register(id);
      if k: nat :| TookSince(steps, id, k, i) {
        TookBefore(ws, steps, id, k, i);
        assert false;
      }
    }
  }

  lemma TookBefore(ws: seq<World>, steps: seq<Step>, id: Id, k: nat, i: nat)
    requires Run(ws, steps) && Sound(ws[0]) && TookSince(steps, id, k, i)
    ensures id !in ws[i].listings
  {
    assert Enabled(ws[k], steps[k]);
    NotListedAgain(ws, steps, k, i, id);
  }

  /**
   In every run a `Sync` says how many messages are recent if and only if the session took an arrival as recent
   since its last `Sync`, and the number is its count.
   */
  lemma RecentSaidIff(ws: seq<World>, steps: seq<Step>, j: nat, id: Id, expunge: bool, n: nat)
    requires Run(ws, steps) && j < |ws| && Initial(ws[0]) && id in ws[j].members
    ensures S.Recent(n) in SyncUpdates(ws[j].members[id].session, expunge)
            <==> TookRecent(steps, id, j) && n == ws[j].members[id].session.recentCount
  {
    RunsStaySound(ws, steps, j);
    RunsNotesName(ws, steps, j);
    NewRecentIff(ws, steps, j, id);
    CountsSentIff(ws[j].members[id].session, expunge, n);
  }

  /** If the callers obey the manager, that is the number of messages the session shows as \Recent. */
  lemma RecentSaidRight(ws: seq<World>, steps: seq<Step>, j: nat, id: Id, expunge: bool, n: nat)
    requires Run(ws, steps) && j < |ws| && Initial(ws[0]) && id in ws[j].members
    requires forall i :: 0 <= i < |steps| ==> Obeys(ws[i], steps[i])
    ensures S.Recent(n) in SyncUpdates(ws[j].members[id].session, expunge)
            <==> TookRecent(steps, id, j) && n == |ws[j].members[id].session.recent|
  {
    RecentShownOnce(ws, steps, j);
    RecentSaidIff(ws, steps, j, id, expunge, n);
  }

  /** Messages 2 and 4 without recents, 5 arrives and is taken as recent: three messages, one of them recent. */
  lemma OneRecentOfThree()
    ensures SyncUpdates(EnqueueCreated(Opened([2, 4], {}), {5}, true), false) == [Exists(3), S.Recent(1)]
  {
    var s := EnqueueCreated(Opened([2, 4], {}), {5}, true);
    assert s.created == {5};
    assert Elements([5]) == {5};
    AscendingUnique([5], Listed({5}));
    assert SyncMap(s, false) == [2, 4, 5];
  }

  /**
   A delivery stores the flag whatever the manager answers. One session open, one message delivered and
   announced, a second session opened: both show it as \Recent.
   */
  lemma DeliveryShowsRecentTwice() returns (ws: seq<World>, steps: seq<Step>, w: World)
    ensures R.Leads(ws, steps, w) && 1 in w.members && 2 in w.members
    ensures w.members[1].session.recent == {5} && w.members[2].session.recent == {5}
  {
    ws, steps, w := R.OpenEmpty();
    ws, steps := R.Then(ws, steps, w, Commit({5}, true));
    w := Next(w, Commit({5}, true));
    assert 1 in w.members;
    ws, steps := R.Then(ws, steps, w, Announce({5}, Some(1)));
    w := Next(w, Announce({5}, Some(1)));
    assert w.members == map[1 := R.FRESH.(todo := {R.FIVE})];
    ws, steps := R.Then(ws, steps, w, Deliver(1, R.FIVE));
    w := Next(w, Deliver(1, R.FIVE));
    PageLive({5});
    assert Live(w) == {5} && w.persisted == {5} && {5} * {5} == {5};
    ws, steps := R.Then(ws, steps, w, List(2, false));
    w := Next(w, List(2, false));
    assert w.listings == map[2 := Listing({5}, {5})];
    ws, steps := R.Then(ws, steps, w, Register(2));
    w := Next(w, Register(2));
  }
}
