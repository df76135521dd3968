/**
 Every run of one mailbox with any number of sessions (internal/go-imap-mess/mailbox.go and
 sequpdate.go, with the callers in internal/go-imap-sql). Messages are committed to the database and
 announced to the sessions in separate steps, in either order, and so are removals. An announcing loop
 holds its locks shared, so several may be under way, and each session takes what is announced in any
 order. A session lists the mailbox in a transaction and registers afterwards. Registering and closing
 take the locks exclusively: they happen when no loop is under way.
 */
module Runs {
  import opened Uids
  import opened S = Session

  type Id = nat

  /** An announcement. An arrival names the session whose turn it is to show it as \Recent. */
  datatype Note =
    | Arrival(serial: nat, uids: set<nat>, recentFor: Option<Id>)
    | Removal(serial: nat, uids: set<nat>)

  /**
   A registered session, the client's mirror of it, and the announcements that have yet to reach it.
   `known` and `told` record the past: what it listed or took as arrivals, and as removals.
   */
  datatype Member = Member(session: Session, view: seq<nat>, todo: set<Note>, known: set<nat>, told: set<nat>)

  /** What a session read when it listed the mailbox. */
  datatype Listing = Listing(uids: set<nat>, recents: set<nat>)

  datatype World = World(
    committed: set<nat>,     // ever stored
    dropped: set<nat>,       // stored and deleted since
    announced: set<nat>,     // arrivals announced
    promised: set<nat>,      // of these, those a session was to show as \Recent
    removed: set<nat>,       // removals announced
    persisted: set<nat>,     // stored with a persistent \Recent flag
    members: map<Id, Member>,
    listings: map<Id, Listing>,
    used: set<Id>,
    serial: nat)

  datatype Step =
    | Commit(uids: set<nat>, store: bool)
    | Announce(uids: set<nat>, taker: Option<Id>)
    | Drop(uids: set<nat>)
    | AnnounceRemoval(uids: set<nat>, connected: bool)
    | List(id: Id, readOnly: bool)
    | Register(id: Id)
    | Close(id: Id)
    | Deliver(id: Id, note: Note)
    | Sync(id: Id, expunge: bool)
    | FlagsChanged(id: Id, uid: nat, flags: seq<string>)

  /** The messages in the mailbox. */
  function Live(w: World): set<nat> {
    w.committed - w.dropped
  }

  /** `listMsgUidsRecent` reads at most this many rows, from the lowest UID up. */
  const LISTING_LIMIT := 100000

  ghost function Page(live: set<nat>): set<nat> {
    var list := Listed(live);
    if |list| <= LISTING_LIMIT then live else Elements(list[..LISTING_LIMIT])
  }

  /** No announcing loop is under way. */
  ghost predicate AtRest(w: World) {
    forall id :: id in w.members ==> w.members[id].todo == {}
  }

  ghost predicate Enabled(w: World, step: Step) {
    match step
    case Commit(uids, _) => uids !! w.committed
    case Announce(uids, taker) =>
      && uids != {} && uids !! w.announced
      && (taker.None? <==> w.members == map[]) && (taker.Some? ==> taker.value in w.members)
    case Drop(uids) => uids <= Live(w)
    case AnnounceRemoval(uids, _) => uids <= w.dropped
    case List(id, _) => id !in w.used
    case Register(id) => id in w.listings && AtRest(w)
    case Close(id) => id in w.members && AtRest(w)
    case Deliver(id, note) => id in w.members && note in w.members[id].todo
    case Sync(id, _) => id in w.members
    case FlagsChanged(id, _, _) => id in w.members
  }

  // ---- What a step does to one session ----

  ghost function Receiving(m: Member, note: Note): Member {
    m.(todo := m.todo + {note})
  }

  ghost function Taking(m: Member, id: Id, note: Note): Member {
    match note
    case Arrival(_, uids, recentFor) =>
      m.(session := EnqueueCreated(m.session, uids, recentFor == Some(id)),
         todo := m.todo - {note}, known := m.known + uids)
    case Removal(_, uids) =>
      m.(session := EnqueueExpunged(m.session, uids), todo := m.todo - {note}, told := m.told + uids)
  }

  ghost function Synced(m: Member, expunge: bool): Member {
    var after := SyncState(m.session, expunge);
    m.(session := after, view := AllApplied(m.view, SyncUpdates(m.session, expunge), after.uidMap))
  }

  ghost function Joined(l: Listing): Member {
    var uids := Listed(l.uids);
    Member(Opened(uids, l.recents), uids, {}, l.uids, {})
  }

  ghost function Broadcast(members: map<Id, Member>, note: Note): map<Id, Member> {
    map id | id in members :: Receiving(members[id], note)
  }

  ghost function Next(w: World, step: Step): World
    requires Enabled(w, step)
  {
    match step
    case Commit(uids, store) =>
      w.(committed := w.committed + uids, persisted := if store then w.persisted + uids else w.persisted)
    case Announce(uids, taker) =>
      w.(announced := w.announced + uids, promised := if taker.Some? then w.promised + uids else w.promised,
         members := Broadcast(w.members, Arrival(w.serial, uids, taker)), serial := w.serial + 1)
    case Drop(uids) => w.(dropped := w.dropped + uids, persisted := w.persisted - uids)
    case AnnounceRemoval(uids, connected) =>
      w.(removed := w.removed + uids,
         members := if connected then Broadcast(w.members, Removal(w.serial, uids)) else w.members,
         serial := w.serial + 1)
    case List(id, readOnly) =>
      w.(listings := w.listings[id := Listing(Page(Live(w)), w.persisted * Page(Live(w)))], used := w.used + {id},
         persisted := if readOnly then w.persisted else {})
    case Register(id) => w.(members := w.members[id := Joined(w.listings[id])], listings := w.listings - {id})
    case Close(id) => w.(members := w.members - {id})
    case Deliver(id, note) => w.(members := w.members[id := Taking(w.members[id], id, note)])
    case Sync(id, expunge) => w.(members := w.members[id := Synced(w.members[id], expunge)])
    case FlagsChanged(id, uid, flags) =>
      var m := w.members[id];
      w.(members := w.members[id := m.(session := EnqueueFlags(m.session, uid, flags))])
  }

  ghost predicate Run(ws: seq<World>, steps: seq<Step>) {
    |ws| == |steps| + 1 &&
    forall i {:trigger steps[i]} :: 0 <= i < |steps| ==> Enabled(ws[i], steps[i]) && ws[i + 1] == Next(ws[i], steps[i])
  }

  /** A mailbox with any contents and history, all of it announced, and no session yet. */
  ghost predicate Initial(w: World) {
    && w.announced == w.committed && w.dropped == w.removed <= w.committed && w.promised == {}
    && w.persisted <= Live(w) && w.members == map[] && w.listings == map[] && w.used == {}
  }

  // ---- Announcements on their way ----

  ghost function Coming(todo: set<Note>): set<nat> {
    set n, x | n in todo && n.Arrival? && x in n.uids :: x
  }

  ghost function Going(todo: set<Note>): set<nat> {
    set n, x | n in todo && n.Removal? && x in n.uids :: x
  }

  lemma MoreToCome(todo: set<Note>, note: Note)
    ensures Coming(todo + {note}) == Coming(todo) + if note.Arrival? then note.uids else {}
    ensures Going(todo + {note}) == Going(todo) + if note.Removal? then note.uids else {}
  {
    var more := todo + {note};
    forall x | x in Coming(todo) ensures x in Coming(more) {
      var n :| n in todo && n.Arrival? && x in n.uids;
      assert n in more;
    }
    forall x | x in Going(todo) ensures x in Going(more) {
      var n :| n in todo && n.Removal? && x in n.uids;
      assert n in more;
    }
    assert note in more;
  }

  /** What a session knows and is about to know does not change when it takes an announcement. */
  lemma TakingKeeps(m: Member, id: Id, note: Note)
    requires note in m.todo
    ensures Taking(m, id, note).known + Coming(Taking(m, id, note).todo) == m.known + Coming(m.todo)
    ensures Taking(m, id, note).told + Going(Taking(m, id, note).todo) == m.told + Going(m.todo)
  {
    var rest := m.todo - {note};
    assert rest + {note} == m.todo;
    MoreToCome(rest, note);
  }

  // ---- What holds in every run ----

  /**
   The client mirrors the map. It is shown nothing but what the session listed or took, and everything
   of that is in the map or pending unless a removal was taken; only such removals are pending.
   */
  ghost predicate Mirrors(m: Member) {
    && m.session.connected && m.view == m.session.uidMap
    && Elements(m.session.uidMap) + m.session.created <= m.known
    && m.known - m.told <= Elements(m.session.uidMap) + m.session.created
    && m.session.expunged <= m.told
  }

  /** Nothing is made up: arrivals were stored or announced, removals are of deleted messages. */
  ghost predicate Backed(m: Member, ever: set<nat>, dropped: set<nat>) {
    m.known + Coming(m.todo) <= ever && m.told + Going(m.todo) <= dropped
  }

  ghost predicate SoundMember(m: Member, ever: set<nat>, dropped: set<nat>) {
    Mirrors(m) && Backed(m, ever, dropped)
  }

  ghost predicate Sound(w: World) {
    && (forall id :: id in w.members ==> SoundMember(w.members[id], w.committed + w.announced, w.dropped))
    && (forall id :: id in w.listings ==> w.listings[id].uids <= w.committed)
    && w.dropped <= w.committed && w.members.Keys !! w.listings.Keys && w.members.Keys + w.listings.Keys <= w.used
  }

  lemma TakingMirrors(m: Member, id: Id, note: Note)
    requires Mirrors(m)
    ensures Mirrors(Taking(m, id, note))
  {
    var m', u := Taking(m, id, note), Elements(m.session.uidMap);
    assert m'.session.uidMap == m.session.uidMap;
    forall x | x in m'.known && x !in m'.told ensures x in u + m'.session.created {
      if x in m.known { assert x in m.known - m.told; }
    }
  }

  lemma SyncedMirrors(m: Member, expunge: bool)
    requires Mirrors(m)
    ensures Mirrors(Synced(m, expunge))
  {
    SyncMirrors(m.session, expunge);
    SyncElements(m.session, expunge);
  }

  lemma PageLive(live: set<nat>)
    ensures Page(live) <= live
    ensures |live| <= LISTING_LIMIT ==> Page(live) == live
  {
    var list := Listed(live);
    if |list| > LISTING_LIMIT {
      forall x | x in Elements(list[..LISTING_LIMIT]) ensures x in Elements(list) { }
    }
  }

  lemma ReceivingSound(m: Member, note: Note, ever: set<nat>, dropped: set<nat>)
    requires SoundMember(m, ever, dropped) && note.uids <= if note.Arrival? then ever else dropped
    ensures SoundMember(Receiving(m, note), ever, dropped)
  {
    MoreToCome(m.todo, note);
  }

  lemma TakingSound(m: Member, id: Id, note: Note, ever: set<nat>, dropped: set<nat>)
    requires SoundMember(m, ever, dropped) && note in m.todo
    ensures SoundMember(Taking(m, id, note), ever, dropped)
  {
    TakingMirrors(m, id, note);
    TakingKeeps(m, id, note);
  }

  lemma SyncedSound(m: Member, expunge: bool, ever: set<nat>, dropped: set<nat>)
    requires SoundMember(m, ever, dropped)
    ensures SoundMember(Synced(m, expunge), ever, dropped)
  {
    SyncedMirrors(m, expunge);
  }

  lemma JoinedSound(l: Listing, ever: set<nat>, dropped: set<nat>)
    requires l.uids <= ever
    ensures SoundMember(Joined(l), ever, dropped)
  {
    assert Coming({}) == {} && Going({}) == {};
  }

  lemma MoreSound(m: Member, ever: set<nat>, dropped: set<nat>, ever': set<nat>, dropped': set<nat>)
    requires SoundMember(m, ever, dropped) && ever <= ever' && dropped <= dropped'
    ensures SoundMember(m, ever', dropped')
  {
  }

  lemma StepMemberSound(w: World, step: Step, a: Id)
    requires Sound(w) && Enabled(w, step) && a in Next(w, step).members
    ensures var w' := Next(w, step); SoundMember(w'.members[a], w'.committed + w'.announced, w'.dropped)
  {
    var w' := Next(w, step);
    var ever, ever' := w.committed + w.announced, w'.committed + w'.announced;
    if a in w.members { MoreSound(w.members[a], ever, w.dropped, ever', w'.dropped); }
    match step
    case Announce(uids, taker) =>
      ReceivingSound(w.members[a], Arrival(w.serial, uids, taker), ever', w'.dropped);
    case AnnounceRemoval(uids, connected) =>
      if connected { ReceivingSound(w.members[a], Removal(w.serial, uids), ever', w'.dropped); }
    case Register(id) => if a == id { JoinedSound(w.listings[id], ever', w'.dropped); }
    case Deliver(id, note) => if a == id { TakingSound(w.members[a], a, note, ever', w'.dropped); }
    case Sync(id, expunge) => if a == id { SyncedSound(w.members[a], expunge, ever', w'.dropped); }
    case _ =>
  }

  lemma StepSound(w: World, step: Step)
    requires Sound(w) && Enabled(w, step)
    ensures Sound(Next(w, step))
  {
    var w' := Next(w, step);
    PageLive(Live(w));
    forall a | a in w'.members ensures SoundMember(w'.members[a], w'.committed + w'.announced, w'.dropped) {
      StepMemberSound(w, step, a);
    }
  }

  /** In every run, whatever the order of announcements, every session is sound. */
  lemma {:induction false} RunsStaySound(ws: seq<World>, steps: seq<Step>, j: nat)
    requires Run(ws, steps) && j < |ws| && Sound(ws[0])
    ensures Sound(ws[j])
    decreases j
  {
    if j == 0 {
    } else {
      RunsStaySound(ws, steps, j - 1);
      StepSound(ws[j - 1], steps[j - 1]);
    }
  }

  // ---- Exactly the mailbox ----

  /** The map ascends, and everything pending lies above it. */
  ghost predicate Ordered(s: Session) {
    Ascending(s.uidMap) && forall x, y :: x in Elements(s.uidMap) && y in s.created ==> x < y
  }

  /** Map plus pending arrivals, less pending removals, is what the session knows and was not told to forget. */
  ghost predicate Exact(m: Member) {
    Elements(m.session.uidMap) + m.session.created - m.session.expunged == m.known - m.told
  }

  /** Every message wanted is known or on its way. */
  ghost predicate Covered(m: Member, wanted: set<nat>) {
    wanted <= m.known + Coming(m.todo)
  }

  /** Of every removed message that is known or on its way, so is the removal. */
  ghost predicate Informed(m: Member, removed: set<nat>) {
    (m.known + Coming(m.todo)) * removed <= m.told + Going(m.todo)
  }

  ghost predicate FaithfulMember(m: Member, wanted: set<nat>, removed: set<nat>) {
    Ordered(m.session) && Exact(m) && Covered(m, wanted) && Informed(m, removed)
  }

  ghost predicate Faithful(w: World) {
    forall id :: id in w.members ==> FaithfulMember(w.members[id], w.announced - w.dropped, w.removed)
  }

  /** These lie above the map. */
  ghost predicate OnTop(m: Member, uids: set<nat>) {
    forall x, y :: x in Elements(m.session.uidMap) && y in uids ==> x < y
  }

  /** An arrival comes after everything shown, and its removal was not shown before. */
  ghost predicate InTime(m: Member, uids: set<nat>) {
    OnTop(m, uids) && uids !! m.told - m.session.expunged
  }

  /** The removals of these are known to the session or on their way. */
  ghost predicate Forewarned(m: Member, uids: set<nat>) {
    uids <= m.told + Going(m.todo)
  }

  /**
   The ways in which a session drifts from the mailbox: a `Sync(true)` that meets a UID both created and
   expunged; an arrival taken after a later one was shown, after the message itself was listed, or after its
   removal was shown; a session that registers after something announced since it listed; an arrival
   announced after the removal to a session that was not told of that; and a removal through a handle
   without a connection.
   */
  ghost predicate Clean(w: World, step: Step)
    requires Enabled(w, step)
  {
    match step
    case Sync(id, expunge) => expunge ==> w.members[id].session.created !! w.members[id].session.expunged
    case Deliver(id, note) => note.Arrival? ==> InTime(w.members[id], note.uids)
    case Register(id) => w.announced - w.dropped <= w.listings[id].uids && w.listings[id].uids !! w.removed
    case Announce(uids, _) => forall id :: id in w.members ==> Forewarned(w.members[id], uids * w.removed)
    case AnnounceRemoval(uids, connected) =>
      connected || forall id :: id in w.members ==>
        Forewarned(w.members[id], (w.members[id].known + Coming(w.members[id].todo)) * uids)
    case _ => true
  }

  lemma ExactArrivalIff(u: set<nat>, c: set<nat>, e: set<nat>, known: set<nat>, told: set<nat>, uids: set<nat>)
    requires u + c - e == known - told && e <= told
    ensures u + (c + uids) - e == known + uids - told <==> uids !! told - e
  {
    var l, r := u + (c + uids) - e, known + uids - told;
    assert r == (u + c - e) + (uids - told) && l == (u + c - e) + (uids - e);
    if x :| x in uids && x in told - e {
      assert x in l && x !in r;
    } else {
      assert uids - e == uids - told;
    }
  }

  /** A session stays faithful when it takes an arrival if and only if that comes in time. */
  lemma TakingFaithfulIff(m: Member, id: Id, note: Note, wanted: set<nat>, removed: set<nat>)
    requires Mirrors(m) && FaithfulMember(m, wanted, removed) && note in m.todo
    ensures FaithfulMember(Taking(m, id, note), wanted, removed) <==> (note.Arrival? ==> InTime(m, note.uids))
  {
    TakingKeeps(m, id, note);
    var u, c, e := Elements(m.session.uidMap), m.session.created, m.session.expunged;
    if note.Arrival? {
      ExactArrivalIff(u, c, e, m.known, m.told, note.uids);
    } else {
      assert u + c - (e + note.uids) == (u + c - e) - note.uids;
    }
  }

  lemma ExactSyncIff(u: set<nat>, c: set<nat>, e: set<nat>)
    ensures (u - e) + c == u + c - e <==> c !! e
  {
    if x :| x in c && x in e { assert x in (u - e) + c && x !in u + c - e; }
  }

  /** A session stays faithful over a `Sync(true)` if and only if nothing is both created and expunged. */
  lemma SyncedFaithfulIff(m: Member, expunge: bool, wanted: set<nat>, removed: set<nat>)
    requires Mirrors(m) && FaithfulMember(m, wanted, removed)
    ensures FaithfulMember(Synced(m, expunge), wanted, removed)
            <==> (expunge ==> m.session.created !! m.session.expunged)
  {
    SyncedOrdered(m.session, expunge);
    SyncedExactIff(m, expunge);
    var m' := Synced(m, expunge);
    assert m'.known == m.known && m'.told == m.told && m'.todo == m.todo;
  }

  lemma SyncedOrdered(s: Session, expunge: bool)
    requires s.connected && Ordered(s)
    ensures Ordered(SyncState(s, expunge))
  {
    SyncAscending(s, expunge);
  }

  lemma SyncedExactIff(m: Member, expunge: bool)
    requires m.session.connected && Exact(m)
    ensures Exact(Synced(m, expunge)) <==> (expunge ==> m.session.created !! m.session.expunged)
  {
    var u, c, e := Elements(m.session.uidMap), m.session.created, m.session.expunged;
    SyncElements(m.session, expunge);
    ExactSyncIff(u, c, e);
    var u' := Elements(SyncState(m.session, expunge).uidMap);
    assert u' + {} - {} == u' && u + c + {} - e == u + c - e;
  }

  lemma JoinedFaithfulIff(l: Listing, wanted: set<nat>, removed: set<nat>)
    ensures FaithfulMember(Joined(l), wanted, removed) <==> wanted <= l.uids && l.uids !! removed
  {
    assert Coming({}) == {} && Going({}) == {};
    assert Joined(l).known + Coming({}) == l.uids;
  }

  lemma ArrivalFaithfulIff(m: Member, note: Note, wanted: set<nat>, removed: set<nat>, wanted': set<nat>)
    requires FaithfulMember(m, wanted, removed) && note.Arrival? && wanted' <= wanted + note.uids
    ensures FaithfulMember(Receiving(m, note), wanted', removed) <==> Forewarned(m, note.uids * removed)
  {
    MoreToCome(m.todo, note);
    var all := m.known + Coming(m.todo);
    assert m.known + (Coming(m.todo) + note.uids) == all + note.uids;
    assert (all + note.uids) * removed == all * removed + note.uids * removed;
    assert Going(m.todo) + {} == Going(m.todo);
  }

  lemma RemovalFaithful(m: Member, note: Note, wanted: set<nat>, removed: set<nat>)
    requires FaithfulMember(m, wanted, removed) && note.Removal?
    ensures FaithfulMember(Receiving(m, note), wanted, removed + note.uids)
  {
    MoreToCome(m.todo, note);
    var all := m.known + Coming(m.todo);
    assert Coming(m.todo) + {} == Coming(m.todo);
    assert all * (removed + note.uids) == all * removed + all * note.uids;
  }

  lemma SilentFaithfulIff(m: Member, uids: set<nat>, wanted: set<nat>, removed: set<nat>)
    requires FaithfulMember(m, wanted, removed)
    ensures FaithfulMember(m, wanted, removed + uids) <==> Forewarned(m, (m.known + Coming(m.todo)) * uids)
  {
    var all := m.known + Coming(m.todo);
    assert all * (removed + uids) == all * removed + all * uids;
  }

  lemma LessFaithful(m: Member, wanted: set<nat>, removed: set<nat>, wanted': set<nat>)
    requires FaithfulMember(m, wanted, removed) && wanted' <= wanted
    ensures FaithfulMember(m, wanted', removed)
  {
  }

  /** What a step has to meet for one session. */
  ghost predicate CleanFor(w: World, step: Step, a: Id)
    requires Enabled(w, step) && a in Next(w, step).members
  {
    match step
    case Sync(id, expunge) => a == id && expunge ==> w.members[id].session.created !! w.members[id].session.expunged
    case Deliver(id, note) => a == id && note.Arrival? ==> InTime(w.members[id], note.uids)
    case Register(id) => a == id ==> w.announced - w.dropped <= w.listings[id].uids && w.listings[id].uids !! w.removed
    case Announce(uids, _) => Forewarned(w.members[a], uids * w.removed)
    case AnnounceRemoval(uids, connected) =>
      connected || Forewarned(w.members[a], (w.members[a].known + Coming(w.members[a].todo)) * uids)
    case _ => true
  }

  lemma RemovedFaithfulIff(w: World, step: Step, a: Id)
    requires Faithful(w) && Enabled(w, step) && step.AnnounceRemoval? && a in w.members
    ensures var w' := Next(w, step);
            FaithfulMember(w'.members[a], w'.announced - w'.dropped, w'.removed) <==> CleanFor(w, step, a)
  {
    var wanted := w.announced - w.dropped;
    if step.connected {
      RemovalFaithful(w.members[a], Removal(w.serial, step.uids), wanted, w.removed);
    } else {
      SilentFaithfulIff(w.members[a], step.uids, wanted, w.removed);
    }
  }

  lemma MemberFaithfulIff(w: World, step: Step, a: Id)
    requires Sound(w) && Faithful(w) && Enabled(w, step) && a in Next(w, step).members
    ensures var w' := Next(w, step);
            FaithfulMember(w'.members[a], w'.announced - w'.dropped, w'.removed) <==> CleanFor(w, step, a)
  {
    var w' := Next(w, step);
    var wanted, wanted' := w.announced - w.dropped, w'.announced - w'.dropped;
    match step
    case Announce(uids, taker) =>
      ArrivalFaithfulIff(w.members[a], Arrival(w.serial, uids, taker), wanted, w.removed, wanted');
    case AnnounceRemoval(uids, connected) => RemovedFaithfulIff(w, step, a);
    case Register(id) => if a == id { JoinedFaithfulIff(w.listings[id], wanted, w.removed); }
    case Deliver(id, note) => if a == id { TakingFaithfulIff(w.members[a], a, note, wanted, w.removed); }
    case Sync(id, expunge) => if a == id { SyncedFaithfulIff(w.members[a], expunge, wanted, w.removed); }
    case _ =>
      LessFaithful(w.members[a], wanted, w.removed, wanted');
  }

  /** A step keeps every session faithful to the mailbox if and only if it is clean. */
  lemma StepFaithfulIff(w: World, step: Step)
    requires Sound(w) && Faithful(w) && Enabled(w, step)
    ensures Faithful(Next(w, step)) <==> Clean(w, step)
  {
    var w' := Next(w, step);
    forall a | a in w'.members
      ensures FaithfulMember(w'.members[a], w'.announced - w'.dropped, w'.removed) <==> CleanFor(w, step, a)
    {
      MemberFaithfulIff(w, step, a);
    }
    CleanForAll(w, step);
  }

  lemma CleanForAll(w: World, step: Step)
    requires Enabled(w, step)
    ensures Clean(w, step) <==> forall a :: a in Next(w, step).members ==> CleanFor(w, step, a)
  {
    var w' := Next(w, step);
    match step
    case Sync(id, _) => assert id in w'.members;
    case Deliver(id, _) => assert id in w'.members;
    case Register(id) => assert id in w'.members;
    case Announce(_, _) => assert w'.members.Keys == w.members.Keys;
    case AnnounceRemoval(_, _) => assert w'.members.Keys == w.members.Keys;
    case _ =>
  }

  ghost predicate CleanRun(ws: seq<World>, steps: seq<Step>)
    requires Run(ws, steps)
  {
    forall i {:trigger steps[i]} :: 0 <= i < |steps| ==> Clean(ws[i], steps[i])
  }

  lemma FaithfulOn(ws: seq<World>, steps: seq<Step>, i: nat)
    requires Run(ws, steps) && CleanRun(ws, steps) && i < |steps| && Sound(ws[i]) && Faithful(ws[i])
    ensures Faithful(ws[i + 1])
  {
    var w, step := ws[i], steps[i];
    StepFaithfulIff(w, step);
  }

  /** In every clean run, every session is faithful. */
  lemma {:induction false} RunsStayFaithful(ws: seq<World>, steps: seq<Step>, j: nat)
    requires Run(ws, steps) && j < |ws| && Sound(ws[0]) && Faithful(ws[0]) && CleanRun(ws, steps)
    ensures Faithful(ws[j])
    decreases j
  {
    if j == 0 {
    } else {
      RunsStayFaithful(ws, steps, j - 1);
      RunsStaySound(ws, steps, j - 1);
      FaithfulOn(ws, steps, j - 1);
    }
  }

  /** Everything stored is announced, and everything deleted. */
  ghost predicate Quiet(w: World) {
    w.announced == w.committed && w.removed == w.dropped
  }

  /** A session that has taken everything announced knows exactly the mailbox. */
  lemma CaughtUp(m: Member, committed: set<nat>, dropped: set<nat>)
    requires Backed(m, committed, dropped) && FaithfulMember(m, committed - dropped, dropped) && m.todo == {}
    ensures m.known - m.told == committed - dropped
  {
    assert Coming(m.todo) == {} && Going(m.todo) == {};
    forall x | x in m.known && x !in m.told ensures x !in dropped {
      assert x in m.known * dropped ==> x in (m.known + Coming(m.todo)) * dropped;
    }
  }

  /**
   After any clean run, once everything is announced, a session that has taken it all and then runs a
   clean `Sync(true)` shows its client exactly the mailbox, in ascending order of UID.
   */
  lemma ClientSeesMailbox(ws: seq<World>, steps: seq<Step>, j: nat, id: Id)
    requires Run(ws, steps) && Initial(ws[0]) && j < |ws| && CleanRun(ws, steps)
    requires Quiet(ws[j]) && id in ws[j].members && ws[j].members[id].todo == {}
    requires Clean(ws[j], Sync(id, true))
    ensures Next(ws[j], Sync(id, true)).members[id].view == Listed(Live(ws[j]))
  {
    RunsStaySound(ws, steps, j);
    RunsStayFaithful(ws, steps, j);
    var w, m := ws[j], ws[j].members[id];
    assert w.committed + w.announced == w.committed;
    CaughtUp(m, w.committed, w.dropped);
    SyncedMirrors(m, true);
    SyncedFaithfulIff(m, true, w.announced - w.dropped, w.removed);
    var after := Synced(m, true);
    assert after.session.created == {} && after.session.expunged == {};
    assert Elements(after.session.uidMap) == Live(w);
    AscendingUnique(after.session.uidMap, Listed(Live(w)));
  }

  // ---- Order and coverage, whatever a Sync meets ----

  ghost predicate AllOrdered(w: World) {
    forall id :: id in w.members ==> Ordered(w.members[id].session)
  }

  /** An arrival that is taken lies above the map it joins. */
  ghost predicate TakesOnTop(w: World, step: Step)
    requires Enabled(w, step)
  {
    step.Deliver? && step.note.Arrival? ==> OnTop(w.members[step.id], step.note.uids)
  }

  lemma TakingOrderedIff(m: Member, id: Id, note: Note)
    requires Ordered(m.session)
    ensures Ordered(Taking(m, id, note).session) <==> (note.Arrival? ==> OnTop(m, note.uids))
  {
  }

  lemma MemberOrderedIff(w: World, step: Step, a: Id)
    requires Sound(w) && AllOrdered(w) && Enabled(w, step) && a in Next(w, step).members
    ensures Ordered(Next(w, step).members[a].session) <==> (step.Deliver? && a == step.id ==> TakesOnTop(w, step))
  {
    match step
    case Deliver(id, note) => if a == id { TakingOrderedIff(w.members[a], a, note); }
    case Sync(id, expunge) => if a == id { SyncedOrdered(w.members[a].session, expunge); }
    case _ =>
  }

  /**
   A step keeps every map ascending and below all that is pending if and only if an arrival that is taken lies above
   the map it joins, whatever a `Sync` meets.
   */
  lemma StepOrderedIff(w: World, step: Step)
    requires Sound(w) && AllOrdered(w) && Enabled(w, step)
    ensures AllOrdered(Next(w, step)) <==> TakesOnTop(w, step)
  {
    var w' := Next(w, step);
    forall a | a in w'.members
      ensures Ordered(w'.members[a].session) <==> (step.Deliver? && a == step.id ==> TakesOnTop(w, step))
    {
      MemberOrderedIff(w, step, a);
    }
    if step.Deliver? { assert step.id in w'.members; }
  }

  ghost predicate AllCovered(w: World) {
    forall id :: id in w.members ==> Covered(w.members[id], w.announced - w.dropped)
  }

  /** A session that registers lists everything announced and still there. */
  ghost predicate ListsAll(w: World, step: Step)
    requires Enabled(w, step)
  {
    step.Register? ==> w.announced - w.dropped <= w.listings[step.id].uids
  }

  lemma ArrivalCovered(m: Member, note: Note, wanted: set<nat>)
    requires Covered(m, wanted) && note.Arrival?
    ensures Covered(Receiving(m, note), wanted + note.uids)
  {
    MoreToCome(m.todo, note);
  }

  lemma MemberCoveredIff(w: World, step: Step, a: Id)
    requires AllCovered(w) && Enabled(w, step) && a in Next(w, step).members
    ensures Covered(Next(w, step).members[a], Next(w, step).announced - Next(w, step).dropped)
            <==> (step.Register? && a == step.id ==> ListsAll(w, step))
  {
    match step
    case Announce(uids, taker) =>
      ArrivalCovered(w.members[a], Arrival(w.serial, uids, taker), w.announced - w.dropped);
      assert w.announced + uids - w.dropped <= (w.announced - w.dropped) + uids;
    case AnnounceRemoval(uids, _) => MoreToCome(w.members[a].todo, Removal(w.serial, uids));
    case Register(id) => if a == id { assert Coming({}) == {}; }
    case Deliver(id, note) => if a == id { TakingKeeps(w.members[a], a, note); }
    case _ =>
  }

  /**
   A step leaves every message that is announced and still there known or on its way, in every session, if and only
   if a session that registers lists everything announced and still there.
   */
  lemma StepCoveredIff(w: World, step: Step)
    requires AllCovered(w) && Enabled(w, step)
    ensures AllCovered(Next(w, step)) <==> ListsAll(w, step)
  {
    var w' := Next(w, step);
    forall a | a in w'.members
      ensures Covered(w'.members[a], w'.announced - w'.dropped)
              <==> (step.Register? && a == step.id ==> ListsAll(w, step))
    {
      MemberCoveredIff(w, step, a);
    }
    if step.Register? { assert step.id in w'.members; }
  }

  ghost predicate OnTopRun(ws: seq<World>, steps: seq<Step>)
    requires Run(ws, steps)
  {
    forall i {:trigger steps[i]} :: 0 <= i < |steps| ==> TakesOnTop(ws[i], steps[i])
  }

  ghost predicate ListedRun(ws: seq<World>, steps: seq<Step>)
    requires Run(ws, steps)
  {
    forall i {:trigger steps[i]} :: 0 <= i < |steps| ==> ListsAll(ws[i], steps[i])
  }

  lemma OrderedOn(ws: seq<World>, steps: seq<Step>, i: nat)
    requires Run(ws, steps) && i < |steps| && Sound(ws[i]) && AllOrdered(ws[i])
    ensures Enabled(ws[i], steps[i]) && (AllOrdered(ws[i + 1]) <==> TakesOnTop(ws[i], steps[i]))
  {
    var w, step := ws[i], steps[i];
    StepOrderedIff(w, step);
  }

  lemma CoveredOn(ws: seq<World>, steps: seq<Step>, i: nat)
    requires Run(ws, steps) && i < |steps| && AllCovered(ws[i])
    ensures Enabled(ws[i], steps[i]) && (AllCovered(ws[i + 1]) <==> ListsAll(ws[i], steps[i]))
  {
    var w, step := ws[i], steps[i];
    StepCoveredIff(w, step);
  }

  lemma {:induction false} RunsStayOrdered(ws: seq<World>, steps: seq<Step>, j: nat)
    requires Run(ws, steps) && j < |ws| && Sound(ws[0]) && AllOrdered(ws[0]) && OnTopRun(ws, steps)
    ensures AllOrdered(ws[j])
    decreases j
  {
    if j == 0 {
    } else {
      RunsStayOrdered(ws, steps, j - 1);
      RunsStaySound(ws, steps, j - 1);
      OrderedOn(ws, steps, j - 1);
    }
  }

  lemma {:induction false} RunsStayCovered(ws: seq<World>, steps: seq<Step>, j: nat)
    requires Run(ws, steps) && j < |ws| && AllCovered(ws[0]) && ListedRun(ws, steps)
    ensures AllCovered(ws[j])
    decreases j
  {
    if j == 0 {
    } else {
      RunsStayCovered(ws, steps, j - 1);
      CoveredOn(ws, steps, j - 1);
    }
  }

  /** In a run every map is ascending throughout if and only if every arrival is taken on top of the map. */
  lemma RunOrderedIff(ws: seq<World>, steps: seq<Step>)
    requires Run(ws, steps) && Sound(ws[0]) && AllOrdered(ws[0])
    ensures (forall j :: 0 <= j < |ws| ==> AllOrdered(ws[j])) <==> OnTopRun(ws, steps)
  {
    if OnTopRun(ws, steps) {
      forall j | 0 <= j < |ws| ensures AllOrdered(ws[j]) { RunsStayOrdered(ws, steps, j); }
    } else if forall j :: 0 <= j < |ws| ==> AllOrdered(ws[j]) {
      forall i | 0 <= i < |steps| ensures TakesOnTop(ws[i], steps[i]) {
        RunsStaySound(ws, steps, i);
        OrderedOn(ws, steps, i);
      }
      assert false;
    }
  }

  /** In a run nothing announced and still there is missing anywhere if and only if every list is complete. */
  lemma RunCoveredIff(ws: seq<World>, steps: seq<Step>)
    requires Run(ws, steps) && AllCovered(ws[0])
    ensures (forall j :: 0 <= j < |ws| ==> AllCovered(ws[j])) <==> ListedRun(ws, steps)
  {
    if ListedRun(ws, steps) {
      forall j | 0 <= j < |ws| ensures AllCovered(ws[j]) { RunsStayCovered(ws, steps, j); }
    } else if forall j :: 0 <= j < |ws| ==> AllCovered(ws[j]) {
      forall i | 0 <= i < |steps| ensures ListsAll(ws[i], steps[i]) { CoveredOn(ws, steps, i); }
      assert false;
    }
  }

  /** What is known or on its way and not deleted is in the map or pending, unless it is still on its way. */
  lemma NothingMissing(m: Member, ever: set<nat>, dropped: set<nat>, wanted: set<nat>)
    requires SoundMember(m, ever, dropped) && Covered(m, wanted) && wanted !! dropped
    ensures wanted - Coming(m.todo) <= Elements(m.session.uidMap) + m.session.created
  {
    forall x | x in wanted - Coming(m.todo) ensures x in Elements(m.session.uidMap) + m.session.created {
      assert x in m.known + Coming(m.todo);
      assert m.told <= dropped;
      assert x in m.known - m.told;
    }
  }

  // ---- A removed message that stays, and a message that never shows ----

  /** `x` is shown by the session and no removal of it is on its way there. */
  ghost predicate Stuck(m: Member, x: nat) {
    m.session.connected && x in Elements(m.session.uidMap) && x !in m.session.expunged && x !in Going(m.todo)
  }

  /** A UID that one `Sync(true)` meets both created and expunged is shown although it is gone. */
  lemma SyncLeavesPhantom(m: Member, x: nat)
    requires Mirrors(m) && x !in Going(m.todo) && x in m.session.created && x in m.session.expunged
    ensures Stuck(Synced(m, true), x) && x in m.told
  {
    SyncElements(m.session, true);
  }

  /** So is one whose arrival is taken after its removal was shown. */
  lemma LateArrivalSticks(m: Member, id: Id, note: Note, x: nat, expunge: bool)
    requires Mirrors(m) && x !in Going(m.todo) && x in m.told - m.session.expunged
    requires note in m.todo && note.Arrival? && x in note.uids
    ensures Stuck(Synced(Taking(m, id, note), expunge), x)
  {
    var m' := Taking(m, id, note);
    SyncElements(m'.session, expunge);
    assert Going(m'.todo) <= Going(m.todo);
  }

  ghost predicate Removes(step: Step, x: nat) {
    step.AnnounceRemoval? && x in step.uids
  }

  lemma StepStuck(w: World, step: Step, id: Id, x: nat)
    requires Sound(w) && Enabled(w, step) && !Removes(step, x) && step != Close(id)
    requires id in w.members && Stuck(w.members[id], x)
    ensures id in Next(w, step).members && Stuck(Next(w, step).members[id], x)
  {
    var m := w.members[id];
    match step
    case Announce(uids, taker) => MoreToCome(m.todo, Arrival(w.serial, uids, taker));
    case AnnounceRemoval(uids, _) => MoreToCome(m.todo, Removal(w.serial, uids));
    case Sync(a, expunge) => if a == id { SyncElements(m.session, expunge); }
    case Deliver(a, note) =>
      if a == id {
        assert note.Removal? && x in note.uids ==> x in Going(m.todo);
        assert Going(m.todo - {note}) <= Going(m.todo);
      }
    case _ =>
  }

  /** It then stays, in every run that does not announce its removal once more, until the session closes. */
  lemma {:induction false} PhantomStays(ws: seq<World>, steps: seq<Step>, i: nat, j: nat, id: Id, x: nat)
    requires Run(ws, steps) && i <= j < |ws| && Sound(ws[0]) && id in ws[i].members && Stuck(ws[i].members[id], x)
    requires forall k :: i <= k < j ==> !Removes(steps[k], x) && steps[k] != Close(id)
    ensures id in ws[j].members && Stuck(ws[j].members[id], x)
    decreases j
  {
    if i == j {
    } else {
      PhantomStays(ws, steps, i, j - 1, id, x);
      RunsStaySound(ws, steps, j - 1);
      StepStuck(ws[j - 1], steps[j - 1], id, x);
    }
  }

  /** `x` is neither known to the session nor on its way there. */
  ghost predicate Unaware(m: Member, x: nat) {
    x !in m.known && x !in Coming(m.todo)
  }

  lemma StepUnaware(w: World, step: Step, id: Id, x: nat)
    requires Sound(w) && Enabled(w, step) && step != Close(id)
    requires x in w.announced && id in w.members && Unaware(w.members[id], x)
    ensures id in Next(w, step).members && Unaware(Next(w, step).members[id], x)
  {
    var m := w.members[id];
    match step
    case Announce(uids, taker) => MoreToCome(m.todo, Arrival(w.serial, uids, taker));
    case AnnounceRemoval(uids, _) => MoreToCome(m.todo, Removal(w.serial, uids));
    case Deliver(a, note) => if a == id { TakingKeeps(m, a, note); }
    case _ =>
  }

  /** A message announced before a session registered, and not in its list, is never shown by that session. */
  lemma {:induction false} MissedForGood(ws: seq<World>, steps: seq<Step>, i: nat, j: nat, id: Id, x: nat)
    requires Run(ws, steps) && i <= j < |ws| && Sound(ws[0])
    requires x in ws[i].announced && id in ws[i].members && Unaware(ws[i].members[id], x)
    requires forall k :: i <= k < j ==> steps[k] != Close(id)
    ensures x in ws[j].announced && id in ws[j].members && Unaware(ws[j].members[id], x)
    ensures x !in ws[j].members[id].view
    decreases j
  {
    RunsStaySound(ws, steps, j);
    if i == j {
    } else {
      MissedForGood(ws, steps, i, j - 1, id, x);
      RunsStaySound(ws, steps, j - 1);
      StepUnaware(ws[j - 1], steps[j - 1], id, x);
    }
    assert Mirrors(ws[j].members[id]);
    assert x !in Elements(ws[j].members[id].view);
  }
}
