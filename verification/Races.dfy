/**
 The ways in which a session drifts from the mailbox, each as one run from an empty mailbox: at its end
 everything is announced and taken, and the client does not see what is stored.
 */
module Races {
  import opened Uids
  import opened S = Session
  import opened Runs

  const EMPTY := World({}, {}, {}, {}, {}, {}, map[], map[], {}, 0)
  const FRESH := Member(Opened([], {}), [], {}, {}, {})

  ghost function Last(ws: seq<World>): World
    requires ws != []
  {
    ws[|ws| - 1]
  }

  /** A run that starts with an empty mailbox and ends in `w`. */
  ghost predicate Leads(ws: seq<World>, steps: seq<Step>, w: World) {
    Run(ws, steps) && Initial(ws[0]) && Last(ws) == w
  }

  lemma Start() returns (ws: seq<World>, steps: seq<Step>)
    ensures Leads(ws, steps, EMPTY)
  {
    ws, steps := [EMPTY], [];
  }

  lemma Then(ws: seq<World>, steps: seq<Step>, w: World, step: Step) returns (ws': seq<World>, steps': seq<Step>)
    requires Leads(ws, steps, w) && Enabled(w, step)
    ensures Leads(ws', steps', Next(w, step))
  {
    ws', steps' := ws + [Next(w, step)], steps + [step];
    forall i | 0 <= i < |steps'| ensures Enabled(ws'[i], steps'[i]) && ws'[i + 1] == Next(ws'[i], steps'[i]) {
      if i < |steps| {
        assert ws'[i] == ws[i] && ws'[i + 1] == ws[i + 1] && steps'[i] == steps[i];
      } else {
        assert ws'[i] == w && steps'[i] == step;
      }
    }
  }

  /** A session that has taken everything announced shows something else than the mailbox. */
  ghost predicate Drifted(w: World, id: Id) {
    Quiet(w) && id in w.members && w.members[id].todo == {} && w.members[id].view != Listed(Live(w))
  }

  lemma ListedOne(x: nat)
    ensures Listed({x}) == [x] && Listed({}) == []
  {
    assert Elements([x]) == {x};
    AscendingUnique([x], Listed({x}));
  }

  lemma NothingListed()
    ensures Page({}) == {} && Listed({}) == []
  {
    ListedOne(0);
  }

  /** The first session lists the mailbox and registers. */
  lemma Opens(ws: seq<World>, steps: seq<Step>, w: World, live: set<nat>)
    returns (ws': seq<World>, steps': seq<Step>, w': World)
    requires Leads(ws, steps, w) && w.members == map[] && w.listings == map[] && w.used == {} && w.persisted == {}
    requires live == Live(w) && |live| <= 1
    ensures Leads(ws', steps', w')
    ensures w' == w.(members := map[1 := Joined(Listing(live, {}))], used := {1})
  {
    ws', steps' := Then(ws, steps, w, List(1, false));
    w' := Next(w, List(1, false));
    PageLive(live);
    assert w.persisted * live == {};
    var listed := Listing(live, {});
    assert w'.listings == map[1 := listed];
    ws', steps' := Then(ws', steps', w', Register(1));
    w' := Next(w', Register(1));
    assert w'.members == map[1 := Joined(listed)] && w'.listings == map[];
  }

  lemma OpenEmpty() returns (ws: seq<World>, steps: seq<Step>, w: World)
    ensures Leads(ws, steps, w) && w == EMPTY.(members := map[1 := FRESH], used := {1})
  {
    ws, steps := Start();
    NothingListed();
    ws, steps, w := Opens(ws, steps, EMPTY, {});
    assert Joined(Listing({}, {})) == FRESH;
  }

  lemma SyncedMap(m: Member, expunge: bool)
    requires Mirrors(m)
    ensures Synced(m, expunge).view == Synced(m, expunge).session.uidMap == SyncMap(m.session, expunge)
  {
    SyncMirrors(m.session, expunge);
  }

  const FIVE := Arrival(0, {5}, Some(1))
  const NO_FIVE := Removal(1, {5})

  /** Message 5 stored and deleted while session 1 has yet to take either announcement. */
  lemma CameAndWent() returns (ws: seq<World>, steps: seq<Step>, w: World)
    ensures Leads(ws, steps, w)
    ensures w == World({5}, {5}, {5}, {5}, {5}, {}, map[1 := FRESH.(todo := {FIVE, NO_FIVE})], map[], {1}, 2)
  {
    ws, steps, w := OpenEmpty();
    ws, steps := Then(ws, steps, w, Commit({5}, false));
    w := Next(w, Commit({5}, false));
    assert 1 in w.members;
    ws, steps := Then(ws, steps, w, Announce({5}, Some(1)));
    w := Next(w, Announce({5}, Some(1)));
    assert w.members == map[1 := FRESH.(todo := {FIVE})];
    ws, steps := Then(ws, steps, w, Drop({5}));
    w := Next(w, Drop({5}));
    ws, steps := Then(ws, steps, w, AnnounceRemoval({5}, true));
    w := Next(w, AnnounceRemoval({5}, true));
    assert {FIVE} + {NO_FIVE} == {FIVE, NO_FIVE};
    assert w.members == map[1 := FRESH.(todo := {FIVE, NO_FIVE})];
  }

  /** Both are taken before one `Sync(true)`: message 5 is shown and stays. */
  lemma SyncMeetsBoth() returns (ws: seq<World>, steps: seq<Step>, w: World)
    ensures Leads(ws, steps, w) && Drifted(w, 1) && Live(w) == {} && w.members[1].view == [5]
  {
    ws, steps, w := CameAndWent();
    ws, steps := Then(ws, steps, w, Deliver(1, FIVE));
    w := Next(w, Deliver(1, FIVE));
    ws, steps := Then(ws, steps, w, Deliver(1, NO_FIVE));
    w := Next(w, Deliver(1, NO_FIVE));
    var m := w.members[1];
    assert m.session.created == {5} && m.session.expunged == {5} && m.session.uidMap == [];
    ws, steps := Then(ws, steps, w, Sync(1, true));
    w := Next(w, Sync(1, true));
    SyncedMap(m, true);
    ListedOne(5);
    assert Keep([], {5}) == [];
  }

  /** The removal is taken first and shown before the arrival is taken: message 5 is shown and stays. */
  lemma RemovalOvertakes() returns (ws: seq<World>, steps: seq<Step>, w: World)
    ensures Leads(ws, steps, w) && Drifted(w, 1) && Live(w) == {} && w.members[1].view == [5]
  {
    ws, steps, w := CameAndWent();
    ws, steps := Then(ws, steps, w, Deliver(1, NO_FIVE));
    w := Next(w, Deliver(1, NO_FIVE));
    var m := w.members[1];
    ws, steps := Then(ws, steps, w, Sync(1, true));
    w := Next(w, Sync(1, true));
    SyncedMap(m, true);
    ListedOne(5);
    assert Keep([], {5}) == [];
    ws, steps := Then(ws, steps, w, Deliver(1, FIVE));
    w := Next(w, Deliver(1, FIVE));
    m := w.members[1];
    assert m.session.created == {5} && m.session.uidMap == [];
    ws, steps := Then(ws, steps, w, Sync(1, true));
    w := Next(w, Sync(1, true));
    SyncedMap(m, true);
    assert Keep([], {}) == [];
  }

  /** One message is announced to the only session, which takes it and syncs. */
  lemma Shows(ws: seq<World>, steps: seq<Step>, w: World, m: Member, x: nat)
    returns (ws': seq<World>, steps': seq<Step>, w': World, m': Member)
    requires Leads(ws, steps, w) && w.members == map[1 := m] && x !in w.announced && Settled(m)
    ensures Leads(ws', steps', w') && Settled(m') && m'.view == m.view + [x]
    ensures w' == w.(announced := w.announced + {x}, promised := w.promised + {x}, members := map[1 := m'],
                     serial := w.serial + 1)
  {
    var note := Arrival(w.serial, {x}, Some(1));
    assert w.members[1] == m && 1 in w.members;
    ws', steps' := Then(ws, steps, w, Announce({x}, Some(1)));
    w' := Next(w, Announce({x}, Some(1)));
    assert m.todo + {note} == {note};
    assert w'.members == map[1 := m.(todo := {note})];
    ws', steps', w', m' := TakeAndSync(ws', steps', w', m, note);
    ListedOne(x);
    KeepFull(m.session.uidMap, {});
  }

  /** Nothing pending and nothing on its way. */
  ghost predicate Settled(m: Member) {
    Mirrors(m) && m.todo == {} && m.session.expunged == {} && m.session.created == {}
  }

  lemma TakeAndSync(ws: seq<World>, steps: seq<Step>, w: World, m: Member, note: Note)
    returns (ws': seq<World>, steps': seq<Step>, w': World, m': Member)
    requires Leads(ws, steps, w) && w.members == map[1 := m.(todo := {note})] && Settled(m) && note.Arrival?
    ensures Leads(ws', steps', w') && Settled(m') && m'.view == Keep(m.session.uidMap, {}) + Listed(note.uids)
    ensures w' == w.(members := map[1 := m'])
  {
    var told := m.(todo := {note});
    m' := Synced(Taking(told, 1, note), true);
    TakenAndSynced(m, note);
    ws', steps', w' := Takes(ws, steps, w, told, note);
    ws', steps', w' := Syncs(ws', steps', w', Taking(told, 1, note));
  }

  lemma Takes(ws: seq<World>, steps: seq<Step>, w: World, m: Member, note: Note)
    returns (ws': seq<World>, steps': seq<Step>, w': World)
    requires Leads(ws, steps, w) && w.members == map[1 := m] && note in m.todo
    ensures Leads(ws', steps', w') && w' == w.(members := map[1 := Taking(m, 1, note)])
  {
    assert w.members[1] == m;
    ws', steps' := Then(ws, steps, w, Deliver(1, note));
    w' := Next(w, Deliver(1, note));
    assert w.members[1 := Taking(m, 1, note)] == map[1 := Taking(m, 1, note)];
  }

  lemma Syncs(ws: seq<World>, steps: seq<Step>, w: World, m: Member)
    returns (ws': seq<World>, steps': seq<Step>, w': World)
    requires Leads(ws, steps, w) && w.members == map[1 := m]
    ensures Leads(ws', steps', w') && w' == w.(members := map[1 := Synced(m, true)])
  {
    assert w.members[1] == m;
    ws', steps' := Then(ws, steps, w, Sync(1, true));
    w' := Next(w, Sync(1, true));
    assert w.members[1 := Synced(m, true)] == map[1 := Synced(m, true)];
  }

  lemma TakenAndSynced(m: Member, note: Note)
    requires Settled(m) && note.Arrival?
    ensures var m' := Synced(Taking(m.(todo := {note}), 1, note), true);
            Settled(m') && m'.view == Keep(m.session.uidMap, {}) + Listed(note.uids)
  {
    var told := m.(todo := {note});
    var taken := Taking(told, 1, note);
    TakingMirrors(told, 1, note);
    SyncedMirrors(taken, true);
    SyncedMap(taken, true);
    assert {note} - {note} == {} && {} + note.uids == note.uids;
  }

  /** Messages 5 and 6 are announced by two deliveries, 6 first, and shown in that order. */
  lemma ArrivalsSwapped() returns (ws: seq<World>, steps: seq<Step>, w: World)
    ensures Leads(ws, steps, w) && Drifted(w, 1) && Live(w) == {5, 6} && w.members[1].view == [6, 5]
  {
    ws, steps, w := OpenEmpty();
    ws, steps := Then(ws, steps, w, Commit({5, 6}, false));
    w := Next(w, Commit({5, 6}, false));
    var m;
    ws, steps, w, m := Shows(ws, steps, w, FRESH, 6);
    ws, steps, w, m := Shows(ws, steps, w, m, 5);
    SwappedEnd(w, m);
  }

  lemma SwappedEnd(w: World, m: Member)
    requires w.members == map[1 := m] && m.todo == {} && m.view == [] + [6] + [5]
    requires w.committed == {} + {5, 6} && w.announced == {} + {6} + {5} && w.dropped == {} && w.removed == {}
    ensures Drifted(w, 1) && Live(w) == {5, 6} && w.members[1].view == [6, 5]
  {
    assert m.view == [6, 5] && m.view[0] > m.view[1];
    assert w.announced == w.committed;
  }

  /** A session lists the mailbox after message 5 is stored and registers before it is announced. */
  lemma ShownTwice() returns (ws: seq<World>, steps: seq<Step>, w: World)
    ensures Leads(ws, steps, w) && Drifted(w, 1) && Live(w) == {5} && w.members[1].view == [5, 5]
  {
    ws, steps := Start();
    ws, steps := Then(ws, steps, EMPTY, Commit({5}, false));
    w := Next(EMPTY, Commit({5}, false));
    ListedOne(5);
    ws, steps, w := Opens(ws, steps, w, {5});
    var m := Joined(Listing({5}, {}));
    assert Elements([5]) == {5};
    ws, steps, w, m := Shows(ws, steps, w, m, 5);
    assert [5] + [5] == [5, 5];
  }

  /** A session lists the empty mailbox; message 5 is stored and announced before the session registers. */
  lemma MissedInGap() returns (ws: seq<World>, steps: seq<Step>, w: World)
    ensures Leads(ws, steps, w) && Drifted(w, 1) && Live(w) == {5} && w.members[1].view == []
    ensures Unaware(w.members[1], 5)
  {
    ws, steps := Start();
    NothingListed();
    ws, steps := Then(ws, steps, EMPTY, List(1, false));
    w := Next(EMPTY, List(1, false));
    assert Live(EMPTY) == {} && w.listings == map[1 := Listing({}, {})];
    ws, steps := Then(ws, steps, w, Commit({5}, false));
    w := Next(w, Commit({5}, false));
    ws, steps := Then(ws, steps, w, Announce({5}, None));
    w := Next(w, Announce({5}, None));
    ws, steps := Then(ws, steps, w, Register(1));
    w := Next(w, Register(1));
    assert w.members[1] == FRESH;
    ListedOne(5);
  }

  /** A session lists message 5, which is deleted, and the removal announced, before the session registers. */
  lemma RemovedInGap() returns (ws: seq<World>, steps: seq<Step>, w: World)
    ensures Leads(ws, steps, w) && Drifted(w, 1) && Live(w) == {} && w.members[1].view == [5]
  {
    ws, steps := Start();
    ws, steps := Then(ws, steps, EMPTY, Commit({5}, false));
    w := Next(EMPTY, Commit({5}, false));
    ws, steps := Then(ws, steps, w, Announce({5}, None));
    w := Next(w, Announce({5}, None));
    ListedOne(5);
    assert Live(w) == {5} && Page({5}) == {5};
    ws, steps := Then(ws, steps, w, List(1, false));
    w := Next(w, List(1, false));
    assert w.listings == map[1 := Listing({5}, {})];
    ws, steps := Then(ws, steps, w, Drop({5}));
    w := Next(w, Drop({5}));
    ws, steps := Then(ws, steps, w, AnnounceRemoval({5}, true));
    w := Next(w, AnnounceRemoval({5}, true));
    ws, steps := Then(ws, steps, w, Register(1));
    w := Next(w, Register(1));
  }

  /**
   Message 5 is stored, deleted and its removal announced before the delivery comes to announce it. A
   session that opened in between is told of the arrival only.
   */
  lemma RemovalAnnouncedFirst() returns (ws: seq<World>, steps: seq<Step>, w: World)
    ensures Leads(ws, steps, w) && Drifted(w, 1) && Live(w) == {} && w.members[1].view == [5]
  {
    ws, steps := Start();
    ws, steps := Then(ws, steps, EMPTY, Commit({5}, false));
    w := Next(EMPTY, Commit({5}, false));
    ws, steps := Then(ws, steps, w, Drop({5}));
    w := Next(w, Drop({5}));
    ws, steps := Then(ws, steps, w, AnnounceRemoval({5}, true));
    w := Next(w, AnnounceRemoval({5}, true));
    assert w.members == map[];
    NothingListed();
    ws, steps, w := Opens(ws, steps, w, {});
    var m := Joined(Listing({}, {}));
    ws, steps, w, m := Shows(ws, steps, w, m, 5);
    assert [] + [5] == [5];
  }

  /** Message 5 is shown and then deleted through a handle without a connection: no session is told. */
  lemma SilentRemoval() returns (ws: seq<World>, steps: seq<Step>, w: World)
    ensures Leads(ws, steps, w) && Drifted(w, 1) && Live(w) == {} && w.members[1].view == [5]
  {
    ws, steps, w := OpenEmpty();
    ws, steps := Then(ws, steps, w, Commit({5}, false));
    w := Next(w, Commit({5}, false));
    var m;
    ws, steps, w, m := Shows(ws, steps, w, FRESH, 5);
    assert [] + [5] == [5];
    ws, steps := Then(ws, steps, w, Drop({5}));
    w := Next(w, Drop({5}));
    ws, steps := Then(ws, steps, w, AnnounceRemoval({5}, false));
    w := Next(w, AnnounceRemoval({5}, false));
    NothingListed();
  }
}
