/**
 The session objects and their manager as the source keeps them: fields updated in place, the
 uid map compacted within its own array, announcements fanned out over a set of handles
 (internal/go-imap-mess/mailbox.go, internal/go-imap-mess/sequpdate.go). Every method is proved
 to perform the operation of module `Session` on the handle's value.
 */
module Handles {
  import opened Uids
  import opened SeqUid
  import opened S = Session

  type Key = nat

  /** The positions, from one and ascending, that the compaction loop collects. */
  function Positions(m: seq<nat>, gone: set<nat>): seq<nat> {
    if m == [] then []
    else
      var n := |m| - 1;
      if m[n] in gone then Positions(m[..n], gone) + [n + 1] else Positions(m[..n], gone)
  }

  /** Sending a list of numbers from its end. */
  function Downwards(ps: seq<nat>): seq<Update> {
    if ps == [] then [] else [Expunge(ps[|ps| - 1])] + Downwards(ps[..|ps| - 1])
  }

  lemma {:induction false} PositionsDownwards(m: seq<nat>, gone: set<nat>)
    ensures Downwards(Positions(m, gone)) == Expunges(m, gone)
  {
    if m == [] {
    } else {
      var n := |m| - 1;
      PositionsDownwards(m[..n], gone);
      if m[n] in gone {
        var ps := Positions(m, gone);
        assert ps[..|ps| - 1] == Positions(m[..n], gone);
      }
    }
  }

  lemma {:induction false} NothingGone(m: seq<nat>)
    ensures Keep(m, {}) == m && Expunges(m, {}) == []
  {
    if m == [] {
    } else {
      NothingGone(m[..|m| - 1]);
      assert m == m[..|m| - 1] + [m[|m| - 1]];
    }
  }

  lemma {:induction false} NoPositions(m: seq<nat>)
    ensures Positions(m, {}) == []
  {
    if m == [] {
    } else {
      NoPositions(m[..|m| - 1]);
    }
  }

  function WithoutExpunged(s: Session, expunge: bool): Session {
    if expunge then s.(uidMap := Keep(s.uidMap, s.expunged), expunged := {}) else s
  }

  ghost function WithCreated(s: Session): Session {
    s.(uidMap := s.uidMap + Listed(s.created), created := {}, hasNewRecent := s.hasNewRecent && s.created == {})
  }

  class MailboxHandle {
    var conn: bool
    var shared: SharedHandle?
    var uids: array<nat>   // the slice uidMap is uids[..count]
    var count: nat
    var recent: set<nat>
    var recentCount: nat
    var hasNewRecent: bool
    var pendingCreated: set<nat>
    var pendingExpunge: set<nat>
    var pendingFlags: seq<FlagsUpdate>
    var idleNotify: Wake

    ghost predicate Valid()
      reads this`count, this`uids
    {
      count <= uids.Length
    }

    ghost function Value(): Session
      requires Valid()
      reads this, uids
    {
      Session(conn, uids[..count], recent, recentCount, hasNewRecent,
              pendingCreated, pendingExpunge, pendingFlags, idleNotify)
    }

    /** The value without the map, which enqueueing does not touch. */
    ghost function Queue(): Session
      reads this
    {
      Session(conn, [], recent, recentCount, hasNewRecent, pendingCreated, pendingExpunge, pendingFlags, idleNotify)
    }

    /** The width of the counters and of UIDs. */
    ghost predicate Sized()
      reads this
    {
      && count + |pendingCreated| < MAX_UINT32
      && forall i :: 0 <= i < |pendingFlags| ==> 0 < pendingFlags[i].uid <= MAX_UINT32
    }

    constructor (conn: bool, shared: SharedHandle?, list: array<nat>, recents: set<nat>)
      ensures Valid() && this.shared == shared && uids == list
      ensures Value() == Opened(list[..], recents).(connected := conn)
    {
      this.conn := conn;
      this.shared := shared;
      uids := list;
      count := list.Length;
      recent := recents;
      recentCount := 0;
      hasNewRecent := false;
      pendingCreated := {};
      pendingExpunge := {};
      pendingFlags := [];
      idleNotify := NoChannel;
      new;
      var ordered := ListAscending(recents);
      for i := 0 to |ordered|
        invariant recentCount == i
        invariant Valid() && Value() == Opened(list[..], recents).(connected := conn, recentCount := i)
        invariant this.shared == shared && uids == list
      {
        recentCount := recentCount + 1;
      }
    }

    /** A handle for management: no connection, no sessions beside it, recents not counted. */
    constructor Management(list: array<nat>, recents: set<nat>)
      ensures Valid() && shared == null && uids == list
      ensures Value() == Opened(list[..], recents).(connected := false, recentCount := 0)
    {
      conn := false;
      shared := null;
      uids := list;
      count := list.Length;
      recent := recents;
      recentCount := 0;
      hasNewRecent := false;
      pendingCreated := {};
      pendingExpunge := {};
      pendingFlags := [];
      idleNotify := NoChannel;
      new;
      assert list[..] == uids[..count];
    }

    method IdleUpdate()
      modifies this`idleNotify
      ensures idleNotify == Notified(old(idleNotify))
    {
      if idleNotify != NoChannel {
        idleNotify := Token;
      }
    }

    /** Compaction within the array: the kept UIDs move down, the positions of the others are collected. */
    method Compact() returns (expunged: seq<nat>)
      requires Valid()
      modifies this`count, uids
      ensures Valid()
      ensures uids[..count] == Keep(old(uids[..count]), pendingExpunge)
      ensures expunged == Positions(old(uids[..count]), pendingExpunge)
    {
      ghost var m := uids[..count];
      expunged := [];
      var n := 0;
      for i := 0 to count
        invariant 0 <= n <= i && count == |m| <= uids.Length
        invariant uids[..n] == Keep(m[..i], pendingExpunge)
        invariant uids[i..count] == m[i..]
        invariant expunged == Positions(m[..i], pendingExpunge)
      {
        assert m[..i + 1][..i] == m[..i];
        var uid := uids[i];
        assert uid == m[i] by { assert uids[i..count][0] == uid; }
        if uid in pendingExpunge {
          expunged := expunged + [i + 1];
        } else {
          uids[n] := uid;
          n := n + 1;
        }
        assert uids[i + 1..count] == m[i + 1..];
      }
      assert m[..count] == m;
      count := n;
    }

    method Append(uid: nat)
      requires Valid()
      modifies this`uids, this`count, uids
      ensures Valid() && (uids == old(uids) || fresh(uids))
      ensures uids[..count] == old(uids[..count]) + [uid]
    {
      if count == uids.Length {
        var larger := new nat[2 * count + 1];
        for i := 0 to count
          invariant uids == old(uids) && count == old(count) && uids[..] == old(uids[..])
          invariant larger.Length == 2 * count + 1 && larger[..i] == uids[..i]
        {
          larger[i] := uids[i];
        }
        uids := larger;
      }
      uids[count] := uid;
      count := count + 1;
    }

    method AppendCreated()
      requires Valid()
      modifies this`uids, this`count, uids
      ensures Valid() && (uids == old(uids) || fresh(uids))
      ensures uids[..count] == old(uids[..count]) + Listed(pendingCreated)
    {
      var list := ListAscending(pendingCreated);
      for i := 0 to |list|
        invariant Valid() && (uids == old(uids) || fresh(uids))
        invariant uids[..count] == old(uids[..count]) + list[..i]
      {
        Append(list[i]);
        assert list[..i + 1] == list[..i] + [list[i]];
      }
      assert list[..|list|] == list;
    }

    /** FETCH responses, numbered in the map. */
    static method SendFlags(flagsUpdates: seq<FlagsUpdate>, uidMap: seq<nat>) returns (sent: seq<Update>)
      requires |uidMap| < MAX_UINT32
      requires forall i :: 0 <= i < |flagsUpdates| ==> 0 < flagsUpdates[i].uid <= MAX_UINT32
      ensures sent == Fetches(flagsUpdates, uidMap)
    {
      sent := [];
      for i := 0 to |flagsUpdates|
        invariant sent == Fetches(flagsUpdates[..i], uidMap)
      {
        var upd := flagsUpdates[i];
        assert flagsUpdates[..i + 1][..i] == flagsUpdates[..i];
        var r, ok := UidToSeq(uidMap, Range(upd.uid, upd.uid));
        if ok {
          sent := sent + [Fetch(r.start, upd.uid, upd.flags)];
        }
      }
      assert flagsUpdates[..|flagsUpdates|] == flagsUpdates;
    }

    method SendExpunges(expunged: seq<nat>) returns (sent: seq<Update>)
      ensures sent == Downwards(expunged)
    {
      sent := [];
      var i := |expunged| - 1;
      assert expunged[..i + 1] == expunged;
      while i >= 0
        invariant -1 <= i < |expunged|
        invariant Downwards(expunged) == sent + Downwards(expunged[..i + 1])
      {
        assert expunged[..i + 1][..i] == expunged[..i];
        sent := sent + [Expunge(expunged[i])];
        i := i - 1;
      }
    }

    method TakeExpunged(expunge: bool) returns (expunged: seq<nat>)
      requires Valid()
      modifies this`count, this`pendingExpunge, uids
      ensures Valid() && Value() == WithoutExpunged(old(Value()), expunge)
      ensures expunged == if expunge then Positions(old(Value()).uidMap, old(Value()).expunged) else []
    {
      expunged := [];
      if expunge && pendingExpunge != {} {
        expunged := Compact();
        pendingExpunge := {};
      } else {
        NothingGone(uids[..count]);
        NoPositions(uids[..count]);
      }
    }

    method TakeCreated() returns (newMsgCount: nat, newRecent: bool)
      requires Valid()
      modifies this`uids, this`count, this`pendingCreated, this`hasNewRecent, uids
      ensures Valid() && (uids == old(uids) || fresh(uids))
      ensures Value() == WithCreated(old(Value()))
      ensures newMsgCount == if old(Value()).created == {} then 0 else |Value().uidMap|
      ensures newRecent == (old(Value()).created != {} && old(Value()).hasNewRecent)
    {
      newMsgCount := 0;
      newRecent := false;
      if pendingCreated != {} {
        AppendCreated();
        pendingCreated := {};
        newMsgCount := count;
        newRecent := hasNewRecent;
        hasNewRecent := false;
      }
    }

    /** The part of `Sync` under the lock: take the pending updates over into the map. */
    method Collect(expunge: bool)
      returns (flagsUpdates: seq<FlagsUpdate>, expunged: seq<nat>, newMsgCount: nat, newRecent: bool)
      requires Valid() && conn
      modifies this`uids, this`count, uids
      modifies this`pendingFlags, this`pendingExpunge, this`pendingCreated, this`hasNewRecent
      ensures Valid() && (uids == old(uids) || fresh(uids))
      ensures Value() == SyncState(old(Value()), expunge)
      ensures flagsUpdates == old(Value()).flags
      ensures expunged == if expunge then Positions(old(Value()).uidMap, old(Value()).expunged) else []
      ensures newMsgCount == if old(Value()).created == {} then 0 else |Value().uidMap|
      ensures newRecent == (old(Value()).created != {} && old(Value()).hasNewRecent)
    {
      ghost var before := Value();
      flagsUpdates := pendingFlags;
      pendingFlags := [];
      assert Value() == before.(flags := []);
      expunged := TakeExpunged(expunge);
      newMsgCount, newRecent := TakeCreated();
    }

    /** `Sync` leaves the session and sends the responses that `SyncState` and `SyncUpdates` say. */
    method Sync(expunge: bool) returns (sent: seq<Update>)
      requires Valid() && Sized()
      modifies this`uids, this`count, uids
      modifies this`pendingFlags, this`pendingExpunge, this`pendingCreated, this`hasNewRecent
      ensures Valid() && (uids == old(uids) || fresh(uids))
      ensures Value() == SyncState(old(Value()), expunge)
      ensures sent == SyncUpdates(old(Value()), expunge)
    {
      if !conn {
        return [];
      }
      ghost var before := Value();
      var flagsUpdates, expunged, newMsgCount, newRecent := Collect(expunge);
      sent := SendFlags(flagsUpdates, uids[..count]);
      var expunges := SendExpunges(expunged);
      PositionsDownwards(before.uidMap, before.expunged);
      sent := sent + expunges;
      if newMsgCount > 0 {
        if newRecent {
          sent := sent + [Exists(newMsgCount), S.Recent(recentCount)];
        } else {
          sent := sent + [Exists(newMsgCount)];
        }
      }
    }

    method EnqueueFlagsUpdate(uid: nat, newFlags: seq<string>)
      requires Valid()
      modifies this`pendingFlags, this`idleNotify
      ensures Valid() && Value() == EnqueueFlags(old(Value()), uid, newFlags)
    {
      var upd := FlagsUpdate(uid, newFlags);
      if uid in recent {
        upd := upd.(flags := newFlags + [RECENT_FLAG]);
      }
      var exists_ := false;
      for i := 0 to |pendingFlags|
        invariant exists_ <==> FlagsPending(pendingFlags[..i], uid)
        invariant pendingFlags == old(pendingFlags)
      {
        if pendingFlags[i].uid == uid {
          assert pendingFlags[..i + 1][i].uid == uid;
          pendingFlags := pendingFlags[i := pendingFlags[i].(flags := pendingFlags[i].flags)];
          assert pendingFlags == old(pendingFlags);
          exists_ := true;
          break;
        }
        assert pendingFlags[..i + 1] == pendingFlags[..i] + [pendingFlags[i]];
      }
      if !exists_ {
        pendingFlags := pendingFlags + [upd];
      }
      IdleUpdate();
    }

    method TakeRemoved(gone: set<nat>)
      requires Valid()
      modifies this`pendingExpunge, this`idleNotify
      ensures Valid() && Queue() == EnqueueExpunged(old(Queue()), gone)
    {
      pendingExpunge := pendingExpunge + gone;
      IdleUpdate();
    }

    method TakeArrived(arrived: set<nat>, takesRecent: bool)
      requires Valid()
      modifies this`pendingCreated, this`recent, this`recentCount, this`hasNewRecent, this`idleNotify
      ensures Valid() && Queue() == EnqueueCreated(old(Queue()), arrived, takesRecent)
    {
      pendingCreated := pendingCreated + arrived;
      if takesRecent {
        recent := recent + arrived;
        recentCount := recentCount + |arrived|;
        hasNewRecent := true;
      }
      IdleUpdate();
    }

    /**
     Announces removed messages to every session of the mailbox. A handle without a connection, such as
     one for management, which has no sessions beside it, announces nothing.
     */
    method RemovedSet(gone: set<nat>)
      requires conn ==> shared != null
      requires shared != null ==> forall h :: h in shared.handles ==> h.Valid()
      modifies (if shared == null then {} else shared.handles)`pendingExpunge,
               (if shared == null then {} else shared.handles)`idleNotify
      ensures shared != null ==> forall h :: h in shared.handles ==>
                h.Valid() &&
                h.Value() == if conn then EnqueueExpunged(old(h.Value()), gone) else old(h.Value())
    {
      if !conn {
        return;
      }
      shared.EnqueueRemoved(gone);
    }

    method Removed(uid: nat)
      requires conn ==> shared != null
      requires shared != null ==> forall h :: h in shared.handles ==> h.Valid()
      modifies (if shared == null then {} else shared.handles)`pendingExpunge,
               (if shared == null then {} else shared.handles)`idleNotify
      ensures shared != null ==> forall h :: h in shared.handles ==>
                h.Valid() &&
                h.Value() == if conn then EnqueueExpunged(old(h.Value()), {uid}) else old(h.Value())
    {
      if !conn {
        return;
      }
      shared.EnqueueRemoved({uid});
    }
  }

  class SharedHandle {
    const key: Key
    var handles: set<MailboxHandle>

    ghost predicate Valid()
      reads this, handles`count, handles`uids, handles`shared
    {
      handles != {} && forall h :: h in handles ==> h.Valid() && h.shared == this
    }

    constructor (key: Key)
      ensures this.key == key && handles == {}
    {
      this.key := key;
      handles := {};
    }

    /** The loop over the handles, in whatever order the map yields them. */
    method EnqueueRemoved(gone: set<nat>)
      requires forall h :: h in handles ==> h.Valid()
      modifies handles`pendingExpunge, handles`idleNotify
      ensures forall h :: h in handles ==> h.Queue() == EnqueueExpunged(old(h.Queue()), gone)
    {
      var todo := handles;
      while todo != {}
        invariant todo <= handles
        invariant forall h :: h in handles ==>
                    h.Queue() == if h in todo then old(h.Queue()) else EnqueueExpunged(old(h.Queue()), gone)
        decreases todo
      {
        var h :| h in todo;
        h.TakeRemoved(gone);
        todo := todo - {h};
      }
    }

    /**
     Fans an arrival out to all handles. The first one the loop meets, and no other, takes the
     messages as \Recent; the answer says whether there was none.
     */
    method EnqueueArrived(arrived: set<nat>) returns (addedRecent: bool, ghost taker: MailboxHandle?)
      requires forall h :: h in handles ==> h.Valid()
      modifies handles`pendingCreated, handles`recent, handles`recentCount, handles`hasNewRecent, handles`idleNotify
      ensures addedRecent <==> handles != {}
      ensures addedRecent ==> taker in handles
      ensures forall h :: h in handles ==> h.Queue() == EnqueueCreated(old(h.Queue()), arrived, h == taker)
    {
      var todo := handles;
      addedRecent := false;
      taker := null;
      while todo != {}
        invariant todo <= handles
        invariant addedRecent <==> todo != handles
        invariant if addedRecent then taker in handles && taker !in todo else taker == null
        invariant forall h :: h in todo ==> h.Queue() == old(h.Queue())
        invariant forall h :: h in handles - todo ==>
                    h.Queue() == EnqueueCreated(old(h.Queue()), arrived, h == taker)
        decreases todo
      {
        var h :| h in todo;
        h.TakeArrived(arrived, !addedRecent);
        if !addedRecent {
          addedRecent := true;
          taker := h;
        }
        todo := todo - {h};
      }
    }
  }

  class Manager {
    var handles: map<Key, SharedHandle>

    /** Registered mailboxes have at least one handle. */
    ghost predicate Valid()
      reads this, handles.Values
      reads (set s, h | s in handles.Values && h in s.handles :: h)`count
      reads (set s, h | s in handles.Values && h in s.handles :: h)`uids
      reads (set s, h | s in handles.Values && h in s.handles :: h)`shared
    {
      forall k :: k in handles ==> handles[k].Valid() && handles[k].key == k
    }

    constructor ()
      ensures Valid() && handles == map[]
    {
      handles := map[];
    }

    ghost function Targets(key: Key): set<MailboxHandle>
      reads this, handles.Values
    {
      if key in handles then handles[key].handles else {}
    }

    method SharedFor(key: Key) returns (sharedHndl: SharedHandle)
      requires Valid()
      ensures sharedHndl.key == key
      ensures if key in handles then sharedHndl == handles[key] else fresh(sharedHndl) && sharedHndl.handles == {}
    {
      if key in handles {
        sharedHndl := handles[key];
      } else {
        sharedHndl := new SharedHandle(key);
      }
    }

    method Register(key: Key, sharedHndl: SharedHandle, handle: MailboxHandle)
      requires Valid() && handle.Valid() && handle.shared == sharedHndl && sharedHndl.key == key
      requires if key in handles then sharedHndl == handles[key]
               else sharedHndl.handles == {} && sharedHndl !in handles.Values
      modifies this, sharedHndl
      ensures Valid() && sharedHndl.handles == old(sharedHndl.handles) + {handle}
      ensures handles == old(handles)[key := sharedHndl]
    {
      sharedHndl.handles := sharedHndl.handles + {handle};
      if key !in handles {
        handles := handles[key := sharedHndl];
      }
      assert sharedHndl.Valid();
      assert forall k :: k in handles && k != key ==> handles[k] in old(handles).Values;
    }

    /** Opens a session: one more handle for the key, showing `list` and `recents`, nothing pending. */
    method Mailbox(key: Key, conn: bool, list: array<nat>, recents: set<nat>) returns (handle: MailboxHandle)
      requires Valid()
      modifies this, if key in handles then {handles[key]} else {}
      ensures Valid() && fresh(handle)
      ensures handle.Valid() && handle.Value() == Opened(list[..], recents).(connected := conn)
      ensures key in handles && handles == old(handles)[key := handles[key]]
      ensures if key in old(handles) then handles[key] == old(handles[key]) else fresh(handles[key])
      ensures handle.shared == handles[key] && handle.shared.key == key
      ensures Targets(key) == old(Targets(key)) + {handle}
    {
      var sharedHndl := SharedFor(key);
      handle := new MailboxHandle(conn, sharedHndl, list, recents);
      Register(key, sharedHndl, handle);
    }

    /**
     One arrival: every open session learns of it, and either exactly one of them takes it as
     \Recent or the caller is told to store the flag, never both.
     */
    method NewMessage(key: Key, uid: nat) returns (storeRecent: bool, ghost taker: MailboxHandle?)
      requires Valid()
      modifies Targets(key)`pendingCreated, Targets(key)`recent, Targets(key)`recentCount,
               Targets(key)`hasNewRecent, Targets(key)`idleNotify
      ensures Valid()
      ensures storeRecent <==> key !in handles
      ensures key in handles ==> taker in Targets(key)
      ensures forall h :: h in Targets(key) ==>
                h.Valid() && h.Value() == EnqueueCreated(old(h.Value()), {uid}, h == taker)
    {
      taker := null;
      if key !in handles {
        return true, null;
      }
      var added;
      added, taker := handles[key].EnqueueArrived({uid});
      storeRecent := !added;
    }

    /** Several arrivals at once. Without a session nobody keeps the flag: the answer is always no. */
    method NewMessages(key: Key, uids: set<nat>) returns (storeRecent: bool, ghost taker: MailboxHandle?)
      requires Valid()
      modifies Targets(key)`pendingCreated, Targets(key)`recent, Targets(key)`recentCount,
               Targets(key)`hasNewRecent, Targets(key)`idleNotify
      ensures Valid() && !storeRecent
      ensures key in handles ==> taker in Targets(key)
      ensures forall h :: h in Targets(key) ==>
                h.Valid() && h.Value() == EnqueueCreated(old(h.Value()), uids, h == taker)
    {
      taker := null;
      if key !in handles {
        return false, null;
      }
      var added;
      added, taker := handles[key].EnqueueArrived(uids);
      storeRecent := !added;
    }

    /** The manager's own form of `RemovedSet`, for removals reported from outside. */
    method RemovedSet(key: Key, gone: set<nat>)
      requires Valid()
      modifies Targets(key)`pendingExpunge, Targets(key)`idleNotify
      ensures Valid()
      ensures forall h :: h in Targets(key) ==> h.Valid() && h.Value() == EnqueueExpunged(old(h.Value()), gone)
    {
      if key in handles {
        handles[key].EnqueueRemoved(gone);
      }
    }

    /**
     Takes the handle from its shared handle, and forgets the key when none is left there. That the shared
     handle is still the registered one is not looked at; `ForgetsOnlyOwnIff` says when that does no harm.
     A handle without a connection is left alone.
     */
    method Close(handle: MailboxHandle)
      requires Valid() && (handle.conn ==> handle.shared != null)
      modifies this, if handle.shared == null then {} else {handle.shared}
      ensures Valid()
      ensures !handle.conn ==> handles == old(handles)
      ensures handle.shared != null ==>
                handle.shared.handles == old(handle.shared.handles) - if handle.conn then {handle} else {}
      ensures handle.conn ==> handles == Left(old(handles), handle.shared.key, handle.shared.handles)
      ensures handle.conn ==>
                (OthersStay(old(handles), handles, handle.shared)
                 <==> handle.shared.handles != {} || handle.shared.key !in old(handles)
                      || old(handles)[handle.shared.key] == handle.shared)
    {
      if !handle.conn {
        return;
      }
      var sharedHndl := handle.shared;
      sharedHndl.handles := sharedHndl.handles - {handle};
      if |sharedHndl.handles| == 0 {
        handles := handles - {sharedHndl.key};
      }
      ForgetsOnlyOwnIff(old(handles), sharedHndl, sharedHndl.handles);
      forall k | k in handles ensures handles[k].Valid() && handles[k].key == k {
        assert handles[k] == old(handles)[k];
        assert handles[k] in old(handles).Values;
        assert handles[k] == sharedHndl ==> k == sharedHndl.key && sharedHndl.handles != {};
      }
    }
  }

  /** The registrations when a key's shared handle is left with these handles. */
  function Left(before: map<Key, SharedHandle>, key: Key, rest: set<MailboxHandle>): map<Key, SharedHandle> {
    if rest == {} then before - {key} else before
  }

  /** No registration of another shared handle is lost. */
  ghost predicate OthersStay(before: map<Key, SharedHandle>, after: map<Key, SharedHandle>, closed: SharedHandle) {
    forall k :: k in before && before[k] != closed ==> k in after && after[k] == before[k]
  }

  /**
   Closing a handle forgets no registration but that of its own shared handle if and only if another handle is
   left there, or its key is not registered, or is registered for that very shared handle.
   */
  lemma ForgetsOnlyOwnIff(before: map<Key, SharedHandle>, closed: SharedHandle, rest: set<MailboxHandle>)
    ensures OthersStay(before, Left(before, closed.key, rest), closed)
            <==> rest != {} || closed.key !in before || before[closed.key] == closed
  {
    if rest == {} && closed.key in before {
      assert closed.key !in Left(before, closed.key, rest);
    }
  }

  /**
   A session opens and closes, another opens the mailbox, and the first is closed once more: the second one is
   still open, and its mailbox is no longer registered.
   */
  method ClosedTwice(key: Key, list: array<nat>) returns (m: Manager, second: MailboxHandle)
    ensures m.Valid() && second.conn && second.shared != null
    ensures second.shared.key == key && second.shared.handles == {second} && key !in m.handles
  {
    var first;
    m, first := OpenedAndClosed(key, list);
    second := m.Mailbox(key, true, list, {});
    m.Close(first);
  }

  method OpenedAndClosed(key: Key, list: array<nat>) returns (m: Manager, first: MailboxHandle)
    ensures fresh(m) && fresh(first) && m.Valid() && m.handles == map[]
    ensures first.conn && first.shared != null && fresh(first.shared)
    ensures first.shared.key == key && first.shared.handles == {}
  {
    m := new Manager();
    first := m.Mailbox(key, true, list, {});
    m.Close(first);
  }
}
