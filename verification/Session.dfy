/**
 One IMAP session of a mailbox: what it shows the client (`uidMap`) and what is waiting to be
 sent (internal/go-imap-mess/mailbox.go). The operations are given here on values; the classes
 in `Handles` are proved to perform exactly these, and `Runs` and `Idle` build on them.
 */
module Session {
  import opened Uids
  import opened SeqUid

  datatype FlagsUpdate = FlagsUpdate(uid: nat, flags: seq<string>)

  /** The idle channel: absent, or holding at most one token. */
  datatype Wake = NoChannel | Empty | Token

  datatype Session = Session(
    connected: bool,
    uidMap: seq<nat>,
    recent: set<nat>,
    recentCount: nat,
    hasNewRecent: bool,
    created: set<nat>,
    expunged: set<nat>,
    flags: seq<FlagsUpdate>,
    wake: Wake)

  /** Responses of sections 7.2.6, 7.3.1, 7.3.2 and 7.4.1 of RFC 3501. */
  datatype Update =
    | Fetch(number: nat, uid: nat, flags: seq<string>)
    | Expunge(number: nat)
    | Exists(count: nat)
    | Recent(count: nat)

  const RECENT_FLAG := "\\Recent"

  function Opened(uids: seq<nat>, recents: set<nat>): Session {
    Session(true, uids, recents, |recents|, false, {}, {}, [], NoChannel)
  }

  function Notified(w: Wake): Wake {
    if w.NoChannel? then NoChannel else Token
  }

  function EnqueueCreated(s: Session, uids: set<nat>, takesRecent: bool): Session {
    var t := s.(created := s.created + uids, wake := Notified(s.wake));
    if takesRecent
    then t.(recent := t.recent + uids, recentCount := t.recentCount + |uids|, hasNewRecent := true)
    else t
  }

  function EnqueueExpunged(s: Session, uids: set<nat>): Session {
    s.(expunged := s.expunged + uids, wake := Notified(s.wake))
  }

  predicate FlagsPending(fs: seq<FlagsUpdate>, uid: nat) {
    exists i :: 0 <= i < |fs| && fs[i].uid == uid
  }

  function WithRecent(s: Session, uid: nat, flags: seq<string>): seq<string> {
    if uid in s.recent then flags + [RECENT_FLAG] else flags
  }

  /** An update already pending for the same message is kept as it is. */
  function EnqueueFlags(s: Session, uid: nat, flags: seq<string>): Session {
    s.(flags := if FlagsPending(s.flags, uid) then s.flags
                else s.flags + [FlagsUpdate(uid, WithRecent(s, uid, flags))],
       wake := Notified(s.wake))
  }

  predicate Pending(s: Session) {
    s.created != {} || s.expunged != {} || s.flags != []
  }

  /** The entries of `m` that are not being expunged, in order. */
  function Keep(m: seq<nat>, gone: set<nat>): (r: seq<nat>)
    ensures |r| <= |m|
  {
    if m == [] then []
    else
      var n := |m| - 1;
      if m[n] in gone then Keep(m[..n], gone) else Keep(m[..n], gone) + [m[n]]
  }

  /** EXPUNGE responses for the entries that go, highest position first. */
  function Expunges(m: seq<nat>, gone: set<nat>): seq<Update> {
    if m == [] then []
    else
      var n := |m| - 1;
      if m[n] in gone then [Expunge(n + 1)] + Expunges(m[..n], gone) else Expunges(m[..n], gone)
  }

  function Fetches(fs: seq<FlagsUpdate>, m: seq<nat>): seq<Update> {
    if fs == [] then []
    else
      var n := |fs| - 1;
      match NumberOf(m, fs[n].uid)
      case None => Fetches(fs[..n], m)
      case Some(k) => Fetches(fs[..n], m) + [Fetch(k, fs[n].uid, fs[n].flags)]
  }

  ghost function SyncMap(s: Session, expunge: bool): seq<nat> {
    (if expunge then Keep(s.uidMap, s.expunged) else s.uidMap) + Listed(s.created)
  }

  ghost function SyncState(s: Session, expunge: bool): Session {
    if !s.connected then s
    else s.(uidMap := SyncMap(s, expunge),
            expunged := if expunge then {} else s.expunged,
            created := {},
            flags := [],
            hasNewRecent := s.hasNewRecent && s.created == {})
  }

  ghost function Arrivals(s: Session, expunge: bool): seq<Update> {
    if s.created == {} then []
    else if s.hasNewRecent then [Exists(|SyncMap(s, expunge)|), Recent(s.recentCount)]
    else [Exists(|SyncMap(s, expunge)|)]
  }

  /** What `Sync` sends: FETCH, then EXPUNGE downwards, then EXISTS and RECENT. */
  ghost function SyncUpdates(s: Session, expunge: bool): seq<Update> {
    if !s.connected then []
    else Fetches(s.flags, SyncMap(s, expunge))
         + (if expunge then Expunges(s.uidMap, s.expunged) else [])
         + Arrivals(s, expunge)
  }

  // ---- The client's side ----

  /**
   The client keeps one slot per message. EXPUNGE drops a slot and moves the later ones up;
   EXISTS adds slots at the end, whose UIDs it then fetches from the server's map.
   */
  function Applied(view: seq<nat>, u: Update, server: seq<nat>): seq<nat> {
    match u
    case Expunge(n) => if 1 <= n <= |view| then view[..n - 1] + view[n..] else view
    case Exists(n) => if |view| <= n <= |server| then view + server[|view|..n] else view
    case _ => view
  }

  /** EXPUNGE names a slot that exists at that moment; EXISTS never shrinks the view. */
  predicate Acceptable(view: seq<nat>, u: Update, server: seq<nat>) {
    match u
    case Expunge(n) => 1 <= n <= |view|
    case Exists(n) => |view| <= n <= |server|
    case _ => true
  }

  function AllApplied(view: seq<nat>, us: seq<Update>, server: seq<nat>): seq<nat>
    decreases |us|
  {
    if us == [] then view else AllApplied(Applied(view, us[0], server), us[1..], server)
  }

  predicate AllAcceptable(view: seq<nat>, us: seq<Update>, server: seq<nat>)
    decreases |us|
  {
    us == [] || (Acceptable(view, us[0], server) && AllAcceptable(Applied(view, us[0], server), us[1..], server))
  }

  lemma {:induction false} AppliedConcat(view: seq<nat>, a: seq<Update>, b: seq<Update>, server: seq<nat>)
    ensures AllApplied(view, a + b, server) == AllApplied(AllApplied(view, a, server), b, server)
    ensures AllAcceptable(view, a + b, server) <==>
            AllAcceptable(view, a, server) && AllAcceptable(AllApplied(view, a, server), b, server)
    decreases |a|
  {
    if a == [] {
      assert a + b == b;
    } else {
      assert (a + b)[1..] == a[1..] + b;
      AppliedConcat(Applied(view, a[0], server), a[1..], b, server);
    }
  }

  lemma {:induction false} FetchesHarmless(view: seq<nat>, fs: seq<FlagsUpdate>, m: seq<nat>, server: seq<nat>)
    ensures AllApplied(view, Fetches(fs, m), server) == view
    ensures AllAcceptable(view, Fetches(fs, m), server)
  {
    if fs == [] {
    } else {
      var front := fs[..|fs| - 1];
      FetchesHarmless(view, front, m, server);
      match NumberOf(m, fs[|fs| - 1].uid) {
        case None =>
        case Some(k) =>
          AppliedConcat(view, Fetches(front, m), [Fetch(k, fs[|fs| - 1].uid, fs[|fs| - 1].flags)], server);
      }
    }
  }

  /** Sent downwards, the EXPUNGE numbers leave exactly the kept entries, whatever follows them. */
  lemma {:induction false} ExpungesMirror(m: seq<nat>, tail: seq<nat>, gone: set<nat>, server: seq<nat>)
    ensures AllAcceptable(m + tail, Expunges(m, gone), server)
    ensures AllApplied(m + tail, Expunges(m, gone), server) == Keep(m, gone) + tail
  {
    if m == [] {
      assert m + tail == tail;
    } else {
      var n := |m| - 1;
      var front := m[..n];
      assert m + tail == front + [m[n]] + tail;
      if m[n] in gone {
        ExpungeLast(front, m[n], tail, Expunges(front, gone), server);
        ExpungesMirror(front, tail, gone, server);
      } else {
        ExpungesMirror(front, [m[n]] + tail, gone, server);
        Regroup(front, [m[n]], tail);
        Regroup(Keep(front, gone), [m[n]], tail);
      }
    }
  }

  lemma Regroup(a: seq<nat>, b: seq<nat>, c: seq<nat>)
    ensures a + b + c == a + (b + c)
  {
  }

  lemma ExpungeLast(front: seq<nat>, x: nat, tail: seq<nat>, rest: seq<Update>, server: seq<nat>)
    ensures var us := [Expunge(|front| + 1)] + rest; var view := front + [x] + tail;
            AllApplied(view, us, server) == AllApplied(front + tail, rest, server) &&
            (AllAcceptable(view, us, server) <==> AllAcceptable(front + tail, rest, server))
  {
    var u := Expunge(|front| + 1);
    var view := front + [x] + tail;
    assert view[..|front|] == front && view[|front| + 1..] == tail;
    AppliedFirst(view, u, rest, server);
  }

  lemma {:induction false} AppliedFirst(view: seq<nat>, u: Update, rest: seq<Update>, server: seq<nat>)
    ensures AllApplied(view, [u] + rest, server) == AllApplied(Applied(view, u, server), rest, server)
    ensures AllAcceptable(view, [u] + rest, server) <==>
            Acceptable(view, u, server) && AllAcceptable(Applied(view, u, server), rest, server)
  {
    assert ([u] + rest)[1..] == rest;
  }

  /**
   A client in step with the server before a `Sync` is in step after it: every EXPUNGE is in
   range when it arrives, EXISTS never shrinks the view, and the view ends equal to `uidMap`.
   */
  lemma SyncMirrors(s: Session, expunge: bool)
    ensures var server := SyncState(s, expunge).uidMap;
            AllAcceptable(s.uidMap, SyncUpdates(s, expunge), server) &&
            AllApplied(s.uidMap, SyncUpdates(s, expunge), server) == server
  {
    if s.connected {
      var server := SyncMap(s, expunge);
      var f := Fetches(s.flags, server);
      var e := if expunge then Expunges(s.uidMap, s.expunged) else [];
      var kept := if expunge then Keep(s.uidMap, s.expunged) else s.uidMap;
      FetchesHarmless(s.uidMap, s.flags, server, server);
      AppliedConcat(s.uidMap, f, e, server);
      ExpungesMirror(s.uidMap, [], s.expunged, server);
      assert s.uidMap + [] == s.uidMap;
      assert Keep(s.uidMap, s.expunged) + [] == Keep(s.uidMap, s.expunged);
      assert AllApplied(s.uidMap, f + e, server) == kept;
      ArrivalsMirror(s, expunge, kept);
      AppliedConcat(s.uidMap, f + e, Arrivals(s, expunge), server);
    }
  }

  lemma {:induction false} ArrivalsMirror(s: Session, expunge: bool, kept: seq<nat>)
    requires kept == if expunge then Keep(s.uidMap, s.expunged) else s.uidMap
    ensures AllAcceptable(kept, Arrivals(s, expunge), SyncMap(s, expunge))
    ensures AllApplied(kept, Arrivals(s, expunge), SyncMap(s, expunge)) == SyncMap(s, expunge)
  {
    if s.created == {} {
      assert SyncMap(s, expunge) == kept;
    } else {
      GrowMirror(kept, Listed(s.created), s.recentCount);
    }
  }

  lemma {:induction false} GrowMirror(kept: seq<nat>, more: seq<nat>, recents: nat)
    ensures var server := kept + more; var us := [Exists(|server|)];
            AllAcceptable(kept, us, server) && AllApplied(kept, us, server) == server
    ensures var server := kept + more; var us := [Exists(|server|), Recent(recents)];
            AllAcceptable(kept, us, server) && AllApplied(kept, us, server) == server
  {
    var server := kept + more;
    assert Applied(kept, Exists(|server|), server) == server;
    var us := [Exists(|server|), Recent(recents)];
    assert us[1..] == [Recent(recents)];
    AppliedFirst(server, Recent(recents), [], server);
  }

  // ---- EXISTS and RECENT ----

  lemma {:induction false} NoCountsInFetches(fs: seq<FlagsUpdate>, m: seq<nat>, u: Update)
    requires u in Fetches(fs, m)
    ensures u.Fetch?
  {
    if fs == [] {
    } else {
      var n := |fs| - 1;
      if u in Fetches(fs[..n], m) { NoCountsInFetches(fs[..n], m, u); }
    }
  }

  lemma {:induction false} NoCountsInExpunges(m: seq<nat>, gone: set<nat>, u: Update)
    requires u in Expunges(m, gone)
    ensures u.Expunge?
  {
    if m == [] {
    } else {
      var n := |m| - 1;
      if u in Expunges(m[..n], gone) { NoCountsInExpunges(m[..n], gone, u); }
    }
  }

  /**
   A `Sync` sends the number of messages if and only if some arrived, and the number of recent ones if and only
   if some of those were taken as recent.
   */
  lemma CountsSentIff(s: Session, expunge: bool, n: nat)
    ensures Exists(n) in SyncUpdates(s, expunge)
            <==> s.connected && s.created != {} && n == |SyncState(s, expunge).uidMap|
    ensures Recent(n) in SyncUpdates(s, expunge)
            <==> s.connected && s.created != {} && s.hasNewRecent && n == s.recentCount
  {
    if s.connected {
      var f := Fetches(s.flags, SyncMap(s, expunge));
      var e := if expunge then Expunges(s.uidMap, s.expunged) else [];
      var us, tail := SyncUpdates(s, expunge), Arrivals(s, expunge);
      assert us == f + e + tail;
      forall u | u in us ensures u in tail || u.Fetch? || u.Expunge? {
        if u in f {
          NoCountsInFetches(s.flags, SyncMap(s, expunge), u);
        } else if u in e {
          NoCountsInExpunges(s.uidMap, s.expunged, u);
        }
      }
      forall u | u in tail ensures u in us { }
      if s.created != {} {
        assert tail[0] == Exists(|SyncMap(s, expunge)|) && tail[0] in us;
        if s.hasNewRecent { assert tail[1] == Recent(s.recentCount) && tail[1] in us; }
      }
    }
  }

  // ---- What a Sync does to the set of messages ----

  lemma {:induction false} KeepElements(m: seq<nat>, gone: set<nat>)
    ensures Elements(Keep(m, gone)) == Elements(m) - gone
  {
    if m == [] {
    } else {
      var n := |m| - 1;
      KeepElements(m[..n], gone);
      assert m == m[..n] + [m[n]];
      ElementsConcat(m[..n], [m[n]]);
      ElementsConcat(Keep(m[..n], gone), [m[n]]);
      assert Elements([m[n]]) == {m[n]};
    }
  }

  lemma {:induction false} KeepAscending(m: seq<nat>, gone: set<nat>)
    requires Ascending(m)
    ensures Ascending(Keep(m, gone))
  {
    if m == [] {
    } else {
      var n := |m| - 1;
      KeepAscending(m[..n], gone);
      KeepElements(m[..n], gone);
      forall x | x in Elements(Keep(m[..n], gone)) ensures x < m[n] {
        var i :| 0 <= i < n && m[..n][i] == x;
      }
      AscendingConcat(Keep(m[..n], gone), [m[n]]);
    }
  }

  lemma SyncElements(s: Session, expunge: bool)
    requires s.connected
    ensures Elements(SyncState(s, expunge).uidMap)
            == (if expunge then Elements(s.uidMap) - s.expunged else Elements(s.uidMap)) + s.created
  {
    KeepElements(s.uidMap, s.expunged);
    ElementsConcat(if expunge then Keep(s.uidMap, s.expunged) else s.uidMap, Listed(s.created));
  }

  lemma SyncAscending(s: Session, expunge: bool)
    requires Ascending(s.uidMap)
    requires forall x, y :: x in Elements(s.uidMap) && y in s.created ==> x < y
    ensures Ascending(SyncState(s, expunge).uidMap)
  {
    if s.connected {
      KeepAscending(s.uidMap, s.expunged);
      KeepElements(s.uidMap, s.expunged);
      AscendingConcat(if expunge then Keep(s.uidMap, s.expunged) else s.uidMap, Listed(s.created));
    }
  }

  // ---- Where FETCH numbers and coalesced flags go wrong, exactly ----

  lemma {:induction false} KeepFull(m: seq<nat>, gone: set<nat>)
    ensures |Keep(m, gone)| == |m| <==> forall i :: 0 <= i < |m| ==> m[i] !in gone
    ensures gone == {} ==> Keep(m, gone) == m
  {
    if m == [] {
    } else {
      var n := |m| - 1;
      KeepFull(m[..n], gone);
      assert forall i :: 0 <= i < n ==> m[..n][i] == m[i];
      assert m == m[..n] + [m[n]];
    }
  }

  /** Where an entry stands among those that stay, whether it stays itself or not. */
  lemma {:induction false} KeepSplits(m: seq<nat>, gone: set<nat>, p: nat)
    requires Ascending(m) && p < |m|
    ensures var kept, k := Keep(m, gone), |Keep(m[..p], gone)|;
            && k <= |kept| && (forall q :: 0 <= q < k ==> kept[q] < m[p])
            && forall q :: k <= q < |kept| ==> kept[q] >= m[p]
    decreases |m|
  {
    var n := |m| - 1;
    if p == n {
      KeepElements(m[..n], gone);
      forall x | x in Elements(Keep(m[..n], gone)) ensures x < m[n] {
        var i :| 0 <= i < n && m[..n][i] == x;
      }
      forall q | 0 <= q < |Keep(m[..n], gone)| ensures Keep(m[..n], gone)[q] < m[n] {
        assert Keep(m[..n], gone)[q] in Elements(Keep(m[..n], gone));
      }
    } else {
      assert m[..n][..p] == m[..p];
      KeepSplits(m[..n], gone, p);
    }
  }

  /** A pending flag update is sent if and only if its UID has a number in the new map. */
  lemma {:induction false} FetchSentIff(fs: seq<FlagsUpdate>, m: seq<nat>, number: nat, f: FlagsUpdate)
    ensures Fetch(number, f.uid, f.flags) in Fetches(fs, m) <==> f in fs && NumberOf(m, f.uid) == Some(number)
    decreases |fs|
  {
    if fs == [] {
    } else {
      var n := |fs| - 1;
      FetchSentIff(fs[..n], m, number, f);
      assert fs == fs[..n] + [fs[n]];
    }
  }

  /** The client, who still holds the old map, finds `uid` in the slot with this number. */
  predicate RightForClient(s: Session, uid: nat, number: nat) {
    1 <= number <= |s.uidMap| && s.uidMap[number - 1] == uid
  }

  function Gone(s: Session, expunge: bool): set<nat> {
    if expunge then s.expunged else {}
  }

  /**
   FETCH updates are numbered in the new map but sent before the EXPUNGE and EXISTS responses. One that
   is sent names the right message for the client if and only if its message is in the old map
   and no message before it goes in the same `Sync`.
   */
  lemma FetchNumberRightIff(s: Session, expunge: bool, uid: nat, number: nat)
    requires s.connected && Ascending(s.uidMap)
    requires forall x, y :: x in Elements(s.uidMap) && y in s.created ==> x < y
    requires NumberOf(SyncMap(s, expunge), uid) == Some(number)
    ensures RightForClient(s, uid, number) <==>
              uid in s.uidMap && forall x :: x in s.uidMap && x < uid ==> x !in Gone(s, expunge)
  {
    if uid in s.uidMap {
      var p :| 0 <= p < |s.uidMap| && s.uidMap[p] == uid;
      FetchNumberAt(s, expunge, p, number);
      NoneBefore(s.uidMap, Gone(s, expunge), p);
    }
  }

  lemma FetchNumberAt(s: Session, expunge: bool, p: nat, number: nat)
    requires Ascending(s.uidMap) && p < |s.uidMap|
    requires forall x, y :: x in Elements(s.uidMap) && y in s.created ==> x < y
    requires s.connected && NumberOf(SyncMap(s, expunge), s.uidMap[p]) == Some(number)
    ensures number == |Keep(s.uidMap[..p], Gone(s, expunge))| + 1
  {
    var m, gone := SyncMap(s, expunge), Gone(s, expunge);
    assert m == Keep(s.uidMap, gone) + Listed(s.created) by { KeepFull(s.uidMap, {}); }
    FetchNumberIs(s, gone, p);
    SyncAscending(s, expunge);
    HalvedAscending(m, s.uidMap[p]);
  }

  lemma {:induction false} NoneBefore(m: seq<nat>, gone: set<nat>, p: nat)
    requires Ascending(m) && p < |m|
    ensures |Keep(m[..p], gone)| == p <==> forall x :: x in m && x < m[p] ==> x !in gone
  {
    KeepFull(m[..p], gone);
    forall q | 0 <= q < p ensures m[..p][q] == m[q] && m[q] in m && m[q] < m[p] { }
  }

  lemma {:induction false} FetchNumberIs(s: Session, gone: set<nat>, p: nat)
    requires Ascending(s.uidMap) && p < |s.uidMap|
    requires forall x, y :: x in Elements(s.uidMap) && y in s.created ==> x < y
    ensures LowerBound(Keep(s.uidMap, gone) + Listed(s.created), s.uidMap[p]) == |Keep(s.uidMap[..p], gone)|
  {
    var kept, more, k := Keep(s.uidMap, gone), Listed(s.created), |Keep(s.uidMap[..p], gone)|;
    KeepSplits(s.uidMap, gone, p);
    assert s.uidMap[p] in Elements(s.uidMap);
    forall q | 0 <= q < |more| ensures more[q] > s.uidMap[p] {
      assert more[q] in Elements(more);
    }
    LowerBoundUnique(kept + more, s.uidMap[p], k);
  }

  /** A flag change of a message that arrives in the same `Sync` is sent to a client without a slot for it. */
  lemma FetchBeforeExists()
    ensures var s := Opened([2], {}).(created := {5}, flags := [FlagsUpdate(5, [])]);
            SyncUpdates(s, true) == [Fetch(2, 5, []), Exists(2)] && !RightForClient(s, 5, 2)
  {
    var s := Opened([2], {}).(created := {5}, flags := [FlagsUpdate(5, [])]);
    assert Elements([5]) == {5};
    AscendingUnique([5], Listed({5}));
    KeepFull([2], {});
    assert SyncMap(s, true) == [2, 5];
    assert NumberOf([2, 5], 5) == Some(2) by { NumberOfPresent([2, 5], 1); }
    assert s.flags[..0] == [];
    assert Expunges([2], {}) == [] by { assert [2][..0] == []; }
  }

  lemma FetchSent(s: Session, expunge: bool, number: nat, f: FlagsUpdate)
    requires s.connected
    ensures Fetch(number, f.uid, f.flags) in SyncUpdates(s, expunge)
            <==> f in s.flags && NumberOf(SyncMap(s, expunge), f.uid) == Some(number)
  {
    var u, m := Fetch(number, f.uid, f.flags), SyncMap(s, expunge);
    var fs, e := Fetches(s.flags, m), if expunge then Expunges(s.uidMap, s.expunged) else [];
    FetchSentIff(s.flags, m, number, f);
    assert SyncUpdates(s, expunge) == fs + e + Arrivals(s, expunge);
    if u in e { NoCountsInExpunges(s.uidMap, s.expunged, u); }
    if u in fs { assert u in fs + e; }
  }

  /**
   The flags that are sent for a changed message are the new ones, and \Recent with them if and only if the
   session shows the message as recent.
   */
  lemma RecentFlagSentIff(s: Session, uid: nat, flags: seq<string>, expunge: bool, number: nat)
    requires s.connected && !FlagsPending(s.flags, uid)
    requires NumberOf(SyncMap(s, expunge), uid) == Some(number)
    ensures Fetch(number, uid, flags + ["\\Recent"]) in SyncUpdates(EnqueueFlags(s, uid, flags), expunge)
            <==> uid in s.recent
    ensures Fetch(number, uid, flags) in SyncUpdates(EnqueueFlags(s, uid, flags), expunge) <==> uid !in s.recent
  {
    var t, more := EnqueueFlags(s, uid, flags), flags + ["\\Recent"];
    assert |more| == |flags| + 1;
    var sent := FlagsUpdate(uid, if uid in s.recent then more else flags);
    assert t.flags == s.flags + [sent];
    assert forall f :: f in t.flags <==> f in s.flags || f == sent;
    FetchSent(t, expunge, number, FlagsUpdate(uid, more));
    FetchSent(t, expunge, number, FlagsUpdate(uid, flags));
  }

  /** What is pending for a message, if anything, is `flags`. */
  predicate AllPendingAre(fs: seq<FlagsUpdate>, uid: nat, flags: seq<string>) {
    forall i :: 0 <= i < |fs| && fs[i].uid == uid ==> fs[i].flags == flags
  }

  /**
   After a flag change its flags are what is pending for the message, if and only if nothing else was
   pending for it: an older update that is still pending is not brought up to date.
   */
  lemma FlagsCurrentIff(s: Session, uid: nat, flags: seq<string>)
    ensures FlagsPending(EnqueueFlags(s, uid, flags).flags, uid)
    ensures AllPendingAre(EnqueueFlags(s, uid, flags).flags, uid, WithRecent(s, uid, flags))
            <==> AllPendingAre(s.flags, uid, WithRecent(s, uid, flags))
  {
    var t := EnqueueFlags(s, uid, flags).flags;
    if !FlagsPending(s.flags, uid) {
      assert t[|s.flags|].uid == uid;
      forall i | 0 <= i < |s.flags| ensures s.flags[i].uid != uid { }
    }
  }

  /** Two changes before one `Sync`: the first one's flags are what is sent. */
  lemma StaleFlagsSent()
    ensures var s := EnqueueFlags(EnqueueFlags(Opened([2], {}), 2, ["old"]), 2, ["new"]);
            s.flags == [FlagsUpdate(2, ["old"])] && SyncUpdates(s, true) == [Fetch(1, 2, ["old"])]
  {
    var t := EnqueueFlags(Opened([2], {}), 2, ["old"]);
    assert t.flags[0].uid == 2;
    var s := EnqueueFlags(t, 2, ["new"]);
    KeepFull([2], {});
    AscendingUnique([], Listed({}));
    assert SyncMap(s, true) == [2];
    assert s.flags[..0] == [];
    assert Expunges([2], {}) == [] by { assert [2][..0] == []; }
  }
}
