/**
 Runs of the mailbox store: what every operation keeps, over any sequence of operations, about
 UIDs, counters, reference counts and message bodies.
 */
module StoreRuns {
  import opened Uids
  import opened T = Tables
  import opened S = Store

  /**
   One committed operation, over any ranges. Ranges of sequence numbers ascend and do not overlap; those
   of a UID set may overlap, because bounds that come out reversed are swapped when it is resolved.
   */
  datatype Step =
    | Create(x: Incoming)
    | Deliver(xs: seq<Delivered>)
    | CopyTo(src: MboxId, dest: MboxId, spans: seq<Span>)
    | MoveTo(src: MboxId, dest: MboxId, spans: seq<Span>)
    | Delete(m: MboxId, spans: seq<Span>)
    | Expunge(m: MboxId)
    | ChangeFlags
    | AddMailbox(m: MboxId, user: UserId)

  datatype State = State(t: Tables, blobs: set<Key>)

  predicate Disjoint(spans: seq<Span>) {
    forall i, j :: 0 <= i < j < |spans| ==> spans[i].stop < spans[j].start
  }

  predicate DistinctKeys(xs: seq<Incoming>) {
    forall i, j :: 0 <= i < j < |xs| ==> xs[i].key != xs[j].key
  }

  ghost function KeysIn(xs: seq<Incoming>): set<Key> {
    set i | 0 <= i < |xs| :: xs[i].key
  }

  /** Body keys are drawn at random: a new one is neither on record nor in the blob store. */
  ghost predicate NewKeys(s: State, xs: seq<Incoming>) {
    DistinctKeys(xs) && KeysIn(xs) !! s.t.extKeys.Keys && KeysIn(xs) !! s.blobs
  }

  ghost predicate SameButFlags(a: Tables, b: Tables) {
    && a.mboxes == b.mboxes && a.extKeys == b.extKeys && a.msgs.Keys == b.msgs.Keys
    && forall p :: p in a.msgs ==> a.msgs[p].key == b.msgs[p].key && a.msgs[p].mark == b.msgs[p].mark
  }

  /** `s` goes to `s'` by one committed operation. */
  ghost predicate Takes(s: State, step: Step, s': State) {
    match step
    case Create(x) =>
      && x.m in s.t.mboxes && NewKeys(s, [x])
      && s' == State(Created(s.t, x), s.blobs + {x.key})
    case Deliver(xs) =>
      && (forall i :: 0 <= i < |xs| ==> xs[i].m in s.t.mboxes) && NewKeys(s, xs)
      && s' == State(AllCreated(s.t, xs), s.blobs + KeysIn(xs))
    case CopyTo(src, dest, spans) =>
      && src in s.t.mboxes && dest in s.t.mboxes && Clear(src, dest, spans, s.t.mboxes[dest].uidnext)
      && s.t.mboxes[src].user == s.t.mboxes[dest].user
      && Copied(s.t, s'.t, src, dest, spans) && s'.blobs == s.blobs
    case MoveTo(src, dest, spans) =>
      && src in s.t.mboxes && dest in s.t.mboxes && Clear(src, dest, spans, s.t.mboxes[dest].uidnext)
      && s.t.mboxes[src].user == s.t.mboxes[dest].user
      && Moved(s.t, s'.t, src, dest, spans) && s'.blobs == s.blobs
    case Delete(m, spans) =>
      && m in s.t.mboxes && ChosenRows(s.t.msgs, m, spans) <= s.t.msgs.Keys
      && Deleted(s.t, s'.t, m, spans) && s'.blobs == s.blobs - KeysOf(s.t.msgs, ChosenRows(s.t.msgs, m, spans))
    case Expunge(m) =>
      && m in s.t.mboxes && CanExpunge(s.t, m)
      && s' == State(Expunged(s.t, m), s.blobs - Dropped(s.t, m))
    case ChangeFlags => SameButFlags(s.t, s'.t) && s'.blobs == s.blobs
    case AddMailbox(m, user) =>
      && m !in s.t.mboxes && s' == s.(t := s.t.(mboxes := s.t.mboxes[m := Mbox(user, 1, 0)]))
  }

  ghost predicate Run(states: seq<State>, steps: seq<Step>) {
    |states| == |steps| + 1 &&
    forall i {:trigger steps[i]} :: 0 <= i < |steps| ==> Takes(states[i], steps[i], states[i + 1])
  }

  // ---- Selecting ----

  lemma {:induction false} SlotsCount(dest: MboxId, base: nat, n: nat)
    ensures |Slots(dest, base, n)| == n
  {
    if n == 0 {
      assert Slots(dest, base, 0) == {};
    } else {
      SlotsCount(dest, base, n - 1);
      assert Slots(dest, base, n) == Slots(dest, base, n - 1) + {(dest, base + n - 1)};
    }
  }

  lemma {:induction false} UidsCount(ps: set<RowId>, m: MboxId)
    requires forall p :: p in ps ==> p.0 == m
    ensures |UidsOf(ps)| == |ps|
    decreases |ps|
  {
    if ps == {} {
      assert UidsOf(ps) == {};
    } else {
      var p :| p in ps;
      UidsCount(ps - {p}, m);
      assert UidsOf(ps) == UidsOf(ps - {p}) + {p.1} by {
        forall u | u in UidsOf(ps) ensures u in UidsOf(ps - {p}) + {p.1} {
          var q :| q in ps && q.1 == u;
          if q != p { assert q in ps - {p}; }
        }
      }
      assert p.1 !in UidsOf(ps - {p});
    }
  }

  lemma UidsUnion(a: set<RowId>, b: set<RowId>)
    ensures UidsOf(a + b) == UidsOf(a) + UidsOf(b)
  {
    forall u | u in UidsOf(a) + UidsOf(b) ensures u in UidsOf(a + b) {
      if u in UidsOf(a) {
        var p :| p in a && p.1 == u;
        assert p in a + b;
      } else {
        var p :| p in b && p.1 == u;
        assert p in a + b;
      }
    }
  }

  /** Chosen rows lie in some span. */
  lemma {:induction false} ChosenBelow(msgs: map<RowId, Msg>, src: MboxId, spans: seq<Span>, bound: nat)
    requires forall i :: 0 <= i < |spans| ==> spans[i].stop < bound
    ensures forall u :: u in UidsOf(ChosenRows(msgs, src, spans)) ==> u < bound
  {
    if spans == [] {
    } else {
      ChosenBelow(msgs, src, spans[..|spans| - 1], bound);
      UidsUnion(ChosenRows(msgs, src, spans[..|spans| - 1]), Between(msgs, src, spans[|spans| - 1]));
    }
  }

  /** Over ascending disjoint ranges the selection is the chosen messages, each once, in order of UID. */
  lemma {:induction false} ChosenInOrder(msgs: map<RowId, Msg>, src: MboxId, spans: seq<Span>)
    requires Disjoint(spans)
    ensures Chosen(msgs, src, spans) == Listed(UidsOf(ChosenRows(msgs, src, spans)))
    ensures |Chosen(msgs, src, spans)| == |ChosenRows(msgs, src, spans)|
  {
    ChosenRowsIn(msgs, src, spans);
    UidsCount(ChosenRows(msgs, src, spans), src);
    if spans == [] {
      assert UidsOf(ChosenRows(msgs, src, spans)) == {};
      AscendingUnique([], Listed({}));
    } else {
      var front, s := spans[..|spans| - 1], spans[|spans| - 1];
      ChosenInOrder(msgs, src, front);
      ChosenBelow(msgs, src, front, s.start);
      var a, b := ChosenRows(msgs, src, front), Between(msgs, src, s);
      UidsUnion(a, b);
      ListedUnion(UidsOf(a), UidsOf(b));
    }
  }

  /** The chosen rows are those whose UID lies in some range. */
  lemma {:induction false} ChosenRowsAre(msgs: map<RowId, Msg>, src: MboxId, spans: seq<Span>, p: RowId)
    ensures p in ChosenRows(msgs, src, spans)
            <==> p in msgs && p.0 == src && exists i :: 0 <= i < |spans| && spans[i].start <= p.1 <= spans[i].stop
    decreases |spans|
  {
    if spans == [] {
    } else {
      var n := |spans| - 1;
      ChosenRowsAre(msgs, src, spans[..n], p);
      if p in msgs && p.0 == src && spans[n].start <= p.1 <= spans[n].stop {
        assert p in Between(msgs, src, spans[n]);
      } else if i :| 0 <= i < |spans| && spans[i].start <= p.1 <= spans[i].stop {
        assert i < n ==> spans[..n][i] == spans[i];
      }
    }
  }

  /**
   A copy over ascending disjoint ranges is an order-preserving bijection: the selected messages, in
   ascending order of UID, get base, base + 1, ... in turn, and these are all the rows that are new.
   */
  ghost predicate InOrder(after: map<RowId, Msg>, before: map<RowId, Msg>, src: MboxId, rows: set<RowId>, dest: MboxId,
                          base: nat) {
    var list := Listed(UidsOf(rows));
    && |list| == |rows|
    && (forall p :: p in after && p !in before ==> p in Slots(dest, base, |rows|))
    && (forall p :: p in Slots(dest, base, |rows|) ==> p in after && p !in before)
    && forall i :: 0 <= i < |list| ==>
         (src, list[i]) in before && after[(dest, base + i)] == Copy(before[(src, list[i])])
  }

  lemma MoveIsInOrder(after: map<RowId, Msg>, before: map<RowId, Msg>, gone: set<RowId>, src: MboxId, list: seq<nat>,
                      rows: set<RowId>, dest: MboxId, base: nat)
    requires list == Listed(UidsOf(rows)) && |list| == |rows|
    requires FreeFrom(before, dest, base) && IsMoveOf(after, before, gone, src, list, dest, base)
    ensures InOrder(after, before, src, rows, dest, base)
  {
  }

  lemma {:induction false} CopyInOrder(t: Tables, t': Tables, src: MboxId, dest: MboxId, spans: seq<Span>)
    requires Placed(t) && src in t.mboxes && dest in t.mboxes && Disjoint(spans) && Copied(t, t', src, dest, spans)
    ensures InOrder(t'.msgs, t.msgs, src, ChosenRows(t.msgs, src, spans), dest, t.mboxes[dest].uidnext)
    ensures AllAlike(t'.msgs, t.msgs, src, Listed(UidsOf(ChosenRows(t.msgs, src, spans))), dest, t.mboxes[dest].uidnext)
    ensures forall p :: p in t.msgs ==> p in t'.msgs && t'.msgs[p] == t.msgs[p]
    ensures t'.mboxes[dest].uidnext == t.mboxes[dest].uidnext + |ChosenRows(t.msgs, src, spans)|
  {
    var list, rows, base := Chosen(t.msgs, src, spans), ChosenRows(t.msgs, src, spans), t.mboxes[dest].uidnext;
    ChosenInOrder(t.msgs, src, spans);
    GoodIsFree(t, dest);
    CopyIsMove(t'.msgs, t.msgs, src, list, dest, base);
    MoveIsInOrder(t'.msgs, t.msgs, {}, src, list, rows, dest, base);
    CopiedAlike(t'.msgs, t.msgs, src, list, dest, base);
  }

  lemma {:induction false} MoveInOrder(t: Tables, t': Tables, src: MboxId, dest: MboxId, spans: seq<Span>)
    requires Placed(t) && src in t.mboxes && dest in t.mboxes
    requires Disjoint(spans) && Moved(t, t', src, dest, spans)
    ensures InOrder(t'.msgs, t.msgs, src, ChosenRows(t.msgs, src, spans), dest, t.mboxes[dest].uidnext)
    ensures t'.mboxes[dest].uidnext == t.mboxes[dest].uidnext + |ChosenRows(t.msgs, src, spans)|
    ensures AllAlike(t'.msgs, t.msgs, src, Listed(UidsOf(ChosenRows(t.msgs, src, spans))), dest, t.mboxes[dest].uidnext)
    ensures forall p :: p in t.msgs && p !in t'.msgs <==> p in ChosenRows(t.msgs, src, spans)
    ensures forall p :: p in t.msgs && p in t'.msgs ==> t'.msgs[p] == t.msgs[p]
    ensures Counted(t) ==> Counted(t')
  {
    DisjointApart(t.msgs, src, spans);
    if Counted(t) { MoveCountsRightIff(t, t', src, dest, spans); }
    var list, rows, base := Chosen(t.msgs, src, spans), ChosenRows(t.msgs, src, spans), t.mboxes[dest].uidnext;
    ChosenInOrder(t.msgs, src, spans);
    ChosenRowsIn(t.msgs, src, spans);
    GoodIsFree(t, dest);
    MoveIsInOrder(t'.msgs, t.msgs, rows, src, list, rows, dest, base);
    MovedAlike(t'.msgs, t.msgs, rows, src, list, dest, base);
  }

  // ---- The range that is announced ----

  /** The target holds a new message under this UID. */
  ghost predicate IsNew(t: Tables, t': Tables, dest: MboxId, u: nat) {
    (dest, u) in t'.msgs && (dest, u) !in t.msgs
  }

  /** Section 9 of RFC 3501: the bounds of a range may come in either order. */
  predicate Named(first: int, last: int, u: int) {
    if first <= last then first <= u <= last else last <= u <= first
  }

  /** The range from `first` to `last` that is announced to the sessions of the target. */
  ghost predicate Announced(t: Tables, t': Tables, dest: MboxId, first: int, last: int)
    requires dest in t.mboxes && dest in t'.mboxes
  {
    first == t.mboxes[dest].uidnext && last + 1 == t'.mboxes[dest].uidnext
  }

  /**
   A copy or move announces a range that names exactly the copies if and only if there are any. Without,
   its end lies before its start.
   */
  lemma AnnouncesCopiesIff(t: Tables, t': Tables, gone: set<RowId>, src: MboxId, list: seq<nat>, dest: MboxId,
                           first: nat, last: int)
    requires FreeFrom(t.msgs, dest, first) && IsMoveOf(t'.msgs, t.msgs, gone, src, list, dest, first)
    requires last + 1 == first + |list|
    ensures forall u: nat :: first <= u <= last <==> IsNew(t, t', dest, u)
    ensures first <= last <==> list != []
    ensures (forall u: nat :: Named(first, last, u) <==> IsNew(t, t', dest, u)) <==> list != []
  {
    forall u: nat ensures first <= u <= last <==> IsNew(t, t', dest, u) {
      assert (dest, u) in t'.msgs <==> ((dest, u) in t.msgs && (dest, u) !in gone) || first <= u < first + |list|;
    }
    if list == [] { assert Named(first, last, first) && !IsNew(t, t', dest, first); }
  }

  lemma {:induction false} MoveAnnouncesIff(t: Tables, t': Tables, src: MboxId, dest: MboxId, spans: seq<Span>,
                                            first: nat, last: int)
    requires Placed(t) && src in t.mboxes && dest in t.mboxes && Moved(t, t', src, dest, spans)
    requires Announced(t, t', dest, first, last)
    ensures forall u: nat :: first <= u <= last <==> IsNew(t, t', dest, u)
    ensures first <= last <==> Chosen(t.msgs, src, spans) != []
    ensures (forall u: nat :: Named(first, last, u) <==> IsNew(t, t', dest, u)) <==> Chosen(t.msgs, src, spans) != []
  {
    GoodIsFree(t, dest);
    AnnouncesCopiesIff(t, t', ChosenRows(t.msgs, src, spans), src, Chosen(t.msgs, src, spans), dest, first, last);
  }

  lemma {:induction false} CopyAnnouncesIff(t: Tables, t': Tables, src: MboxId, dest: MboxId, spans: seq<Span>,
                                            first: nat, last: int)
    requires Placed(t) && src in t.mboxes && dest in t.mboxes && Copied(t, t', src, dest, spans)
    requires Announced(t, t', dest, first, last)
    ensures forall u: nat :: first <= u <= last <==> IsNew(t, t', dest, u)
    ensures first <= last <==> Chosen(t.msgs, src, spans) != []
    ensures (forall u: nat :: Named(first, last, u) <==> IsNew(t, t', dest, u)) <==> Chosen(t.msgs, src, spans) != []
  {
    var list := Chosen(t.msgs, src, spans);
    GoodIsFree(t, dest);
    CopyIsMove(t'.msgs, t.msgs, src, list, dest, first);
    AnnouncesCopiesIff(t, t', {}, src, list, dest, first, last);
  }

  lemma {:induction false} NoneChosen(src: MboxId, s: Span)
    ensures Chosen(map[], src, [s]) == [] && ChosenRows(map[], src, [s]) == {}
  {
    assert Between(map[], src, s) == {} && UidsOf({}) == {};
    AscendingUnique([], Listed({}));
    assert [s][..0] == [];
  }

  /** A move over UIDs that are not there, into a mailbox whose next UID is 5: it announces 5:4, which names both. */
  lemma EmptyMoveAnnounces() returns (t: Tables, t': Tables)
    ensures Good(t) && 1 in t.mboxes && 2 in t.mboxes && 2 in t'.mboxes && Moved(t, t', 1, 2, [Span(7, 9)])
    ensures t'.msgs == t.msgs && Announced(t, t', 2, 5, 4) && Named(5, 4, 4) && Named(5, 4, 5)
  {
    var mboxes := map[1 := Mbox(7, 3, 0), 2 := Mbox(7, 5, 0)];
    t := Tables(mboxes, map[], map[]);
    t' := t;
    NothingGood(t);
    NothingMoved(t, 1, 2, Span(7, 9));
  }

  lemma NothingGood(t: Tables)
    requires t.msgs == map[] && forall m :: m in t.mboxes ==> t.mboxes[m].msgsCount == 0 < t.mboxes[m].uidnext
    ensures Good(t)
  {
    forall m | m in t.mboxes ensures CountRight(t.msgs, m, t.mboxes[m]) { assert InMbox(t.msgs, m) == {}; }
  }

  lemma {:induction false} NothingMoved(t: Tables, src: MboxId, dest: MboxId, s: Span)
    requires t.msgs == map[] && src in t.mboxes && dest in t.mboxes && t.mboxes[src].msgsCount == 0
    ensures Moved(t, t, src, dest, [s])
  {
    NoneChosen(src, s);
    assert t.mboxes == IncreaseMsgCount(DecreaseMsgCount(t, 0, src), 0, 0, dest).mboxes;
  }

  // ---- UIDs and counters ----

  /** Mailboxes stay with their owners, uidnext never falls, and new messages lie at or above it. */
  ghost predicate Grows(t: Tables, t': Tables) {
    && (forall m :: m in t.mboxes ==> m in t'.mboxes && t'.mboxes[m].user == t.mboxes[m].user
                                      && t.mboxes[m].uidnext <= t'.mboxes[m].uidnext)
    && forall p :: p in t'.msgs && p !in t.msgs && p.0 in t.mboxes ==> t.mboxes[p.0].uidnext <= p.1
  }

  lemma CreatedGood(t: Tables, x: Incoming)
    requires Placed(t) && x.m in t.mboxes && x.key !in t.extKeys
    ensures Placed(Created(t, x)) && Grows(t, Created(t, x)) && (Counted(t) ==> Counted(Created(t, x)))
  {
    var t', q := Created(t, x), (x.m, t.mboxes[x.m].uidnext);
    forall p | p in t'.msgs ensures GoodRow(t'.mboxes, t'.extKeys, p, t'.msgs[p]) {
      if p != q { assert GoodRow(t.mboxes, t.extKeys, p, t.msgs[p]); }
    }
    if Counted(t) {
      forall m | m in t'.mboxes ensures CountRight(t'.msgs, m, t'.mboxes[m]) {
        assert CountRight(t.msgs, m, t.mboxes[m]);
        RowAdded(t.msgs, q, t'.msgs[q], m);
      }
    }
  }

  lemma RowAdded(msgs: map<RowId, Msg>, q: RowId, msg: Msg, m: MboxId)
    requires q !in msgs
    ensures |InMbox(msgs[q := msg], m)| == |InMbox(msgs, m)| + if m == q.0 then 1 else 0
  {
    if m == q.0 {
      assert InMbox(msgs[q := msg], m) == InMbox(msgs, m) + {q};
    } else {
      assert InMbox(msgs[q := msg], m) == InMbox(msgs, m);
    }
  }

  lemma GrowsOn(a: Tables, b: Tables, c: Tables)
    requires Placed(a) && Placed(b) && Grows(a, b) && Grows(b, c)
    ensures Grows(a, c)
  {
  }

  lemma LastKey(xs: seq<Incoming>, front: seq<Incoming>, x: Incoming)
    requires xs == front + [x] && DistinctKeys(xs)
    ensures KeysIn(xs) == KeysIn(front) + {x.key} && x.key !in KeysIn(front) && DistinctKeys(front)
  {
    assert forall i :: 0 <= i < |front| ==> xs[i] == front[i];
    assert xs[|front|] == x;
  }

  lemma {:induction false} AllCreatedGood(t: Tables, xs: seq<Incoming>)
    requires Placed(t) && (forall i :: 0 <= i < |xs| ==> xs[i].m in t.mboxes)
    requires DistinctKeys(xs) && KeysIn(xs) !! t.extKeys.Keys
    ensures Placed(AllCreated(t, xs)) && Grows(t, AllCreated(t, xs))
    ensures AllCreated(t, xs).extKeys.Keys == t.extKeys.Keys + KeysIn(xs)
  {
    if xs == [] {
    } else {
      var front, x := xs[..|xs| - 1], xs[|xs| - 1];
      LastKey(xs, front, x);
      AllCreatedGood(t, front);
      CreatedGood(AllCreated(t, front), x);
      GrowsOn(t, AllCreated(t, front), AllCreated(t, xs));
    }
  }

  lemma {:induction false} AllCreatedCounted(t: Tables, xs: seq<Incoming>)
    requires Good(t) && (forall i :: 0 <= i < |xs| ==> xs[i].m in t.mboxes)
    requires DistinctKeys(xs) && KeysIn(xs) !! t.extKeys.Keys
    ensures Counted(AllCreated(t, xs))
  {
    if xs == [] {
    } else {
      var front, x := xs[..|xs| - 1], xs[|xs| - 1];
      LastKey(xs, front, x);
      AllCreatedGood(t, front);
      AllCreatedCounted(t, front);
      CreatedGood(AllCreated(t, front), x);
    }
  }

  /** Every UID lies below the uidnext of its mailbox. */
  ghost predicate AllBelow(t: Tables) {
    forall p :: p in t.msgs && p.0 in t.mboxes ==> p.1 < t.mboxes[p.0].uidnext
  }

  /** One new row for each message, in order, with what it brings; and no other change of rows. */
  ghost predicate Arrived(t: Tables, t': Tables, xs: seq<Incoming>, rows: seq<RowId>) {
    && |rows| == |xs|
    && (forall i :: 0 <= i < |xs| ==>
          && rows[i].0 == xs[i].m && rows[i] in t'.msgs && rows[i] !in t.msgs
          && t'.msgs[rows[i]] == Msg(xs[i].key, xs[i].flags, xs[i].seen, false, xs[i].recent, xs[i].data))
    && (forall i, j :: 0 <= i < j < |xs| && xs[i].m == xs[j].m ==> rows[i].1 < rows[j].1)
    && (forall p :: p in t'.msgs <==> p in t.msgs || p in rows)
    && forall p :: p in t.msgs ==> t'.msgs[p] == t.msgs[p]
  }

  lemma OneMoreArrived(t: Tables, before: Tables, xs: seq<Incoming>, rows: seq<RowId>, x: Incoming)
    requires Arrived(t, before, xs, rows) && x.m in before.mboxes && AllBelow(before)
    ensures Arrived(t, Created(before, x), xs + [x], rows + [(x.m, before.mboxes[x.m].uidnext)])
    ensures AllBelow(Created(before, x))
  {
    var row := (x.m, before.mboxes[x.m].uidnext);
    assert row !in before.msgs;
    var all, more := xs + [x], rows + [row];
    forall i, j | 0 <= i < j < |all| && all[i].m == all[j].m ensures more[i].1 < more[j].1 {
      if j == |xs| { assert rows[i] in before.msgs && rows[i].0 == x.m; }
    }
  }

  /** What a delivery announces: exactly the rows it adds, one for each message, in order, UIDs ascending. */
  lemma {:induction false} DeliveryArrives(t: Tables, xs: seq<Incoming>)
    requires AllBelow(t) && forall i :: 0 <= i < |xs| ==> xs[i].m in t.mboxes
    ensures Arrived(t, AllCreated(t, xs), xs, CreatedUids(t, xs)) && AllBelow(AllCreated(t, xs))
    decreases |xs|
  {
    if xs == [] {
    } else {
      var front, x := xs[..|xs| - 1], xs[|xs| - 1];
      assert xs == front + [x];
      DeliveryArrives(t, front);
      OneMoreArrived(t, AllCreated(t, front), front, CreatedUids(t, front), x);
    }
  }

  /** Counters of a copy or move: only those of the two mailboxes change, and uidnext only in the target. */
  ghost predicate SameUsers(t: Tables, t': Tables, dest: MboxId, added: nat) {
    && t'.mboxes.Keys == t.mboxes.Keys && t'.extKeys.Keys == t.extKeys.Keys
    && (forall m :: m in t.mboxes ==> t'.mboxes[m].user == t.mboxes[m].user)
    && (forall m :: m in t.mboxes ==> t'.mboxes[m].uidnext == t.mboxes[m].uidnext + if m == dest then added else 0)
    && forall k :: k in t.extKeys ==> t'.extKeys[k].user == t.extKeys[k].user
  }

  /** Rows that stay, and new ones in `dest` that carry keys of the same owner, leave all in place. */
  lemma CopiesPlaced(t: Tables, t': Tables, gone: set<RowId>, src: MboxId, list: seq<nat>, dest: MboxId, base: nat)
    requires Placed(t) && src in t.mboxes && dest in t.mboxes && t.mboxes[src].user == t.mboxes[dest].user
    requires base == t.mboxes[dest].uidnext && IsMoveOf(t'.msgs, t.msgs, gone, src, list, dest, base)
    requires SameUsers(t, t', dest, |list|)
    ensures Placed(t') && Grows(t, t')
  {
    forall p | p in t'.msgs ensures GoodRow(t'.mboxes, t'.extKeys, p, t'.msgs[p]) {
      if p in t.msgs && p !in gone {
        assert GoodRow(t.mboxes, t.extKeys, p, t.msgs[p]);
      } else {
        var i := p.1 - base;
        var q := (src, list[i]);
        assert p == (dest, base + i) && t'.msgs[(dest, base + i)] == Copy(t.msgs[q]);
        assert GoodRow(t.mboxes, t.extKeys, q, t.msgs[q]);
      }
    }
  }

  lemma CopyIsMove(after: map<RowId, Msg>, before: map<RowId, Msg>, src: MboxId, list: seq<nat>, dest: MboxId,
                   base: nat)
    requires IsCopyOf(after, before, src, list, dest, base)
    ensures IsMoveOf(after, before, {}, src, list, dest, base)
  {
  }

  lemma CopiedGood(t: Tables, t': Tables, src: MboxId, dest: MboxId, spans: seq<Span>)
    requires Placed(t) && src in t.mboxes && dest in t.mboxes
    requires t.mboxes[src].user == t.mboxes[dest].user && Copied(t, t', src, dest, spans)
    ensures Placed(t') && Grows(t, t') && (Counted(t) ==> Counted(t'))
  {
    var list, base := Chosen(t.msgs, src, spans), t.mboxes[dest].uidnext;
    CopyIsMove(t'.msgs, t.msgs, src, list, dest, base);
    CopiesPlaced(t, t', {}, src, list, dest, base);
    GoodIsFree(t, dest);
    if Counted(t) {
      forall m | m in t'.mboxes ensures CountRight(t'.msgs, m, t'.mboxes[m]) {
        assert CountRight(t.msgs, m, t.mboxes[m]);
        RowsAfter(t.msgs, t'.msgs, {}, src, list, dest, base, m);
      }
    }
  }

  /** How many rows a mailbox has after a copy or move. */
  lemma RowsAfter(before: map<RowId, Msg>, after: map<RowId, Msg>, gone: set<RowId>,
                  src: MboxId, list: seq<nat>, dest: MboxId, base: nat, m: MboxId)
    requires FreeFrom(before, dest, base)
    requires gone <= InMbox(before, src) && IsMoveOf(after, before, gone, src, list, dest, base)
    ensures |InMbox(after, m)|
            == |InMbox(before, m)| + (if m == dest then |list| else 0) - (if m == src then |gone| else 0)
  {
    var kept := if m == src then InMbox(before, m) - gone else InMbox(before, m);
    if m == dest {
      SlotsCount(dest, base, |list|);
      RowsAre(InMbox(after, m), kept, Slots(dest, base, |list|));
    } else {
      assert InMbox(after, m) == kept;
    }
  }

  lemma RowsAre(rows: set<RowId>, kept: set<RowId>, slots: set<RowId>)
    requires kept !! slots && forall p :: p in rows <==> p in kept || p in slots
    ensures |rows| == |kept| + |slots|
  {
    assert rows == kept + slots;
  }

  lemma GoodIsFree(t: Tables, dest: MboxId)
    requires Placed(t) && dest in t.mboxes
    ensures FreeFrom(t.msgs, dest, t.mboxes[dest].uidnext)
  {
  }

  lemma MovedPlaced(t: Tables, t': Tables, src: MboxId, dest: MboxId, spans: seq<Span>)
    requires Placed(t) && src in t.mboxes && dest in t.mboxes
    requires t.mboxes[src].user == t.mboxes[dest].user && Moved(t, t', src, dest, spans)
    ensures Placed(t') && Grows(t, t')
  {
    var list, rows, base := Chosen(t.msgs, src, spans), ChosenRows(t.msgs, src, spans), t.mboxes[dest].uidnext;
    CopiesPlaced(t, t', rows, src, list, dest, base);
  }

  // ---- Selecting a message twice ----

  /** No two ranges share a message. */
  ghost predicate Apart(msgs: map<RowId, Msg>, src: MboxId, spans: seq<Span>) {
    forall i, j :: 0 <= i < j < |spans| ==> Between(msgs, src, spans[i]) !! Between(msgs, src, spans[j])
  }

  lemma SpanRows(msgs: map<RowId, Msg>, src: MboxId, s: Span)
    ensures |Selection(msgs, src, s)| == |Between(msgs, src, s)|
  {
    UidsCount(Between(msgs, src, s), src);
  }

  lemma {:induction false} SpanChosen(msgs: map<RowId, Msg>, src: MboxId, spans: seq<Span>, i: nat)
    requires i < |spans|
    ensures Between(msgs, src, spans[i]) <= ChosenRows(msgs, src, spans)
    decreases |spans|
  {
    if i == |spans| - 1 {
    } else {
      SpanChosen(msgs, src, spans[..|spans| - 1], i);
    }
  }

  lemma {:induction false} MeetsSome(msgs: map<RowId, Msg>, src: MboxId, spans: seq<Span>, p: RowId) returns (i: nat)
    requires p in ChosenRows(msgs, src, spans)
    ensures i < |spans| && p in Between(msgs, src, spans[i])
    decreases |spans|
  {
    var n := |spans| - 1;
    if p in Between(msgs, src, spans[n]) {
      i := n;
    } else {
      i := MeetsSome(msgs, src, spans[..n], p);
    }
  }

  lemma {:induction false} ApartLast(msgs: map<RowId, Msg>, src: MboxId, spans: seq<Span>, n: nat)
    requires |spans| == n + 1
    ensures Apart(msgs, src, spans) <==>
              Apart(msgs, src, spans[..n]) && ChosenRows(msgs, src, spans[..n]) !! Between(msgs, src, spans[n])
  {
    var front := spans[..n];
    if Apart(msgs, src, spans) {
      forall p | p in ChosenRows(msgs, src, front) ensures p !in Between(msgs, src, spans[n]) {
        var i := MeetsSome(msgs, src, front, p);
        assert Between(msgs, src, spans[i]) !! Between(msgs, src, spans[n]);
      }
    } else if ChosenRows(msgs, src, front) !! Between(msgs, src, spans[n]) {
      forall i | 0 <= i < n ensures Between(msgs, src, spans[i]) !! Between(msgs, src, spans[n]) {
        SpanChosen(msgs, src, front, i);
      }
    }
  }

  /** Ranges name at least as many messages as there are, and exactly as many if and only if none shares one. */
  lemma {:induction false} ApartIff(msgs: map<RowId, Msg>, src: MboxId, spans: seq<Span>)
    ensures |ChosenRows(msgs, src, spans)| <= |Chosen(msgs, src, spans)|
    ensures |Chosen(msgs, src, spans)| == |ChosenRows(msgs, src, spans)| <==> Apart(msgs, src, spans)
    decreases |spans|
  {
    if spans == [] {
    } else {
      var n := |spans| - 1;
      var a, b := ChosenRows(msgs, src, spans[..n]), Between(msgs, src, spans[n]);
      ApartIff(msgs, src, spans[..n]);
      ApartLast(msgs, src, spans, n);
      SpanRows(msgs, src, spans[n]);
      UnionCount(a, b);
    }
  }

  lemma UnionCount(a: set<RowId>, b: set<RowId>)
    ensures |a + b| == |a| + |b| - |a * b|
    ensures a !! b <==> |a * b| == 0
  {
    assert a + b == a + (b - a) && b == (b - a) + (a * b);
  }

  /** A move keeps the counters right if and only if no two of its ranges share a message. */
  lemma MoveCountsRightIff(t: Tables, t': Tables, src: MboxId, dest: MboxId, spans: seq<Span>)
    requires Good(t) && src in t.mboxes && dest in t.mboxes && Moved(t, t', src, dest, spans)
    ensures Counted(t') <==> Apart(t.msgs, src, spans)
  {
    var list, rows, base := Chosen(t.msgs, src, spans), ChosenRows(t.msgs, src, spans), t.mboxes[dest].uidnext;
    ChosenRowsIn(t.msgs, src, spans);
    GoodIsFree(t, dest);
    ApartIff(t.msgs, src, spans);
    forall m | m in t'.mboxes
      ensures CountRight(t'.msgs, m, t'.mboxes[m]) <==> m != src || |list| == |rows|
    {
      assert CountRight(t.msgs, m, t.mboxes[m]);
      RowsAfter(t.msgs, t'.msgs, rows, src, list, dest, base, m);
    }
    assert src in t'.mboxes;
  }

  lemma {:induction false} ChosenHas(msgs: map<RowId, Msg>, src: MboxId, spans: seq<Span>, i: nat, u: nat)
    returns (a: nat)
    requires i < |spans| && (src, u) in Between(msgs, src, spans[i])
    ensures a < |Chosen(msgs, src, spans)| && Chosen(msgs, src, spans)[a] == u
    decreases |spans|
  {
    var n := |spans| - 1;
    var front := Chosen(msgs, src, spans[..n]);
    if i == n {
      SelectionPresent(msgs, src, spans[n]);
      var k :| 0 <= k < |Selection(msgs, src, spans[n])| && Selection(msgs, src, spans[n])[k] == u;
      a := |front| + k;
    } else {
      a := ChosenHas(msgs, src, spans[..n], i, u);
    }
  }

  /** A message in two ranges is selected twice. */
  lemma {:induction false} ChosenTwice(msgs: map<RowId, Msg>, src: MboxId, spans: seq<Span>, i: nat, j: nat, u: nat)
    returns (a: nat, b: nat)
    requires i < j < |spans| && (src, u) in Between(msgs, src, spans[i]) && (src, u) in Between(msgs, src, spans[j])
    ensures a < b < |Chosen(msgs, src, spans)|
    ensures Chosen(msgs, src, spans)[a] == Chosen(msgs, src, spans)[b] == u
    decreases |spans|
  {
    var n := |spans| - 1;
    if j == n {
      a := ChosenHas(msgs, src, spans[..n], i, u);
      SelectionPresent(msgs, src, spans[n]);
      var k :| 0 <= k < |Selection(msgs, src, spans[n])| && Selection(msgs, src, spans[n])[k] == u;
      b := |Chosen(msgs, src, spans[..n])| + k;
    } else {
      a, b := ChosenTwice(msgs, src, spans[..n], i, j, u);
    }
  }

  /** Ascending disjoint ranges share nothing. */
  lemma DisjointApart(msgs: map<RowId, Msg>, src: MboxId, spans: seq<Span>)
    requires Disjoint(spans)
    ensures Apart(msgs, src, spans)
  {
  }

  const OVERLAPPING: seq<Span> := [Span(4, 4), Span(4, 10)]
  const PLAIN := Msg(5, {}, false, false, false, 0)
  const TWO: map<RowId, Msg> := map[(1, 2) := PLAIN, (1, 4) := PLAIN]
  const THREE: map<RowId, Msg> := map[(1, 2) := PLAIN, (2, 1) := PLAIN, (2, 2) := PLAIN]

  /**
   The ranges 4:4 and 4:10, which is what the UID set 4,10:* comes to over messages 2 and 4: message 4 is
   copied twice, and the counter of the source says none where one message is left.
   */
  lemma OverlapMiscounts() returns (s: State, s': State)
    ensures Good(s.t) && Takes(s, MoveTo(1, 2, OVERLAPPING), s')
    ensures InMbox(s'.t.msgs, 1) == {(1, 2)} && s'.t.mboxes[1].msgsCount == 0
    ensures InMbox(s'.t.msgs, 2) == {(2, 1), (2, 2)} && !Counted(s'.t)
  {
    var t := Tables(map[1 := Mbox(7, 5, 2), 2 := Mbox(7, 1, 0)], TWO, map[5 := ExtKey(7, 2)]);
    var t' := Tables(map[1 := Mbox(7, 5, 0), 2 := Mbox(7, 3, 2)], THREE, t.extKeys);
    s, s' := State(t, {5}), State(t', {5});
    OverlapGood(t);
    OverlapMoved(t, t');
    OverlapLeft(t');
  }

  lemma OverlapLeft(t: Tables)
    requires t.msgs == THREE && 1 in t.mboxes && t.mboxes[1].msgsCount == 0
    ensures InMbox(t.msgs, 1) == {(1, 2)} && InMbox(t.msgs, 2) == {(2, 1), (2, 2)} && !Counted(t)
  {
    assert InMbox(THREE, 1) == {(1, 2)} && InMbox(THREE, 2) == {(2, 1), (2, 2)};
    assert !CountRight(THREE, 1, t.mboxes[1]);
  }

  lemma OverlapGood(t: Tables)
    requires t == Tables(map[1 := Mbox(7, 5, 2), 2 := Mbox(7, 1, 0)], TWO, map[5 := ExtKey(7, 2)])
    ensures Good(t)
  {
    assert InMbox(TWO, 1) == {(1, 2), (1, 4)} && InMbox(TWO, 2) == {};
  }

  lemma OverlapMoved(t: Tables, t': Tables)
    requires t == Tables(map[1 := Mbox(7, 5, 2), 2 := Mbox(7, 1, 0)], TWO, map[5 := ExtKey(7, 2)])
    requires t' == Tables(map[1 := Mbox(7, 5, 0), 2 := Mbox(7, 3, 2)], THREE, t.extKeys)
    ensures Moved(t, t', 1, 2, OVERLAPPING)
  {
    OverlapChosen();
    OverlapCopies();
    assert t'.mboxes == IncreaseMsgCount(DecreaseMsgCount(t, 2, 1), 2, 2, 2).mboxes;
  }

  lemma OverlapCopies()
    ensures IsMoveOf(THREE, TWO, {(1, 4)}, 1, [4, 4], 2, 1)
  {
    var list := [4, 4];
    forall i | 0 <= i < |list| ensures (1, list[i]) in TWO && THREE[(2, 1 + i)] == Copy(TWO[(1, list[i])]) {
      assert list[i] == 4 && (2, 1 + i) in THREE;
    }
  }

  lemma OverlapChosen()
    ensures Chosen(TWO, 1, OVERLAPPING) == [4, 4] && ChosenRows(TWO, 1, OVERLAPPING) == {(1, 4)}
  {
    var a, b := Span(4, 4), Span(4, 10);
    assert Between(TWO, 1, a) == {(1, 4)} && Between(TWO, 1, b) == {(1, 4)};
    assert UidsOf({(1, 4)}) == {4} by { assert (1, 4).1 == 4; }
    assert Elements([4]) == {4};
    AscendingUnique([4], Listed({4}));
    assert OVERLAPPING[..1] == [a] && [a][..0] == [] && OVERLAPPING[1] == b;
    assert Chosen(TWO, 1, [a]) == Chosen(TWO, 1, []) + [4];
    assert ChosenRows(TWO, 1, [a]) == ChosenRows(TWO, 1, []) + {(1, 4)};
  }

  // ---- The other operations ----

  lemma WithoutGood(t: Tables, t': Tables, m: MboxId, rows: set<RowId>)
    requires Placed(t) && m in t.mboxes && rows <= InMbox(t.msgs, m)
    requires t'.mboxes == DecreaseMsgCount(t, |rows|, m).mboxes && t'.msgs == t.msgs - rows
    requires forall p :: p in t'.msgs ==> t'.msgs[p].key in t'.extKeys
    requires forall k :: k in t'.extKeys ==> k in t.extKeys && t'.extKeys[k].user == t.extKeys[k].user
    ensures Placed(t') && Grows(t, t') && (Counted(t) ==> Counted(t'))
  {
    forall p | p in t'.msgs ensures GoodRow(t'.mboxes, t'.extKeys, p, t'.msgs[p]) {
      assert GoodRow(t.mboxes, t.extKeys, p, t.msgs[p]);
    }
    if Counted(t) {
      forall n | n in t'.mboxes ensures CountRight(t'.msgs, n, t'.mboxes[n]) {
        assert CountRight(t.msgs, n, t.mboxes[n]);
        assert InMbox(t'.msgs, n) == if n == m then InMbox(t.msgs, n) - rows else InMbox(t.msgs, n);
      }
    }
  }

  lemma ExpungedGood(t: Tables, m: MboxId)
    requires Placed(t) && m in t.mboxes && CanExpunge(t, m)
    ensures Placed(Expunged(t, m)) && Grows(t, Expunged(t, m)) && (Counted(t) ==> Counted(Expunged(t, m)))
  {
    var almost, t' := Expunging(t, m), Expunged(t, m);
    forall p | p in t'.msgs ensures t'.msgs[p].key in t'.extKeys {
      assert p in almost.msgs && t.msgs[p].key in almost.extKeys;
    }
    WithoutGood(t, t', m, DeletedIn(t.msgs, m));
  }

  lemma FlagsGood(t: Tables, t': Tables)
    requires Placed(t) && SameButFlags(t, t')
    ensures Placed(t') && Grows(t, t') && (Counted(t) ==> Counted(t'))
  {
    forall p | p in t'.msgs ensures GoodRow(t'.mboxes, t'.extKeys, p, t'.msgs[p]) {
      assert GoodRow(t.mboxes, t.extKeys, p, t.msgs[p]);
    }
    if Counted(t) {
      forall m | m in t'.mboxes ensures CountRight(t'.msgs, m, t'.mboxes[m]) {
        assert CountRight(t.msgs, m, t.mboxes[m]);
        assert InMbox(t'.msgs, m) == InMbox(t.msgs, m);
      }
    }
  }

  lemma AddedGood(t: Tables, m: MboxId, user: UserId)
    requires Placed(t) && m !in t.mboxes
    ensures var t' := t.(mboxes := t.mboxes[m := Mbox(user, 1, 0)]);
            Placed(t') && Grows(t, t') && (Counted(t) ==> Counted(t'))
  {
    assert InMbox(t.msgs, m) == {};
  }

  // ---- Whole runs ----

  /** No operation but a move that selects a message twice puts a counter wrong. */
  ghost predicate Once(s: State, step: Step) {
    step.MoveTo? ==> Apart(s.t.msgs, step.src, step.spans)
  }

  /** Every operation keeps UIDs below uidnext and keys on record, and never lowers uidnext. */
  lemma StepPlaced(s: State, step: Step, s': State)
    requires Placed(s.t) && Takes(s, step, s')
    ensures Placed(s'.t) && Grows(s.t, s'.t) && (Counted(s.t) && !step.MoveTo? ==> Counted(s'.t))
  {
    match step
    case Create(x) =>
      assert [x][0].key in KeysIn([x]);
      CreatedGood(s.t, x);
    case Deliver(xs) =>
      AllCreatedGood(s.t, xs);
      if Counted(s.t) { AllCreatedCounted(s.t, xs); }
    case CopyTo(src, dest, spans) => CopiedGood(s.t, s'.t, src, dest, spans);
    case MoveTo(src, dest, spans) => MovedPlaced(s.t, s'.t, src, dest, spans);
    case Delete(m, spans) =>
      ChosenRowsIn(s.t.msgs, m, spans);
      WithoutGood(s.t, s'.t, m, ChosenRows(s.t.msgs, m, spans));
    case Expunge(m) => ExpungedGood(s.t, m);
    case ChangeFlags => FlagsGood(s.t, s'.t);
    case AddMailbox(m, user) => AddedGood(s.t, m, user);
  }

  /** It keeps the counters right if and only if it does not move a message twice. */
  lemma StepCountedIff(s: State, step: Step, s': State)
    requires Good(s.t) && Takes(s, step, s')
    ensures Counted(s'.t) <==> Once(s, step)
  {
    if step.MoveTo? {
      MoveCountsRightIff(s.t, s'.t, step.src, step.dest, step.spans);
    } else {
      StepPlaced(s, step, s');
    }
  }

  /** What one operation keeps. */
  ghost predicate Keeps(s: State, s': State) {
    Placed(s.t) ==> Placed(s'.t) && Grows(s.t, s'.t)
  }

  lemma StepAt(states: seq<State>, steps: seq<Step>, i: nat)
    requires Run(states, steps) && i < |steps|
    ensures Keeps(states[i], states[i + 1])
  {
    if Placed(states[i].t) { StepPlaced(states[i], steps[i], states[i + 1]); }
  }

  /** In every run: UIDs below uidnext and keys on record, and uidnext never falls. */
  lemma {:induction false} RunsStayPlaced(states: seq<State>, steps: seq<Step>, i: nat, j: nat)
    requires Run(states, steps) && i <= j < |states| && Placed(states[i].t)
    ensures Placed(states[j].t) && Grows(states[i].t, states[j].t)
    decreases j
  {
    if i == j {
    } else {
      RunsStayPlaced(states, steps, i, j - 1);
      StepAt(states, steps, j - 1);
      GrowsOn(states[i].t, states[j - 1].t, states[j].t);
    }
  }

  ghost predicate OnceEach(states: seq<State>, steps: seq<Step>)
    requires Run(states, steps)
  {
    forall i {:trigger steps[i]} :: 0 <= i < |steps| ==> Once(states[i], steps[i])
  }

  lemma GoodOn(states: seq<State>, steps: seq<Step>, i: nat)
    requires Run(states, steps) && OnceEach(states, steps) && i < |steps| && Good(states[i].t)
    ensures Good(states[i + 1].t)
  {
    var s, step, s' := states[i], steps[i], states[i + 1];
    StepPlaced(s, step, s');
    StepCountedIff(s, step, s');
  }

  /** In every run that moves no message twice the counters are right as well. */
  lemma {:induction false} RunsStayGood(states: seq<State>, steps: seq<Step>, j: nat)
    requires Run(states, steps) && j < |states| && Good(states[0].t) && OnceEach(states, steps)
    ensures Good(states[j].t)
    decreases j
  {
    if j == 0 {
    } else {
      RunsStayGood(states, steps, j - 1);
      GoodOn(states, steps, j - 1);
    }
  }

  /**
   A UID that an operation hands out was never in use before, and lies above every UID that ever
   was: no UID is issued twice, and UIDs strictly ascend in order of arrival.
   */
  lemma UidsAreNew(states: seq<State>, steps: seq<Step>, i: nat, j: nat, p: RowId)
    requires Run(states, steps) && Placed(states[0].t) && i <= j < |steps|
    requires p in states[j + 1].t.msgs && p !in states[j].t.msgs
    ensures p !in states[i].t.msgs
    ensures forall q :: q in states[i].t.msgs && q.0 == p.0 ==> q.1 < p.1
  {
    RunsStayPlaced(states, steps, 0, i);
    RunsStayPlaced(states, steps, i, j);
    StepAt(states, steps, j);
    forall q | q in states[i].t.msgs && q.0 == p.0 ensures q.1 < p.1 {
      assert GoodRow(states[i].t.mboxes, states[i].t.extKeys, q, states[i].t.msgs[q]);
      assert q.1 < states[i].t.mboxes[q.0].uidnext <= states[j].t.mboxes[q.0].uidnext <= p.1;
    }
  }
}
