/**
 The mailbox store: transactions over the tables, bodies in a blob store beside them
 (internal/go-imap-sql/mailbox.go). A transaction works on its own copy of the tables, which
 replaces the stored ones when it commits. Each operation is proved to do what the relation
 named after it says outright.
 */
module Store {
  import opened Uids
  import opened T = Tables

  // ---- What the operations do ----

  /** Messages named by the spans, span after span, ascending within each. */
  ghost function Chosen(msgs: map<RowId, Msg>, src: MboxId, spans: seq<Span>): seq<nat> {
    if spans == [] then []
    else Chosen(msgs, src, spans[..|spans| - 1]) + Selection(msgs, src, spans[|spans| - 1])
  }

  /** The same as a set of rows. */
  ghost function ChosenRows(msgs: map<RowId, Msg>, src: MboxId, spans: seq<Span>): set<RowId> {
    if spans == [] then {}
    else ChosenRows(msgs, src, spans[..|spans| - 1]) + Between(msgs, src, spans[|spans| - 1])
  }

  /** In how many of the spans a key occurs. */
  ghost function Hits(msgs: map<RowId, Msg>, src: MboxId, spans: seq<Span>, k: Key): nat {
    if spans == [] then 0
    else Hits(msgs, src, spans[..|spans| - 1], k)
         + if k in KeysOf(msgs, Between(msgs, src, spans[|spans| - 1])) then 1 else 0
  }

  /** Same keys, same owners; each key of the owner of `src` gains one reference per span it occurs in. */
  ghost predicate RefsCounted(t: Tables, t': Tables, src: MboxId, spans: seq<Span>)
    requires src in t.mboxes
  {
    t'.extKeys.Keys == t.extKeys.Keys &&
    forall k :: k in t.extKeys ==>
      t'.extKeys[k] == ExtKey(t.extKeys[k].user,
        t.extKeys[k].refs + if t.extKeys[k].user == t.mboxes[src].user then Hits(t.msgs, src, spans, k) else 0)
  }

  ghost predicate Copied(t: Tables, t': Tables, src: MboxId, dest: MboxId, spans: seq<Span>)
    requires src in t.mboxes && dest in t.mboxes
  {
    var list := Chosen(t.msgs, src, spans);
    && t'.mboxes == IncreaseMsgCount(t, |list|, |list|, dest).mboxes
    && IsCopyOf(t'.msgs, t.msgs, src, list, dest, t.mboxes[dest].uidnext)
    && RefsCounted(t, t', src, spans)
  }

  ghost predicate Moved(t: Tables, t': Tables, src: MboxId, dest: MboxId, spans: seq<Span>)
    requires src in t.mboxes && dest in t.mboxes
  {
    var list, rows, base := Chosen(t.msgs, src, spans), ChosenRows(t.msgs, src, spans), t.mboxes[dest].uidnext;
    && t'.mboxes == IncreaseMsgCount(DecreaseMsgCount(t, |list|, src), |list|, |list|, dest).mboxes
    && IsMoveOf(t'.msgs, t.msgs, rows, src, list, dest, base)
    && t'.extKeys == t.extKeys
  }

  ghost predicate Deleted(t: Tables, t': Tables, m: MboxId, spans: seq<Span>)
    requires m in t.mboxes
  {
    var rows := ChosenRows(t.msgs, m, spans);
    t' == DecreaseMsgCount(t, |rows|, m).(msgs := t.msgs - rows)
  }

  /** A copy within one mailbox takes only ranges below the copies it makes. */
  predicate Clear(src: MboxId, dest: MboxId, spans: seq<Span>, base: nat) {
    src != dest || forall i :: 0 <= i < |spans| ==> spans[i].stop < base
  }

  /** The statements of `Expunge` before the last. */
  function Expunging(t: Tables, m: MboxId): Tables
    requires m in t.mboxes
  {
    var t1 := DecreaseRefForDeleted(t, t.mboxes[m].user, m);
    DecreaseMsgCount(ExpungeMbox(t1, m), |DeletedIn(t.msgs, m)|, m)
  }

  function Expunged(t: Tables, m: MboxId): Tables
    requires m in t.mboxes
  {
    DeleteZeroRef(Expunging(t, m), t.mboxes[m].user)
  }

  /** The database refuses to delete a key that a message still refers to. */
  predicate CanExpunge(t: Tables, m: MboxId)
    requires m in t.mboxes
  {
    !Restricted(Expunging(t, m), t.mboxes[m].user)
  }

  /** The blobs `Expunge` deletes. */
  function Dropped(t: Tables, m: MboxId): set<Key>
    requires m in t.mboxes
  {
    ZeroRef(DecreaseRefForDeleted(t, t.mboxes[m].user, m), t.mboxes[m].user, m)
  }

  /** A message for a mailbox: a new body key, flags, whether \Recent is stored, and the rest. */
  datatype Incoming = Incoming(m: MboxId, key: Key, flags: set<string>, seen: bool, recent: bool, data: nat)

  /** One new message under the next UID. */
  function Created(t: Tables, x: Incoming): Tables
    requires x.m in t.mboxes
  {
    var t1 := AddExtKey(IncreaseMsgCount(t, 1, 1, x.m), x.key, t.mboxes[x.m].user);
    AddMsg(t1, (x.m, t.mboxes[x.m].uidnext), Msg(x.key, x.flags, x.seen, false, x.recent, x.data))
  }

  /** What an expunge does to the messages, said of each of them. */
  lemma ExpungedRows(t: Tables, m: MboxId)
    requires m in t.mboxes
    ensures forall p :: p in Expunged(t, m).msgs <==> p in t.msgs && !(p.0 == m && "\\Deleted" in t.msgs[p].flags)
    ensures forall p :: p in Expunged(t, m).msgs ==> Expunged(t, m).msgs[p] == t.msgs[p]
    ensures forall u :: u in UidsOf(DeletedIn(t.msgs, m)) <==>
              (m, u) in t.msgs && "\\Deleted" in t.msgs[(m, u)].flags
  {
    forall u | (m, u) in t.msgs && "\\Deleted" in t.msgs[(m, u)].flags ensures u in UidsOf(DeletedIn(t.msgs, m)) {
      assert (m, u) in DeletedIn(t.msgs, m) && (m, u).1 == u;
    }
  }

  /** Some message with this key goes. */
  ghost predicate Loses(t: Tables, m: MboxId, k: Key) {
    exists p :: p in t.msgs && p.0 == m && "\\Deleted" in t.msgs[p].flags && t.msgs[p].key == k
  }

  /** The references to a key that are left: one less, however many of its messages go. */
  ghost function RefsLeft(t: Tables, m: MboxId, k: Key): int
    requires k in t.extKeys
  {
    if Loses(t, m, k) then t.extKeys[k].refs - 1 else t.extKeys[k].refs
  }

  /** The counter of the mailbox falls by the number of messages that go, and nothing else changes there. */
  lemma ExpungedCounts(t: Tables, m: MboxId)
    requires m in t.mboxes
    ensures var mb := t.mboxes[m];
            Expunged(t, m).mboxes
            == t.mboxes[m := Mbox(mb.user, mb.uidnext, mb.msgsCount - |UidsOf(DeletedIn(t.msgs, m))|)]
  {
    UidsAsMany(DeletedIn(t.msgs, m), m);
  }

  /** Of the owner's keys those with references left stay; a body goes with its key if the mailbox had it. */
  lemma ExpungedKeys(t: Tables, m: MboxId, k: Key)
    requires m in t.mboxes && k in t.extKeys
    ensures t.extKeys[k].user != t.mboxes[m].user ==>
              k in Expunged(t, m).extKeys && Expunged(t, m).extKeys[k] == t.extKeys[k] && k !in Dropped(t, m)
    ensures t.extKeys[k].user == t.mboxes[m].user ==>
              && (k in Expunged(t, m).extKeys <==> RefsLeft(t, m, k) != 0)
              && (k in Expunged(t, m).extKeys ==>
                    Expunged(t, m).extKeys[k] == ExtKey(t.mboxes[m].user, RefsLeft(t, m, k)))
              && (k in Dropped(t, m) <==>
                    RefsLeft(t, m, k) == 0 && exists p :: p in t.msgs && p.0 == m && t.msgs[p].key == k)
  {
    assert Loses(t, m, k) <==> k in KeysOf(t.msgs, DeletedIn(t.msgs, m)) by {
      if Loses(t, m, k) {
        var p :| p in t.msgs && p.0 == m && "\\Deleted" in t.msgs[p].flags && t.msgs[p].key == k;
        assert p in DeletedIn(t.msgs, m);
      }
    }
    if p :| p in t.msgs && p.0 == m && t.msgs[p].key == k { assert p in InMbox(t.msgs, m); }
  }

  lemma {:induction false} UidsAsMany(ps: set<RowId>, m: MboxId)
    requires forall p :: p in ps ==> p.0 == m
    ensures |UidsOf(ps)| == |ps|
    decreases |ps|
  {
    if ps == {} {
    } else {
      var p :| p in ps;
      UidsAsMany(ps - {p}, m);
      assert UidsOf(ps) == UidsOf(ps - {p}) + {p.1};
      assert p.1 !in UidsOf(ps - {p});
    }
  }

  // ---- Lemmas about choosing ----

  /** Mailbox `src` has the same rows in a range, with the same keys, in both states. */
  ghost predicate SameRows(a: map<RowId, Msg>, b: map<RowId, Msg>, src: MboxId, s: Span) {
    forall p: RowId :: p.0 == src && s.start <= p.1 <= s.stop ==>
      (p in a <==> p in b) && (p in a ==> a[p].key == b[p].key)
  }

  lemma SameBetween(a: map<RowId, Msg>, b: map<RowId, Msg>, src: MboxId, s: Span)
    requires SameRows(a, b, src, s)
    ensures Between(a, src, s) == Between(b, src, s)
    ensures KeysOf(a, Between(a, src, s)) == KeysOf(b, Between(b, src, s))
    ensures Selection(a, src, s) == Selection(b, src, s)
  {
    assert Between(a, src, s) == Between(b, src, s);
  }

  lemma {:induction false} SameChosen(a: map<RowId, Msg>, b: map<RowId, Msg>, src: MboxId, spans: seq<Span>)
    requires forall i :: 0 <= i < |spans| ==> SameRows(a, b, src, spans[i])
    ensures Chosen(a, src, spans) == Chosen(b, src, spans) && ChosenRows(a, src, spans) == ChosenRows(b, src, spans)
  {
    if spans == [] {
    } else {
      SameChosen(a, b, src, spans[..|spans| - 1]);
      SameBetween(a, b, src, spans[|spans| - 1]);
    }
  }

  lemma {:induction false} ChosenRowsIn(msgs: map<RowId, Msg>, src: MboxId, spans: seq<Span>)
    ensures ChosenRows(msgs, src, spans) <= InMbox(msgs, src)
  {
    if spans == [] {
    } else {
      ChosenRowsIn(msgs, src, spans[..|spans| - 1]);
    }
  }

  /** A copy after a copy is a copy of both lists. */
  lemma CopyCompose(a: map<RowId, Msg>, b: map<RowId, Msg>, c: map<RowId, Msg>, src: MboxId, l1: seq<nat>, l2: seq<nat>,
                    dest: MboxId, base: nat, from: nat)
    requires IsCopyOf(b, a, src, l1, dest, base) && IsCopyOf(c, b, src, l2, dest, from) && from == base + |l1|
    requires Present(a, src, l2) && FreeFrom(a, dest, base)
    ensures IsCopyOf(c, a, src, l1 + l2, dest, base)
  {
    var l := l1 + l2;
    forall i | 0 <= i < |l| ensures (src, l[i]) in a && c[(dest, base + i)] == Copy(a[(src, l[i])]) {
      if i < |l1| {
        assert l[i] == l1[i];
        assert b[(dest, base + i)] == Copy(a[(src, l1[i])]);
      } else {
        var j := i - |l1|;
        assert l[i] == l2[j];
        assert c[(dest, base + |l1| + j)] == Copy(b[(src, l2[j])]);
        assert (src, l2[j]) in a;
      }
    }
  }

  /** What the copying loop has done to the messages after some of the spans. */
  ghost predicate CopiedSoFar(before: map<RowId, Msg>, after: map<RowId, Msg>, src: MboxId, dest: MboxId, base: nat,
                              spans: seq<Span>) {
    IsCopyOf(after, before, src, Chosen(before, src, spans), dest, base)
  }

  lemma {:induction false} CopyRound(t: map<RowId, Msg>, before: map<RowId, Msg>, after: map<RowId, Msg>, src: MboxId,
                                     dest: MboxId, base: nat, from: nat, spans: seq<Span>, s: Span)
    requires FreeFrom(t, dest, base) && (src != dest || s.stop < base)
    requires CopiedSoFar(t, before, src, dest, base, spans) && from == base + |Chosen(t, src, spans)|
    requires IsCopyOf(after, before, src, Selection(before, src, s), dest, from)
    ensures |Selection(before, src, s)| == |Chosen(t, src, spans + [s])| - |Chosen(t, src, spans)|
    ensures CopiedSoFar(t, after, src, dest, base, spans + [s])
    ensures SameRows(after, t, src, s)
  {
    assert (spans + [s])[..|spans|] == spans;
    SelectionKept(t, before, src, dest, base, Chosen(t, src, spans), s);
    SelectionPresent(t, src, s);
    CopyCompose(t, before, after, src, Chosen(t, src, spans), Selection(t, src, s), dest, base, from);
    CopyKeepsSource(after, t, src, Chosen(t, src, spans + [s]), dest, base, s);
  }

  lemma {:induction false} SelectionKept(t: map<RowId, Msg>, before: map<RowId, Msg>, src: MboxId, dest: MboxId,
                                         base: nat, list: seq<nat>, s: Span)
    requires FreeFrom(t, dest, base) && (src != dest || s.stop < base) && IsCopyOf(before, t, src, list, dest, base)
    ensures Selection(before, src, s) == Selection(t, src, s)
  {
    CopyKeepsSource(before, t, src, list, dest, base, s);
    SameBetween(before, t, src, s);
  }

  lemma CountSpan(t: Tables, tx: Tables, src: MboxId, spans: seq<Span>, s: Span)
    requires src in t.mboxes && SameRows(tx.msgs, t.msgs, src, s) && RefsCounted(t, tx, src, spans)
    ensures RefsCounted(t, IncrementRefUid(tx, t.mboxes[src].user, src, s), src, spans + [s])
  {
    assert (spans + [s])[..|spans|] == spans;
    SameBetween(tx.msgs, t.msgs, src, s);
  }

  lemma CopyKeepsSource(after: map<RowId, Msg>, before: map<RowId, Msg>, src: MboxId, list: seq<nat>, dest: MboxId,
                        base: nat, s: Span)
    requires (src != dest || s.stop < base) && IsCopyOf(after, before, src, list, dest, base)
    ensures SameRows(after, before, src, s)
    ensures FreeFrom(before, dest, base) ==> FreeFrom(after, dest, base + |list|)
  {
  }

  /** Marking spans one after the other marks exactly the chosen rows. */
  function WithMarks(msgs: map<RowId, Msg>, rows: set<RowId>): map<RowId, Msg> {
    map p | p in msgs :: if p in rows then msgs[p].(mark := true) else msgs[p]
  }

  lemma MarkAgain(t: Tables, t1: Tables, rows: set<RowId>, m: MboxId, s: Span)
    requires t1 == t.(msgs := WithMarks(t.msgs, rows))
    ensures MarkUid(t1, m, s) == t.(msgs := WithMarks(t.msgs, rows + Between(t.msgs, m, s)))
  {
    assert MarkUid(t1, m, s).msgs == WithMarks(t.msgs, rows + Between(t.msgs, m, s));
  }

  lemma {:induction false} MarksKeepRows(msgs: map<RowId, Msg>, rows: set<RowId>, src: MboxId, spans: seq<Span>)
    ensures Chosen(WithMarks(msgs, rows), src, spans) == Chosen(msgs, src, spans)
    ensures ChosenRows(msgs, src, spans) <= InMbox(msgs, src)
  {
    SameChosen(WithMarks(msgs, rows), msgs, src, spans);
    ChosenRowsIn(msgs, src, spans);
  }

  lemma MarkedAre(msgs: map<RowId, Msg>, rows: set<RowId>)
    requires rows <= msgs.Keys && forall p :: p in msgs ==> !msgs[p].mark
    ensures Marked(WithMarks(msgs, rows)) == rows
    ensures KeysOf(WithMarks(msgs, rows), rows) == KeysOf(msgs, rows)
    ensures WithMarks(msgs, rows) - rows == msgs - rows
  {
    var marked := WithMarks(msgs, rows);
    assert forall p :: p in rows ==> marked[p].key == msgs[p].key;
  }

  /** The messages after a move: the chosen ones are gone, the others stay, the copies are there. */
  ghost predicate IsMoveOf(after: map<RowId, Msg>, before: map<RowId, Msg>, rows: set<RowId>, src: MboxId,
                           list: seq<nat>, dest: MboxId, base: nat) {
    && (forall p :: p in after <==> (p in before && p !in rows) || (p.0 == dest && base <= p.1 < base + |list|))
    && (forall p :: p in before && p !in rows ==> after[p] == before[p])
    && (forall i :: 0 <= i < |list| ==>
          (src, list[i]) in before && after[(dest, base + i)] == Copy(before[(src, list[i])]))
  }

  /** The copies that a move makes are like their sources: only the marks are not taken over. */
  lemma MovedAlike(after: map<RowId, Msg>, before: map<RowId, Msg>, rows: set<RowId>, src: MboxId, list: seq<nat>,
                   dest: MboxId, base: nat)
    requires IsMoveOf(after, before, rows, src, list, dest, base)
    ensures AllAlike(after, before, src, list, dest, base)
  {
  }

  /** Deleting the marked rows leaves the others and the copies. */
  lemma DeleteMarked(before: map<RowId, Msg>, rows: set<RowId>, src: MboxId, list: seq<nat>, dest: MboxId, base: nat,
                     copied: map<RowId, Msg>)
    requires forall p :: p in before ==> !before[p].mark
    requires rows <= before.Keys && FreeFrom(before, dest, base)
    requires forall p :: p in rows ==> p.0 == src
    requires IsCopyOf(copied, WithMarks(before, rows), src, list, dest, base)
    ensures Marked(copied) == rows && InMbox(copied, src) * Marked(copied) == rows
    ensures IsMoveOf(copied - rows, before, rows, src, list, dest, base)
  {
    var marked := WithMarks(before, rows);
    forall p | p in copied ensures copied[p].mark <==> p in rows {
      if p !in before {
        var i := p.1 - base;
        assert p == (dest, base + i);
        assert copied[(dest, base + i)] == Copy(marked[(src, list[i])]);
      }
    }
    assert Marked(copied) == rows;
    forall i | 0 <= i < |list|
      ensures (src, list[i]) in before && copied[(dest, base + i)] == Copy(before[(src, list[i])])
    {
      assert copied[(dest, base + i)] == Copy(marked[(src, list[i])]);
    }
  }

  lemma CountersFollow(t: Tables, tx: Tables, n: nat, src: MboxId, dest: MboxId)
    requires tx.mboxes == t.mboxes && src in t.mboxes && dest in t.mboxes
    ensures IncreaseMsgCount(DecreaseMsgCount(tx, n, src), n, n, dest).mboxes
            == IncreaseMsgCount(DecreaseMsgCount(t, n, src), n, n, dest).mboxes
    ensures IncreaseMsgCount(tx, n, n, dest).mboxes == IncreaseMsgCount(t, n, n, dest).mboxes
    ensures DecreaseMsgCount(tx, n, src).mboxes[dest].uidnext == t.mboxes[dest].uidnext
  {
  }

  // ---- The operations ----

  class Store {
    var tables: Tables
    var blobs: set<Key>
    const postgres: bool

    /**
     The next UID: the old value of uidnext, which with the counter goes up by one. PostgreSQL
     returns it from the UPDATE, the others read it first; the outcome is the same.
     */
    method IncrementMsgCounters(tx: Tables, m: MboxId) returns (tx': Tables, uid: nat)
      requires m in tx.mboxes
      ensures uid == tx.mboxes[m].uidnext && tx' == IncreaseMsgCount(tx, 1, 1, m)
    {
      if postgres {
        tx' := IncreaseMsgCount(tx, 1, 1, m);
        uid := tx'.mboxes[m].uidnext - 1;
        return;
      }
      uid := tx.mboxes[m].uidnext;
      tx' := IncreaseMsgCount(tx, 1, 1, m);
    }

    /** Appends a message: \Recent is never kept among its flags, \Seen is noted beside them. */
    method CreateMessage(m: MboxId, flags: seq<string>, key: Key, data: nat, storeRecent: bool) returns (uid: nat)
      requires m in tables.mboxes && key !in tables.extKeys && key !in blobs
      modifies this
      ensures uid == old(tables).mboxes[m].uidnext
      ensures var kept := (set f | f in flags) - {RECENT};
              tables == Created(old(tables), Incoming(m, key, kept, SEEN in flags, storeRecent, data))
      ensures tables.msgs.Keys == old(tables).msgs.Keys + {(m, uid)}
      ensures Placed(old(tables)) ==> (m, uid) !in old(tables).msgs
      ensures var row := tables.msgs[(m, uid)];
              && row.key == key && row.data == data && row.recent == storeRecent && !row.mark
              && (forall f :: f in row.flags <==> f in flags && f != "\\Recent") && (row.seen <==> "\\Seen" in flags)
      ensures forall p :: p in old(tables).msgs && p != (m, uid) ==> tables.msgs[p] == old(tables).msgs[p]
      ensures var mb := old(tables).mboxes[m];
              && tables.mboxes == old(tables).mboxes[m := Mbox(mb.user, uid + 1, mb.msgsCount + 1)]
              && tables.extKeys == old(tables).extKeys[key := ExtKey(mb.user, 1)]
      ensures blobs == old(blobs) + {key}
    {
      var newFlags: set<string> := {};
      var haveSeen := false;
      for i := 0 to |flags|
        invariant newFlags == (set f | f in flags[..i]) - {RECENT}
        invariant haveSeen <==> SEEN in flags[..i]
      {
        assert flags[..i + 1] == flags[..i] + [flags[i]];
        if flags[i] == RECENT {
          continue;
        }
        if flags[i] == SEEN {
          haveSeen := true;
        }
        newFlags := newFlags + {flags[i]};
      }
      assert flags[..|flags|] == flags;
      var tx;
      tx, uid := IncrementMsgCounters(tables, m);
      blobs := blobs + {key};
      tx := AddExtKey(tx, key, tables.mboxes[m].user);
      tx := AddMsg(tx, (m, uid), Msg(key, newFlags, haveSeen, false, storeRecent, data));
      tables := tx;
    }

    /** copyMsgsUid and copyMsgFlagsUid for one span, numbering from `base`. */
    static method CopySpan(msgs: map<RowId, Msg>, dest: MboxId, base: nat, src: MboxId, s: Span)
      returns (after: map<RowId, Msg>, affected: nat)
      requires FreeFrom(msgs, dest, base) && (src != dest || s.stop < base)
      ensures affected == |Selection(msgs, src, s)|
      ensures IsCopyOf(after, msgs, src, Selection(msgs, src, s), dest, base)
    {
      var list := ListAscending(UidsOf(Between(msgs, src, s)));
      SelectionPresent(msgs, src, s);
      var bare := WithCopies(msgs, src, list, dest, base);
      CopyForm(msgs, src, list, dest, base, bare);
      SameBetween(bare, msgs, src, s);
      var again := ListAscending(UidsOf(Between(bare, src, s)));
      after := WithFlags(bare, src, again, dest, base);
      affected := |list|;
    }

    /** The copying loop, with or without counting the new references. */
    static method CopySpans(t: Tables, src: MboxId, dest: MboxId, spans: seq<Span>, countRefs: bool)
      returns (tx: Tables, total: nat)
      requires src in t.mboxes && dest in t.mboxes && FreeFrom(t.msgs, dest, t.mboxes[dest].uidnext)
      requires Clear(src, dest, spans, t.mboxes[dest].uidnext)
      ensures tx.mboxes == t.mboxes && total == |Chosen(t.msgs, src, spans)|
      ensures CopiedSoFar(t.msgs, tx.msgs, src, dest, t.mboxes[dest].uidnext, spans)
      ensures if countRefs then RefsCounted(t, tx, src, spans) else tx.extKeys == t.extKeys
    {
      tx, total := t, 0;
      var base := t.mboxes[dest].uidnext;
      ghost var done: seq<Span> := [];
      for i := 0 to |spans|
        invariant done == spans[..i] && tx.mboxes == t.mboxes
        invariant CopiedSoFar(t.msgs, tx.msgs, src, dest, base, done) && total == |Chosen(t.msgs, src, done)|
        invariant if countRefs then RefsCounted(t, tx, src, done) else tx.extKeys == t.extKeys
      {
        ghost var next := done + [spans[i]];
        assert next == spans[..i + 1];
        CopyKeepsSource(tx.msgs, t.msgs, src, Chosen(t.msgs, src, done), dest, base, spans[i]);
        var from := tx.mboxes[dest].uidnext + total;
        var after, affected := CopySpan(tx.msgs, dest, from, src, spans[i]);
        CopyRound(t.msgs, tx.msgs, after, src, dest, base, from, done, spans[i]);
        tx := tx.(msgs := after);
        total := total + affected;
        if countRefs {
          CountSpan(t, tx, src, done, spans[i]);
          tx := IncrementRefUid(tx, t.mboxes[src].user, src, spans[i]);
        }
        done := next;
      }
      assert done == spans;
    }

    /** COPY. Without such a mailbox nothing changes; otherwise the announced range is that of the copies. */
    method CopyMessages(src: MboxId, target: Option<MboxId>, spans: seq<Span>) returns (ok: bool, first: nat, last: int)
      requires Placed(tables) && src in tables.mboxes
      requires target.Some? ==> target.value in tables.mboxes
      requires target.Some? ==> Clear(src, target.value, spans, tables.mboxes[target.value].uidnext)
      modifies this`tables
      ensures ok <==> target.Some?
      ensures !ok ==> tables == old(tables)
      ensures ok ==> Copied(old(tables), tables, src, target.value, spans)
      ensures ok ==>
                first == old(tables).mboxes[target.value].uidnext && last + 1 == tables.mboxes[target.value].uidnext
      ensures ok ==> AllAlike(tables.msgs, old(tables).msgs, src, Chosen(old(tables).msgs, src, spans), target.value,
                              first)
    {
      if target.None? {
        return false, 0, 0;
      }
      var dest := target.value;
      var tx, totalCopied := CopySpans(tables, src, dest, spans, true);
      CountersFollow(tables, tx, totalCopied, src, dest);
      first := tx.mboxes[dest].uidnext;
      tx := IncreaseMsgCount(tx, totalCopied, totalCopied, dest);
      last := first + totalCopied - 1;
      CopiedAlike(tx.msgs, tables.msgs, src, Chosen(tables.msgs, src, spans), dest, first);
      tables := tx;
      ok := true;
    }

    static method MarkSpans(t: Tables, m: MboxId, spans: seq<Span>) returns (tx: Tables)
      ensures tx == t.(msgs := WithMarks(t.msgs, ChosenRows(t.msgs, m, spans)))
    {
      tx := t;
      assert WithMarks(t.msgs, {}) == t.msgs;
      for i := 0 to |spans|
        invariant tx == t.(msgs := WithMarks(t.msgs, ChosenRows(t.msgs, m, spans[..i])))
      {
        assert spans[..i + 1][..i] == spans[..i];
        MarkAgain(t, tx, ChosenRows(t.msgs, m, spans[..i]), m, spans[i]);
        tx := MarkUid(tx, m, spans[i]);
      }
      assert spans[..|spans|] == spans;
    }

    /**
     MOVE: mark, copy without counting references (there are as many messages as before), delete what
     is marked. The UIDs that went are announced to the sessions of the source.
     */
    method MoveMessages(src: MboxId, target: Option<MboxId>, spans: seq<Span>)
      returns (ok: bool, removed: seq<nat>, first: nat, last: int)
      requires Placed(tables) && src in tables.mboxes
      requires target.Some? ==> target.value in tables.mboxes
      requires target.Some? ==> Clear(src, target.value, spans, tables.mboxes[target.value].uidnext)
      modifies this`tables
      ensures ok <==> target.Some?
      ensures !ok ==> tables == old(tables)
      ensures ok ==> Moved(old(tables), tables, src, target.value, spans)
      ensures ok ==> removed == Listed(UidsOf(ChosenRows(old(tables).msgs, src, spans)))
      ensures ok ==>
                first == old(tables).mboxes[target.value].uidnext && last + 1 == tables.mboxes[target.value].uidnext
      ensures ok ==> AllAlike(tables.msgs, old(tables).msgs, src, Chosen(old(tables).msgs, src, spans), target.value,
                              first)
    {
      var marked := MarkSpans(tables, src, spans);
      if target.None? {
        return false, [], 0, 0;
      }
      var dest := target.value;
      ghost var rows, list := ChosenRows(tables.msgs, src, spans), Chosen(tables.msgs, src, spans);
      ghost var base := tables.mboxes[dest].uidnext;
      MarksKeepRows(tables.msgs, rows, src, spans);
      var tx, copiedCount := CopySpans(marked, src, dest, spans, false);
      DeleteMarked(tables.msgs, rows, src, list, dest, base, tx.msgs);
      removed := ListAscending(UidsOf(InMbox(tx.msgs, src) * Marked(tx.msgs)));
      tx := DelMarked(tx);
      assert IsMoveOf(tx.msgs, tables.msgs, rows, src, list, dest, base);
      CountersFollow(tables, tx, copiedCount, src, dest);
      tx := DecreaseMsgCount(tx, copiedCount, src);
      first := tx.mboxes[dest].uidnext;
      tx := IncreaseMsgCount(tx, copiedCount, copiedCount, dest);
      last := first + copiedCount - 1;
      MovedAlike(tx.msgs, tables.msgs, rows, src, list, dest, first);
      tables := tx;
      ok := true;
    }

    /** Deletes messages with their bodies, without looking at reference counts. */
    method DelMessages(m: MboxId, spans: seq<Span>) returns (removed: set<nat>)
      requires Placed(tables) && m in tables.mboxes
      modifies this
      ensures Deleted(old(tables), tables, m, spans)
      ensures removed == UidsOf(ChosenRows(old(tables).msgs, m, spans))
      ensures ChosenRows(old(tables).msgs, m, spans) <= old(tables).msgs.Keys
      ensures blobs == old(blobs) - KeysOf(old(tables).msgs, ChosenRows(old(tables).msgs, m, spans))
    {
      ghost var rows := ChosenRows(tables.msgs, m, spans);
      ChosenRowsIn(tables.msgs, m, spans);
      MarkedAre(tables.msgs, rows);
      var tx := MarkSpans(tables, m, spans);
      var marked := InMbox(tx.msgs, m) * Marked(tx.msgs);
      assert marked == rows;
      removed := UidsOf(marked);
      blobs := blobs - KeysOf(tx.msgs, marked);
      tx := DelMarked(tx);
      tables := DecreaseMsgCount(tx, |marked|, m);
    }

    /**
     EXPUNGE: the messages flagged \Deleted go, and the bodies whose count came to zero. When the
     database refuses the last statement, nothing happens at all.
     */
    method Expunge(m: MboxId) returns (ok: bool, removed: set<nat>)
      requires m in tables.mboxes
      modifies this
      ensures ok <==> CanExpunge(old(tables), m)
      ensures ok ==> tables == Expunged(old(tables), m) && blobs == old(blobs) - Dropped(old(tables), m)
      ensures ok ==> removed == UidsOf(DeletedIn(old(tables).msgs, m))
      ensures ok ==> forall p :: p in tables.msgs <==>
                p in old(tables).msgs && !(p.0 == m && "\\Deleted" in old(tables).msgs[p].flags)
      ensures ok ==> forall p :: p in tables.msgs ==> tables.msgs[p] == old(tables).msgs[p]
      ensures ok ==> forall u :: u in removed <==>
                (m, u) in old(tables).msgs && "\\Deleted" in old(tables).msgs[(m, u)].flags
      ensures ok ==> var mb := old(tables).mboxes[m];
                     tables.mboxes == old(tables).mboxes[m := Mbox(mb.user, mb.uidnext, mb.msgsCount - |removed|)]
      ensures !ok ==> tables == old(tables) && blobs == old(blobs)
    {
      ExpungedRows(tables, m);
      ExpungedCounts(tables, m);
      var user := tables.mboxes[m].user;
      var deleted := DeletedIn(tables.msgs, m);
      removed := UidsOf(deleted);
      var tx := DecreaseRefForDeleted(tables, user, m);
      var keys := ZeroRef(tx, user, m);
      tx := ExpungeMbox(tx, m);
      tx := DecreaseMsgCount(tx, |deleted|, m);
      if Restricted(tx, user) {
        return false, {};
      }
      tx := DeleteZeroRef(tx, user);
      tables := tx;
      blobs := blobs - keys;
      ok := true;
    }
  }

  // ---- Deliveries ----

  /** A delivered message is unseen, and always stored as \Recent. */
  type Delivered = x: Incoming | !x.seen && x.recent witness Incoming(0, 0, {}, false, true, 0)

  /** Messages created one after the other. */
  ghost function AllCreated(t: Tables, xs: seq<Incoming>): (r: Tables)
    requires forall i :: 0 <= i < |xs| ==> xs[i].m in t.mboxes
    ensures r.mboxes.Keys == t.mboxes.Keys
  {
    if xs == [] then t
    else
      var before := AllCreated(t, xs[..|xs| - 1]);
      Created(before, xs[|xs| - 1])
  }

  /** The UIDs they get. */
  ghost function CreatedUids(t: Tables, xs: seq<Incoming>): seq<RowId>
    requires forall i :: 0 <= i < |xs| ==> xs[i].m in t.mboxes
  {
    if xs == [] then []
    else
      var last := xs[|xs| - 1];
      CreatedUids(t, xs[..|xs| - 1]) + [(last.m, AllCreated(t, xs[..|xs| - 1]).mboxes[last.m].uidnext)]
  }

  /** A delivery to several mailboxes: one transaction, notifications only after it committed. */
  class Delivery {
    const b: Store
    var tx: Option<Tables>
    var pendingNotifications: seq<RowId>

    constructor (b: Store)
      ensures this.b == b && tx == None && pendingNotifications == []
    {
      this.b := b;
      tx := None;
      pendingNotifications := [];
    }

    method MboxDelivery(t: Tables, x: Delivered) returns (t': Tables)
      requires x.m in t.mboxes
      modifies this`pendingNotifications, b`blobs
      ensures t' == Created(t, x)
      ensures var row := (x.m, t.mboxes[x.m].uidnext);
              && t'.msgs.Keys == t.msgs.Keys + {row} && (Placed(t) ==> row !in t.msgs)
              && t'.msgs[row].key == x.key && t'.msgs[row].flags == x.flags && t'.msgs[row].data == x.data
              && !t'.msgs[row].seen && !t'.msgs[row].mark && t'.msgs[row].recent
              && forall p :: p in t.msgs && p != row ==> t'.msgs[p] == t.msgs[p]
      ensures var mb := t.mboxes[x.m];
              && t'.mboxes == t.mboxes[x.m := Mbox(mb.user, mb.uidnext + 1, mb.msgsCount + 1)]
              && t'.extKeys == t.extKeys[x.key := ExtKey(mb.user, 1)]
      ensures pendingNotifications == old(pendingNotifications) + [(x.m, t.mboxes[x.m].uidnext)]
      ensures b.blobs == old(b.blobs) + {x.key}
    {
      b.blobs := b.blobs + {x.key};
      t' := AddExtKey(t, x.key, t.mboxes[x.m].user);
      var uid;
      t', uid := b.IncrementMsgCounters(t', x.m);
      pendingNotifications := pendingNotifications + [(x.m, uid)];
      t' := AddMsg(t', (x.m, uid), Msg(x.key, x.flags, false, false, true, x.data));
    }

    /** Writes all bodies and rows into the open transaction; the stored tables stay as they are. */
    method BodyParsed(xs: seq<Delivered>)
      requires tx == None && pendingNotifications == []
      requires forall i :: 0 <= i < |xs| ==> xs[i].m in b.tables.mboxes
      modifies this, b`blobs
      ensures tx == Some(AllCreated(b.tables, xs))
      ensures pendingNotifications == CreatedUids(b.tables, xs)
      ensures b.blobs == old(b.blobs) + set i | 0 <= i < |xs| :: xs[i].key
    {
      var t := b.tables;
      for i := 0 to |xs|
        invariant t == AllCreated(b.tables, xs[..i]) && pendingNotifications == CreatedUids(b.tables, xs[..i])
        invariant b.blobs == old(b.blobs) + set j | 0 <= j < i :: xs[j].key
        invariant tx == None
      {
        assert xs[..i + 1][..i] == xs[..i];
        assert (set j | 0 <= j < i + 1 :: xs[j].key) == (set j | 0 <= j < i :: xs[j].key) + {xs[i].key};
        t := MboxDelivery(t, xs[i]);
      }
      assert xs[..|xs|] == xs;
      tx := Some(t);
    }

    /** All messages appear at once; then, and only then, the sessions are told of exactly those. */
    method Commit() returns (announced: seq<RowId>)
      modifies this, b`tables
      ensures tx == None && pendingNotifications == []
      ensures announced == old(pendingNotifications)
      ensures b.tables == if old(tx).Some? then old(tx).value else old(b.tables)
    {
      if tx.Some? {
        b.tables := tx.value;
      }
      announced := pendingNotifications;
      tx := None;
      pendingNotifications := [];
    }

    /** Nothing of the transaction remains in the tables and nobody is told; bodies already written stay. */
    method Abort()
      modifies this
      ensures tx == None && pendingNotifications == []
    {
      tx := None;
      pendingNotifications := [];
    }
  }
}
