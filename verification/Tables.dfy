/**
 The tables of the mailbox store and what its SQL statements do to them
 (internal/go-imap-sql/sql.go). A row of `flags` lives and dies with its message, so the flags
 of a message are kept with it; `data` stands for the columns that are only copied.
 */
module Tables {
  import opened Uids

  type UserId = nat
  type MboxId = nat
  type Key = nat
  type RowId = (MboxId, nat)   // PRIMARY KEY(mboxId, msgId)

  const DELETED := "\\Deleted"
  const SEEN := "\\Seen"
  const RECENT := "\\Recent"

  datatype Msg = Msg(key: Key, flags: set<string>, seen: bool, mark: bool, recent: bool, data: nat)
  datatype Mbox = Mbox(user: UserId, uidnext: nat, msgsCount: int)
  datatype ExtKey = ExtKey(user: UserId, refs: int)
  datatype Tables = Tables(mboxes: map<MboxId, Mbox>, msgs: map<RowId, Msg>, extKeys: map<Key, ExtKey>)

  datatype Span = Span(start: nat, stop: nat)

  // ---- Selections ----

  /** WHERE mboxId = m AND msgId BETWEEN start AND stop */
  function Between(msgs: map<RowId, Msg>, m: MboxId, s: Span): set<RowId> {
    set p | p in msgs && p.0 == m && s.start <= p.1 <= s.stop
  }

  function InMbox(msgs: map<RowId, Msg>, m: MboxId): set<RowId> {
    set p | p in msgs && p.0 == m
  }

  function DeletedIn(msgs: map<RowId, Msg>, m: MboxId): set<RowId> {
    set p | p in msgs && p.0 == m && DELETED in msgs[p].flags
  }

  function Marked(msgs: map<RowId, Msg>): set<RowId> {
    set p | p in msgs && msgs[p].mark
  }

  function KeysOf(msgs: map<RowId, Msg>, ps: set<RowId>): set<Key>
    requires ps <= msgs.Keys
  {
    set p | p in ps :: msgs[p].key
  }

  function UidsOf(ps: set<RowId>): set<nat> {
    set p | p in ps :: p.1
  }

  // ---- Statements ----

  function IncreaseMsgCount(t: Tables, uids: nat, msgs: nat, m: MboxId): Tables
    requires m in t.mboxes
  {
    var mb := t.mboxes[m];
    t.(mboxes := t.mboxes[m := mb.(uidnext := mb.uidnext + uids, msgsCount := mb.msgsCount + msgs)])
  }

  function DecreaseMsgCount(t: Tables, msgs: nat, m: MboxId): Tables
    requires m in t.mboxes
  {
    var mb := t.mboxes[m];
    t.(mboxes := t.mboxes[m := mb.(msgsCount := mb.msgsCount - msgs)])
  }

  /** The rows selected for a copy, in the order of `row_number() OVER (ORDER BY msgId)`. */
  ghost function Selection(msgs: map<RowId, Msg>, src: MboxId, s: Span): seq<nat> {
    Listed(UidsOf(Between(msgs, src, s)))
  }

  predicate Present(msgs: map<RowId, Msg>, src: MboxId, list: seq<nat>) {
    forall i :: 0 <= i < |list| ==> (src, list[i]) in msgs
  }

  lemma SelectionPresent(msgs: map<RowId, Msg>, src: MboxId, s: Span)
    ensures Present(msgs, src, Selection(msgs, src, s))
    ensures Ascending(Selection(msgs, src, s))
    ensures forall u :: u in Selection(msgs, src, s) <==> (src, u) in Between(msgs, src, s)
  {
    var list := Selection(msgs, src, s);
    forall u ensures u in list <==> (src, u) in Between(msgs, src, s) {
      assert u in list <==> u in Elements(list);
      if (src, u) in Between(msgs, src, s) { assert (src, u).1 in UidsOf(Between(msgs, src, s)); }
    }
  }

  /** The numbers base, base + 1, ... as row identities. */
  function Slots(dest: MboxId, base: nat, count: nat): set<RowId> {
    set n: nat | base <= n < base + count :: (dest, n)
  }

  function Source(msgs: map<RowId, Msg>, src: MboxId, list: seq<nat>, base: nat, p: RowId): Msg
    requires Present(msgs, src, list) && base <= p.1 < base + |list|
  {
    msgs[(src, list[p.1 - base])]
  }

  /** copyMsgsUid: row number k of the selection becomes message uidnext - 1 + k + offset. */
  function WithCopies(msgs: map<RowId, Msg>, src: MboxId, list: seq<nat>, dest: MboxId, base: nat): map<RowId, Msg>
    requires Present(msgs, src, list)
  {
    msgs + map p | p in Slots(dest, base, |list|) ::
             Source(msgs, src, list, base, p).(mark := false, recent := false, flags := {})
  }

  /** copyMsgFlagsUid: the same numbering, joined with the flags of the selected rows. */
  function WithFlags(msgs: map<RowId, Msg>, src: MboxId, list: seq<nat>, dest: MboxId, base: nat): map<RowId, Msg>
    requires Present(msgs, src, list)
  {
    map p | p in msgs ::
      if p.0 == dest && base <= p.1 < base + |list|
      then msgs[p].(flags := msgs[p].flags + Source(msgs, src, list, base, p).flags) else msgs[p]
  }

  function AdjustRefs(t: Tables, user: UserId, keys: set<Key>, delta: int): Tables {
    t.(extKeys := map k | k in t.extKeys ::
         if t.extKeys[k].user == user && k in keys then t.extKeys[k].(refs := t.extKeys[k].refs + delta)
         else t.extKeys[k])
  }

  /** incrementRefUid adds one per key in the range, however many messages share the key. */
  function IncrementRefUid(t: Tables, user: UserId, src: MboxId, s: Span): Tables {
    AdjustRefs(t, user, KeysOf(t.msgs, Between(t.msgs, src, s)), 1)
  }

  function DecreaseRefForDeleted(t: Tables, user: UserId, m: MboxId): Tables {
    AdjustRefs(t, user, KeysOf(t.msgs, DeletedIn(t.msgs, m)), -1)
  }

  /** zeroRef: keys of messages in the mailbox whose count has come to zero. */
  function ZeroRef(t: Tables, user: UserId, m: MboxId): set<Key> {
    set k | k in KeysOf(t.msgs, InMbox(t.msgs, m)) && k in t.extKeys
            && t.extKeys[k].user == user && t.extKeys[k].refs == 0
  }

  function DeleteZeroRef(t: Tables, user: UserId): Tables {
    t.(extKeys := map k | k in t.extKeys && !(t.extKeys[k].user == user && t.extKeys[k].refs == 0) :: t.extKeys[k])
  }

  /** extBodyKey REFERENCES extKeys(id) ON DELETE RESTRICT */
  predicate Restricted(t: Tables, user: UserId) {
    exists p :: p in t.msgs && t.msgs[p].key in t.extKeys
                && t.extKeys[t.msgs[p].key].user == user && t.extKeys[t.msgs[p].key].refs == 0
  }

  function ExpungeMbox(t: Tables, m: MboxId): Tables {
    t.(msgs := t.msgs - DeletedIn(t.msgs, m))
  }

  function MarkUid(t: Tables, m: MboxId, s: Span): Tables {
    t.(msgs := map p | p in t.msgs ::
         if p.0 == m && s.start <= p.1 <= s.stop then t.msgs[p].(mark := true) else t.msgs[p])
  }

  /** delMarked deletes every marked row, in whatever mailbox. */
  function DelMarked(t: Tables): Tables {
    t.(msgs := t.msgs - Marked(t.msgs))
  }

  function AddExtKey(t: Tables, k: Key, user: UserId): Tables {
    t.(extKeys := t.extKeys[k := ExtKey(user, 1)])
  }

  function AddMsg(t: Tables, p: RowId, msg: Msg): Tables {
    t.(msgs := t.msgs[p := msg])
  }

  // ---- What the tables keep ----

  /** The UID below uidnext, no mark left behind, the body key on record for the owner. */
  ghost predicate GoodRow(mboxes: map<MboxId, Mbox>, extKeys: map<Key, ExtKey>, p: RowId, msg: Msg) {
    && p.0 in mboxes && 0 < p.1 < mboxes[p.0].uidnext && !msg.mark
    && msg.key in extKeys && extKeys[msg.key].user == mboxes[p.0].user
  }

  /** Every message in its place: what holds of all rows, and UIDs from one on. */
  ghost predicate Placed(t: Tables) {
    && (forall p :: p in t.msgs ==> GoodRow(t.mboxes, t.extKeys, p, t.msgs[p]))
    && forall m :: m in t.mboxes ==> t.mboxes[m].uidnext > 0
  }

  /** The message counter is right. */
  ghost predicate CountRight(msgs: map<RowId, Msg>, m: MboxId, mb: Mbox) {
    mb.msgsCount == |InMbox(msgs, m)|
  }

  ghost predicate Counted(t: Tables) {
    forall m :: m in t.mboxes ==> CountRight(t.msgs, m, t.mboxes[m])
  }

  ghost predicate Good(t: Tables) {
    Placed(t) && Counted(t)
  }

  /** The messages that use a body key. */
  ghost function Holders(msgs: map<RowId, Msg>, k: Key): set<RowId> {
    set p | p in msgs && msgs[p].key == k
  }

  /** No two of these messages share a body key. */
  ghost predicate NoKeyTwice(msgs: map<RowId, Msg>, ps: set<RowId>)
    requires ps <= msgs.Keys
  {
    forall p, q :: p in ps && q in ps && p != q ==> msgs[p].key != msgs[q].key
  }

  // ---- The closed form of a copy ----

  function Copy(msg: Msg): Msg {
    msg.(mark := false, recent := false)
  }

  /** Consecutive new numbers, in the order of the list, each with its source's key, flags and data. */
  ghost predicate IsCopyOf(after: map<RowId, Msg>, before: map<RowId, Msg>, src: MboxId, list: seq<nat>, dest: MboxId,
                           base: nat) {
    && (forall p :: p in after <==> p in before || (p.0 == dest && base <= p.1 < base + |list|))
    && (forall p :: p in before ==> after[p] == before[p])
    && forall i :: 0 <= i < |list| ==>
         (src, list[i]) in before && after[(dest, base + i)] == Copy(before[(src, list[i])])
  }

  ghost predicate FreeFrom(msgs: map<RowId, Msg>, dest: MboxId, base: nat) {
    forall p :: p in msgs && p.0 == dest ==> p.1 < base
  }

  /** Message number i of the list is there anew, as base + i, with key, flags, \Seen and the rest, but no mark. */
  ghost predicate AllAlike(after: map<RowId, Msg>, before: map<RowId, Msg>, src: MboxId, list: seq<nat>, dest: MboxId,
                           base: nat) {
    forall i :: 0 <= i < |list| ==>
      && (src, list[i]) in before && (dest, base + i) in after
      && after[(dest, base + i)].key == before[(src, list[i])].key
      && after[(dest, base + i)].flags == before[(src, list[i])].flags
      && after[(dest, base + i)].seen == before[(src, list[i])].seen
      && after[(dest, base + i)].data == before[(src, list[i])].data
      && !after[(dest, base + i)].mark && !after[(dest, base + i)].recent
  }

  lemma CopiedAlike(after: map<RowId, Msg>, before: map<RowId, Msg>, src: MboxId, list: seq<nat>, dest: MboxId,
                    base: nat)
    requires IsCopyOf(after, before, src, list, dest, base)
    ensures AllAlike(after, before, src, list, dest, base)
  {
  }

  lemma CopyForm(msgs: map<RowId, Msg>, src: MboxId, list: seq<nat>, dest: MboxId, base: nat, bare: map<RowId, Msg>)
    requires Present(msgs, src, list) && FreeFrom(msgs, dest, base)
    requires bare == WithCopies(msgs, src, list, dest, base)
    ensures Present(bare, src, list) && IsCopyOf(WithFlags(bare, src, list, dest, base), msgs, src, list, dest, base)
    ensures AllAlike(WithFlags(bare, src, list, dest, base), msgs, src, list, dest, base)
  {
    assert forall p :: p in bare <==> p in msgs || (p.0 == dest && base <= p.1 < base + |list|);
    assert forall p :: p in msgs ==> bare[p] == msgs[p];
    var full := WithFlags(bare, src, list, dest, base);
    forall i | 0 <= i < |list| ensures full[(dest, base + i)] == Copy(msgs[(src, list[i])]) {
      var p := (dest, base + i);
      assert p in Slots(dest, base, |list|);
      assert bare[p] == Source(msgs, src, list, base, p).(mark := false, recent := false, flags := {});
      assert Source(bare, src, list, base, p) == msgs[(src, list[i])];
    }
    CopiedAlike(full, msgs, src, list, dest, base);
  }
}
