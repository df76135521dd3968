/**
 Reference counts and message bodies over runs of the mailbox store. The counting statements
 change a key's count by one however many of the selected messages carry it, so counts stay exact
 precisely as long as no statement selects one key twice.
 */
module Bodies {
  import opened Uids
  import opened T = Tables
  import opened S = Store
  import opened R = StoreRuns

  /** The count of a key is the number of messages using it, and there is one. */
  ghost predicate ExactKey(extKeys: map<Key, ExtKey>, msgs: map<RowId, Msg>, k: Key)
    requires k in extKeys
  {
    extKeys[k].refs == |Holders(msgs, k)| > 0
  }

  ghost predicate AllExact(extKeys: map<Key, ExtKey>, msgs: map<RowId, Msg>) {
    forall k :: k in extKeys ==> ExactKey(extKeys, msgs, k)
  }

  /** Exact counts, and the blob store holds exactly the bodies in use. */
  ghost predicate Tidy(s: State) {
    && Good(s.t) && s.blobs == s.t.extKeys.Keys
    && AllExact(s.t.extKeys, s.t.msgs)
  }

  /** Nothing selects one body key twice, moves one message twice, or deletes past the counts. */
  ghost predicate Single(s: State, step: Step) {
    match step
    case CopyTo(src, _, spans) => SingleSpans(s.t.msgs, src, spans)
    case MoveTo(src, _, spans) => Apart(s.t.msgs, src, spans)
    case Expunge(m) => NoKeyTwice(s.t.msgs, DeletedIn(s.t.msgs, m))
    case Delete(m, spans) => ChosenRows(s.t.msgs, m, spans) == {}
    case _ => true
  }

  ghost predicate SingleSpans(msgs: map<RowId, Msg>, src: MboxId, spans: seq<Span>) {
    forall i :: 0 <= i < |spans| ==> NoKeyTwice(msgs, Between(msgs, src, spans[i]))
  }

  // ---- Counting holders ----

  lemma AtMostOne(msgs: map<RowId, Msg>, k: Key, ps: set<RowId>)
    requires ps <= msgs.Keys && NoKeyTwice(msgs, ps)
    ensures |Holders(msgs, k) * ps| == if k in KeysOf(msgs, ps) then 1 else 0
  {
    if k in KeysOf(msgs, ps) {
      var p :| p in ps && msgs[p].key == k;
      assert Holders(msgs, k) * ps == {p};
    } else {
      assert Holders(msgs, k) * ps == {};
    }
  }

  lemma AtLeastOne(msgs: map<RowId, Msg>, k: Key, ps: set<RowId>)
    requires ps <= msgs.Keys
    ensures k in KeysOf(msgs, ps) <==> |Holders(msgs, k) * ps| >= 1
  {
    if k in KeysOf(msgs, ps) {
      var p :| p in ps && msgs[p].key == k;
      assert p in Holders(msgs, k) * ps;
    } else {
      assert Holders(msgs, k) * ps == {};
    }
  }

  lemma TwoHolders(msgs: map<RowId, Msg>, ps: set<RowId>, p: RowId, q: RowId)
    requires ps <= msgs.Keys && p in ps && q in ps && p != q && msgs[p].key == msgs[q].key
    ensures |Holders(msgs, msgs[p].key) * ps| >= 2
  {
    var both := Holders(msgs, msgs[p].key) * ps;
    assert {p, q} <= both;
    assert both == {p, q} + (both - {p, q});
  }

  ghost predicate HasKey(msgs: map<RowId, Msg>, p: RowId, k: Key) {
    p in msgs && msgs[p].key == k
  }

  /** How often a list of messages of `src` carries a key. */
  ghost function Count(msgs: map<RowId, Msg>, src: MboxId, list: seq<nat>, k: Key): nat {
    if list == [] then 0
    else Count(msgs, src, list[..|list| - 1], k) + if HasKey(msgs, (src, list[|list| - 1]), k) then 1 else 0
  }

  lemma {:induction false} CountConcat(msgs: map<RowId, Msg>, src: MboxId, a: seq<nat>, b: seq<nat>, k: Key)
    ensures Count(msgs, src, a + b, k) == Count(msgs, src, a, k) + Count(msgs, src, b, k)
    decreases |b|
  {
    if b == [] {
      assert a + b == a;
    } else {
      assert (a + b)[..|a + b| - 1] == a + b[..|b| - 1];
      CountConcat(msgs, src, a, b[..|b| - 1], k);
    }
  }

  /** The copies that carry a key. */
  ghost function NewHolders(msgs: map<RowId, Msg>, src: MboxId, list: seq<nat>, dest: MboxId, base: nat,
                            k: Key): set<RowId> {
    set i | 0 <= i < |list| && HasKey(msgs, (src, list[i]), k) :: (dest, base + i)
  }

  lemma {:induction false} NewHoldersCount(msgs: map<RowId, Msg>, src: MboxId, list: seq<nat>, dest: MboxId, base: nat,
                                           k: Key)
    ensures |NewHolders(msgs, src, list, dest, base, k)| == Count(msgs, src, list, k)
    decreases |list|
  {
    if list == [] {
    } else {
      var n := |list| - 1;
      var front, q := NewHolders(msgs, src, list[..n], dest, base, k), (dest, base + n);
      NewHoldersCount(msgs, src, list[..n], dest, base, k);
      if HasKey(msgs, (src, list[n]), k) {
        assert NewHolders(msgs, src, list, dest, base, k) == front + {q};
      } else {
        assert NewHolders(msgs, src, list, dest, base, k) == front;
      }
    }
  }

  ghost function RowsOf(src: MboxId, list: seq<nat>): set<RowId> {
    set i | 0 <= i < |list| :: (src, list[i])
  }

  lemma LastRow(src: MboxId, list: seq<nat>, n: nat)
    requires Ascending(list) && |list| == n + 1
    ensures RowsOf(src, list) == RowsOf(src, list[..n]) + {(src, list[n])}
    ensures (src, list[n]) !in RowsOf(src, list[..n])
  {
  }

  lemma HoldersPlus(holders: set<RowId>, rows: set<RowId>, p: RowId)
    requires p !in rows
    ensures |holders * (rows + {p})| == |holders * rows| + if p in holders then 1 else 0
  {
    if p in holders {
      assert holders * (rows + {p}) == holders * rows + {p};
    } else {
      assert holders * (rows + {p}) == holders * rows;
    }
  }

  lemma {:induction false} CountRows(msgs: map<RowId, Msg>, src: MboxId, list: seq<nat>, k: Key)
    requires Ascending(list)
    ensures Count(msgs, src, list, k) == |Holders(msgs, k) * RowsOf(src, list)|
    decreases |list|
  {
    if list == [] {
      assert Holders(msgs, k) * RowsOf(src, list) == {};
    } else {
      var n := |list| - 1;
      CountRows(msgs, src, list[..n], k);
      LastRow(src, list, n);
      HoldersPlus(Holders(msgs, k), RowsOf(src, list[..n]), (src, list[n]));
    }
  }

  lemma {:induction false} CountListed(msgs: map<RowId, Msg>, src: MboxId, rows: set<RowId>, k: Key)
    requires rows <= InMbox(msgs, src)
    ensures Count(msgs, src, Listed(UidsOf(rows)), k) == |Holders(msgs, k) * rows|
  {
    var list := Listed(UidsOf(rows));
    CountRows(msgs, src, list, k);
    assert RowsOf(src, list) == rows by {
      forall p | p in rows ensures p in RowsOf(src, list) {
        assert p.1 in Elements(list);
        var i :| 0 <= i < |list| && list[i] == p.1;
        assert p == (src, list[i]);
      }
      forall i | 0 <= i < |list| ensures (src, list[i]) in rows {
        assert list[i] in UidsOf(rows);
      }
    }
  }

  /** How often the selection of a copy carries a key. */
  ghost function Shares(msgs: map<RowId, Msg>, src: MboxId, spans: seq<Span>, k: Key): nat {
    if spans == [] then 0
    else Shares(msgs, src, spans[..|spans| - 1], k) + |Holders(msgs, k) * Between(msgs, src, spans[|spans| - 1])|
  }

  lemma {:induction false} CountChosen(msgs: map<RowId, Msg>, src: MboxId, spans: seq<Span>, k: Key)
    ensures Count(msgs, src, Chosen(msgs, src, spans), k) == Shares(msgs, src, spans, k)
    decreases |spans|
  {
    if spans == [] {
    } else {
      var front, s := spans[..|spans| - 1], spans[|spans| - 1];
      CountChosen(msgs, src, front, k);
      CountListed(msgs, src, Between(msgs, src, s), k);
      CountConcat(msgs, src, Chosen(msgs, src, front), Selection(msgs, src, s), k);
    }
  }

  /** Ranges that share no message carry a key as often as there are chosen messages with it. */
  lemma {:induction false} SharesApart(msgs: map<RowId, Msg>, src: MboxId, spans: seq<Span>, k: Key)
    requires Apart(msgs, src, spans)
    ensures Shares(msgs, src, spans, k) == |Holders(msgs, k) * ChosenRows(msgs, src, spans)|
    decreases |spans|
  {
    if spans == [] {
      assert Holders(msgs, k) * ChosenRows(msgs, src, spans) == {};
    } else {
      var n := |spans| - 1;
      ApartLast(msgs, src, spans, n);
      SharesApart(msgs, src, spans[..n], k);
      MeetUnion(Holders(msgs, k), ChosenRows(msgs, src, spans[..n]), Between(msgs, src, spans[n]));
    }
  }

  lemma MeetUnion(holders: set<RowId>, a: set<RowId>, b: set<RowId>)
    requires a !! b
    ensures |holders * (a + b)| == |holders * a| + |holders * b|
  {
    assert holders * (a + b) == holders * a + holders * b;
  }

  /** What is counted never exceeds what is copied. */
  lemma {:induction false} HitsBelow(msgs: map<RowId, Msg>, src: MboxId, spans: seq<Span>, k: Key)
    ensures Hits(msgs, src, spans, k) <= Shares(msgs, src, spans, k)
    ensures SingleSpans(msgs, src, spans) ==> Hits(msgs, src, spans, k) == Shares(msgs, src, spans, k)
    decreases |spans|
  {
    if spans == [] {
    } else {
      var front, ps := spans[..|spans| - 1], Between(msgs, src, spans[|spans| - 1]);
      HitsBelow(msgs, src, front, k);
      AtLeastOne(msgs, k, ps);
      if SingleSpans(msgs, src, spans) {
        assert SingleSpans(msgs, src, front);
        AtMostOne(msgs, k, ps);
      }
    }
  }

  lemma {:induction false} HitsMiss(msgs: map<RowId, Msg>, src: MboxId, spans: seq<Span>, i: nat, p: RowId, q: RowId)
    requires i < |spans| && p in Between(msgs, src, spans[i]) && q in Between(msgs, src, spans[i])
    requires p != q && msgs[p].key == msgs[q].key
    ensures Hits(msgs, src, spans, msgs[p].key) < Shares(msgs, src, spans, msgs[p].key)
    decreases |spans|
  {
    var n := |spans| - 1;
    var front, last := spans[..n], spans[n];
    assert spans == front + [last];
    if i == n {
      LastMiss(msgs, src, front, last, p, q);
    } else {
      assert front[i] == spans[i];
      HitsMiss(msgs, src, front, i, p, q);
      MissBefore(msgs, src, front, last, msgs[p].key);
    }
  }

  lemma {:induction false} MissBefore(msgs: map<RowId, Msg>, src: MboxId, front: seq<Span>, s: Span, k: Key)
    requires Hits(msgs, src, front, k) < Shares(msgs, src, front, k)
    ensures Hits(msgs, src, front + [s], k) < Shares(msgs, src, front + [s], k)
  {
    assert (front + [s])[..|front|] == front;
    AtLeastOne(msgs, k, Between(msgs, src, s));
  }

  lemma {:induction false} LastMiss(msgs: map<RowId, Msg>, src: MboxId, front: seq<Span>, s: Span, p: RowId, q: RowId)
    requires p in Between(msgs, src, s) && q in Between(msgs, src, s) && p != q && msgs[p].key == msgs[q].key
    ensures Hits(msgs, src, front + [s], msgs[p].key) < Shares(msgs, src, front + [s], msgs[p].key)
  {
    assert (front + [s])[..|front|] == front;
    HitsBelow(msgs, src, front, msgs[p].key);
    TwoHolders(msgs, Between(msgs, src, s), p, q);
  }

  // ---- Holders after an operation ----

  /** After a copy or move a key is held by the messages that stay and by the copies. */
  lemma {:induction false} HoldersAre(after: map<RowId, Msg>, before: map<RowId, Msg>, gone: set<RowId>, src: MboxId,
                                      list: seq<nat>, dest: MboxId, base: nat, k: Key, copies: set<RowId>)
    requires FreeFrom(before, dest, base) && IsMoveOf(after, before, gone, src, list, dest, base)
    requires copies == NewHolders(before, src, list, dest, base, k)
    ensures Holders(after, k) == (Holders(before, k) - gone) + copies && Holders(before, k) !! copies
  {
    forall p | p in Holders(after, k) ensures p in (Holders(before, k) - gone) + copies {
      if p !in before || p in gone {
        var i := p.1 - base;
        assert after[(dest, base + i)] == Copy(before[(src, list[i])]);
        assert p == (dest, base + i) && HasKey(before, (src, list[i]), k);
      }
    }
    forall p | p in copies ensures p in Holders(after, k) && p !in before {
      var i :| 0 <= i < |list| && HasKey(before, (src, list[i]), k) && p == (dest, base + i);
      assert after[(dest, base + i)] == Copy(before[(src, list[i])]);
    }
  }

  lemma {:induction false} HoldersCopied(after: map<RowId, Msg>, before: map<RowId, Msg>, gone: set<RowId>, src: MboxId,
                                         list: seq<nat>, dest: MboxId, base: nat, k: Key)
    requires FreeFrom(before, dest, base) && IsMoveOf(after, before, gone, src, list, dest, base)
    ensures |Holders(after, k)| == |Holders(before, k) - gone| + Count(before, src, list, k)
  {
    var copies := NewHolders(before, src, list, dest, base, k);
    NewHoldersCount(before, src, list, dest, base, k);
    HoldersAre(after, before, gone, src, list, dest, base, k, copies);
  }

  lemma SplitCount(holders: set<RowId>, rows: set<RowId>)
    ensures |holders - rows| + |holders * rows| == |holders|
  {
    assert holders == (holders - rows) + (holders * rows);
  }

  // ---- Each operation ----

  /** A copy leaves the counts exact if and only if no range holds one key twice. */
  lemma CopyExactIff(t: Tables, t': Tables, src: MboxId, dest: MboxId, spans: seq<Span>)
    requires Placed(t) && src in t.mboxes && dest in t.mboxes && Copied(t, t', src, dest, spans)
    requires AllExact(t.extKeys, t.msgs)
    ensures AllExact(t'.extKeys, t'.msgs) <==> SingleSpans(t.msgs, src, spans)
  {
    forall k | k in t.extKeys
      ensures ExactKey(t'.extKeys, t'.msgs, k) <==> Hits(t.msgs, src, spans, k) == Shares(t.msgs, src, spans, k)
    {
      CopiedKey(t, t', src, dest, spans, k);
    }
    HitsAllIff(t, src, spans);
  }

  /** Every key is counted as often as it is copied if and only if no range holds one key twice. */
  lemma {:induction false} HitsAllIff(t: Tables, src: MboxId, spans: seq<Span>)
    requires Placed(t)
    ensures (forall k :: k in t.extKeys ==> Hits(t.msgs, src, spans, k) == Shares(t.msgs, src, spans, k))
            <==> SingleSpans(t.msgs, src, spans)
  {
    if SingleSpans(t.msgs, src, spans) {
      forall k | k in t.extKeys ensures Hits(t.msgs, src, spans, k) == Shares(t.msgs, src, spans, k) {
        HitsBelow(t.msgs, src, spans, k);
      }
    } else {
      var i, p, q :| 0 <= i < |spans| && p in Between(t.msgs, src, spans[i]) && q in Between(t.msgs, src, spans[i])
                     && p != q && t.msgs[p].key == t.msgs[q].key;
      HitsMiss(t.msgs, src, spans, i, p, q);
      assert GoodRow(t.mboxes, t.extKeys, p, t.msgs[p]);
    }
  }

  lemma {:induction false} CopiedHolders(t: Tables, after: map<RowId, Msg>, src: MboxId, list: seq<nat>, dest: MboxId,
                                         base: nat, k: Key)
    requires Placed(t) && dest in t.mboxes && base == t.mboxes[dest].uidnext
    requires IsCopyOf(after, t.msgs, src, list, dest, base)
    ensures |Holders(after, k)| == |Holders(t.msgs, k)| + Count(t.msgs, src, list, k)
  {
    GoodIsFree(t, dest);
    CopyIsMove(after, t.msgs, src, list, dest, base);
    HoldersCopied(after, t.msgs, {}, src, list, dest, base, k);
    assert Holders(t.msgs, k) - {} == Holders(t.msgs, k);
  }

  lemma {:induction false} CopiedKey(t: Tables, t': Tables, src: MboxId, dest: MboxId, spans: seq<Span>, k: Key)
    requires Placed(t) && src in t.mboxes && dest in t.mboxes && Copied(t, t', src, dest, spans)
    requires k in t.extKeys && ExactKey(t.extKeys, t.msgs, k)
    ensures ExactKey(t'.extKeys, t'.msgs, k) <==> Hits(t.msgs, src, spans, k) == Shares(t.msgs, src, spans, k)
  {
    CopiedCount(t, t', src, dest, spans, k);
    if t.extKeys[k].user != t.mboxes[src].user {
      ForeignKey(t, src, spans, k);
    }
  }

  lemma {:induction false} CopiedCount(t: Tables, t': Tables, src: MboxId, dest: MboxId, spans: seq<Span>, k: Key)
    requires Placed(t) && src in t.mboxes && dest in t.mboxes && Copied(t, t', src, dest, spans)
    ensures |Holders(t'.msgs, k)| == |Holders(t.msgs, k)| + Shares(t.msgs, src, spans, k)
  {
    CopiedHolders(t, t'.msgs, src, Chosen(t.msgs, src, spans), dest, t.mboxes[dest].uidnext, k);
    CountChosen(t.msgs, src, spans, k);
  }

  /** A mailbox holds no key of another owner. */
  lemma {:induction false} ForeignKey(t: Tables, src: MboxId, spans: seq<Span>, k: Key)
    requires Placed(t) && src in t.mboxes && k in t.extKeys && t.extKeys[k].user != t.mboxes[src].user
    ensures Hits(t.msgs, src, spans, k) == Shares(t.msgs, src, spans, k) == 0
    decreases |spans|
  {
    if spans == [] {
    } else {
      ForeignKey(t, src, spans[..|spans| - 1], k);
      var ps := Between(t.msgs, src, spans[|spans| - 1]);
      forall p | p in ps ensures t.msgs[p].key != k {
        assert GoodRow(t.mboxes, t.extKeys, p, t.msgs[p]);
      }
      assert Holders(t.msgs, k) * ps == {};
    }
  }

  lemma MoveExact(t: Tables, t': Tables, src: MboxId, dest: MboxId, spans: seq<Span>, k: Key)
    requires Placed(t) && src in t.mboxes && dest in t.mboxes && Moved(t, t', src, dest, spans)
    requires Apart(t.msgs, src, spans) && k in t.extKeys && ExactKey(t.extKeys, t.msgs, k)
    ensures ExactKey(t'.extKeys, t'.msgs, k)
  {
    var list, rows, base := Chosen(t.msgs, src, spans), ChosenRows(t.msgs, src, spans), t.mboxes[dest].uidnext;
    GoodIsFree(t, dest);
    HoldersCopied(t'.msgs, t.msgs, rows, src, list, dest, base, k);
    CountChosen(t.msgs, src, spans, k);
    SharesApart(t.msgs, src, spans, k);
    SplitCount(Holders(t.msgs, k), rows);
  }

  lemma CreatedHolders(msgs: map<RowId, Msg>, q: RowId, msg: Msg, k: Key)
    requires q !in msgs
    ensures |Holders(msgs[q := msg], k)| == |Holders(msgs, k)| + if msg.key == k then 1 else 0
  {
    if msg.key == k {
      assert Holders(msgs[q := msg], k) == Holders(msgs, k) + {q};
    } else {
      assert Holders(msgs[q := msg], k) == Holders(msgs, k);
    }
  }

  lemma CreateExact(t: Tables, x: Incoming)
    requires Placed(t) && x.m in t.mboxes && x.key !in t.extKeys
    requires AllExact(t.extKeys, t.msgs)
    ensures var t' := Created(t, x); AllExact(t'.extKeys, t'.msgs)
  {
    var t', q := Created(t, x), (x.m, t.mboxes[x.m].uidnext);
    GoodIsFree(t, x.m);
    forall k | k in t'.extKeys ensures ExactKey(t'.extKeys, t'.msgs, k) {
      CreatedHolders(t.msgs, q, t'.msgs[q], k);
      if k == x.key {
        assert Holders(t.msgs, k) == {};
      } else {
        assert ExactKey(t.extKeys, t.msgs, k);
      }
    }
  }

  lemma {:induction false} DeliverExact(t: Tables, xs: seq<Incoming>)
    requires Placed(t) && (forall i :: 0 <= i < |xs| ==> xs[i].m in t.mboxes)
    requires DistinctKeys(xs) && KeysIn(xs) !! t.extKeys.Keys
    requires AllExact(t.extKeys, t.msgs)
    ensures var t' := AllCreated(t, xs); AllExact(t'.extKeys, t'.msgs)
    decreases |xs|
  {
    if xs == [] {
    } else {
      var front, x := xs[..|xs| - 1], xs[|xs| - 1];
      LastKey(xs, front, x);
      AllCreatedGood(t, front);
      DeliverExact(t, front);
      CreateExact(AllCreated(t, front), x);
    }
  }

  /** With exact counts the database never refuses an expunge. */
  lemma ExactCanExpunge(t: Tables, m: MboxId)
    requires Placed(t) && m in t.mboxes && AllExact(t.extKeys, t.msgs)
    ensures CanExpunge(t, m)
  {
    var almost, deleted := Expunging(t, m), DeletedIn(t.msgs, m);
    forall p | p in almost.msgs && t.msgs[p].key in t.extKeys ensures almost.extKeys[t.msgs[p].key].refs > 0 {
      var k := t.msgs[p].key;
      assert ExactKey(t.extKeys, t.msgs, k);
      if k in KeysOf(t.msgs, deleted) {
        var q :| q in deleted && t.msgs[q].key == k;
        TwoHolders(t.msgs, t.msgs.Keys, p, q);
        assert Holders(t.msgs, k) * t.msgs.Keys == Holders(t.msgs, k);
      }
    }
  }

  /** An expunge leaves the counts exact if and only if it removes no key twice. */
  lemma ExpungeExactIff(t: Tables, m: MboxId)
    requires Placed(t) && m in t.mboxes && AllExact(t.extKeys, t.msgs)
    ensures var t' := Expunged(t, m);
            AllExact(t'.extKeys, t'.msgs) <==> NoKeyTwice(t.msgs, DeletedIn(t.msgs, m))
  {
    var t', deleted := Expunged(t, m), DeletedIn(t.msgs, m);
    if NoKeyTwice(t.msgs, deleted) {
      forall k | k in t'.extKeys ensures ExactKey(t'.extKeys, t'.msgs, k) {
        ExpungedKey(t, m, k);
        AtMostOne(t.msgs, k, deleted);
      }
    } else {
      var p, q :| p in deleted && q in deleted && p != q && t.msgs[p].key == t.msgs[q].key;
      var k := t.msgs[p].key;
      TwoHolders(t.msgs, deleted, p, q);
      ExpungedKey(t, m, k);
      SplitCount(Holders(t.msgs, k), deleted);
      assert !ExactKey(t'.extKeys, t'.msgs, k);
    }
  }

  /** What an expunge does to the count and to the holders of a key. */
  lemma ExpungedKey(t: Tables, m: MboxId, k: Key)
    requires Placed(t) && m in t.mboxes && k in t.extKeys && ExactKey(t.extKeys, t.msgs, k)
    ensures var t', deleted := Expunged(t, m), DeletedIn(t.msgs, m);
            var refs := t.extKeys[k].refs - if k in KeysOf(t.msgs, deleted) then 1 else 0;
            && |Holders(t'.msgs, k)| == t.extKeys[k].refs - |Holders(t.msgs, k) * deleted|
            && (k in t'.extKeys <==> refs != 0) && (k in t'.extKeys ==> t'.extKeys[k].refs == refs)
            && (k in Dropped(t, m) <==> refs == 0)
  {
    var t', deleted := Expunged(t, m), DeletedIn(t.msgs, m);
    assert Holders(t'.msgs, k) == Holders(t.msgs, k) - deleted;
    SplitCount(Holders(t.msgs, k), deleted);
    if k in KeysOf(t.msgs, deleted) {
      var p :| p in deleted && t.msgs[p].key == k;
      assert GoodRow(t.mboxes, t.extKeys, p, t.msgs[p]);
      assert p in InMbox(t.msgs, m);
      assert k in KeysOf(t.msgs, InMbox(t.msgs, m));
    }
  }

  // ---- Whole runs ----

  /** An expunge that removes no key twice drops exactly the bodies that lost their last message. */
  lemma ExpungeDrops(s: State, s': State, m: MboxId, k: Key)
    requires Tidy(s) && Takes(s, Expunge(m), s') && k in s.blobs
    requires NoKeyTwice(s.t.msgs, DeletedIn(s.t.msgs, m))
    ensures k in s'.blobs <==> Holders(s'.t.msgs, k) != {}
    ensures k in s'.blobs <==> k in s'.t.extKeys
  {
    assert ExactKey(s.t.extKeys, s.t.msgs, k);
    ExpungedKey(s.t, m, k);
    AtMostOne(s.t.msgs, k, DeletedIn(s.t.msgs, m));
  }

  lemma FlagsExact(t: Tables, t': Tables)
    requires SameButFlags(t, t') && AllExact(t.extKeys, t.msgs)
    ensures AllExact(t'.extKeys, t'.msgs)
  {
    forall k | k in t'.extKeys ensures ExactKey(t'.extKeys, t'.msgs, k) {
      assert ExactKey(t.extKeys, t.msgs, k);
      assert Holders(t'.msgs, k) == Holders(t.msgs, k);
    }
  }

  lemma {:induction false} DeleteUntidies(s: State, m: MboxId, spans: seq<Span>, s': State)
    requires Tidy(s) && Takes(s, Delete(m, spans), s')
    ensures Tidy(s') <==> ChosenRows(s.t.msgs, m, spans) == {}
  {
    var rows := ChosenRows(s.t.msgs, m, spans);
    if rows == {} {
      assert KeysOf(s.t.msgs, rows) == {};
      assert s'.t.msgs == s.t.msgs;
      StepCountedIff(s, Delete(m, spans), s');
      StepPlaced(s, Delete(m, spans), s');
    } else {
      var p :| p in rows;
      assert GoodRow(s.t.mboxes, s.t.extKeys, p, s.t.msgs[p]);
      assert s.t.msgs[p].key in KeysOf(s.t.msgs, rows);
    }
  }

  lemma ExpungeTidyIff(s: State, m: MboxId, s': State)
    requires Tidy(s) && Takes(s, Expunge(m), s')
    ensures Tidy(s') <==> NoKeyTwice(s.t.msgs, DeletedIn(s.t.msgs, m))
  {
    StepPlaced(s, Expunge(m), s');
    ExpungeExactIff(s.t, m);
    if NoKeyTwice(s.t.msgs, DeletedIn(s.t.msgs, m)) {
      forall k | k in s.blobs ensures k in s'.blobs <==> k in s'.t.extKeys {
        ExpungeDrops(s, s', m, k);
      }
      assert s'.blobs <= s.blobs && s'.t.extKeys.Keys <= s.t.extKeys.Keys;
    }
  }

  lemma AddExact(s: State, step: Step, s': State)
    requires Tidy(s) && Takes(s, step, s') && (step.Create? || step.Deliver?)
    ensures AllExact(s'.t.extKeys, s'.t.msgs) && s'.blobs == s'.t.extKeys.Keys
  {
    match step
    case Create(x) =>
      assert [x][0].key in KeysIn([x]);
      CreateExact(s.t, x);
    case Deliver(xs) =>
      AllCreatedGood(s.t, xs);
      DeliverExact(s.t, xs);
  }

  lemma MoveAllExact(t: Tables, t': Tables, src: MboxId, dest: MboxId, spans: seq<Span>)
    requires Placed(t) && src in t.mboxes && dest in t.mboxes && Moved(t, t', src, dest, spans)
    requires Apart(t.msgs, src, spans) && AllExact(t.extKeys, t.msgs)
    ensures AllExact(t'.extKeys, t'.msgs)
  {
    forall k | k in t'.extKeys ensures ExactKey(t'.extKeys, t'.msgs, k) {
      MoveExact(t, t', src, dest, spans, k);
    }
  }

  /** A tidy store stays tidy under an operation if and only if the operation is single. */
  lemma StepTidyIff(s: State, step: Step, s': State)
    requires Tidy(s) && Takes(s, step, s')
    ensures Tidy(s') <==> Single(s, step)
  {
    StepPlaced(s, step, s');
    StepCountedIff(s, step, s');
    match step
    case Create(_) => AddExact(s, step, s');
    case Deliver(_) => AddExact(s, step, s');
    case CopyTo(src, dest, spans) => CopyExactIff(s.t, s'.t, src, dest, spans);
    case MoveTo(src, dest, spans) =>
      if Apart(s.t.msgs, src, spans) { MoveAllExact(s.t, s'.t, src, dest, spans); }
    case Delete(m, spans) => DeleteUntidies(s, m, spans, s');
    case Expunge(m) => ExpungeTidyIff(s, m, s');
    case ChangeFlags => FlagsExact(s.t, s'.t);
    case AddMailbox(_, _) =>
  }

  /**
   Over every run of single operations the counts stay exact and the blob store holds exactly
   the bodies in use: none is lost and none is left behind.
   */
  lemma {:induction false} RunsStayTidy(states: seq<State>, steps: seq<Step>, j: nat)
    requires Run(states, steps) && Tidy(states[0]) && j < |states|
    requires forall i :: 0 <= i < |steps| ==> Single(states[i], steps[i])
    ensures Tidy(states[j])
    decreases j
  {
    if j == 0 {
    } else {
      RunsStayTidy(states, steps, j - 1);
      StepTidyIff(states[j - 1], steps[j - 1], states[j]);
    }
  }

  /** No mailbox holds one body key twice. */
  ghost predicate NoRepeats(s: State) {
    forall m :: m in s.t.mboxes ==> NoKeyTwice(s.t.msgs, InMbox(s.t.msgs, m))
  }

  /** Without repeated keys every operation is single, but a deletion and a move that selects a message twice. */
  lemma NoRepeatsSingle(s: State, step: Step, s': State)
    requires NoRepeats(s) && Takes(s, step, s') && !step.Delete? && Once(s, step)
    ensures Single(s, step)
  {
  }

  /** A message moved twice leaves its key twice in the target. */
  lemma MovedTwice(s: State, step: Step, s': State, i: nat, j: nat, p: RowId)
    requires Takes(s, step, s') && step.MoveTo? && i < j < |step.spans|
    requires p in Between(s.t.msgs, step.src, step.spans[i]) && p in Between(s.t.msgs, step.src, step.spans[j])
    ensures !NoRepeats(s')
  {
    var a, b := ChosenTwice(s.t.msgs, step.src, step.spans, i, j, p.1);
    var list, base := Chosen(s.t.msgs, step.src, step.spans), s.t.mboxes[step.dest].uidnext;
    var x, y := (step.dest, base + a), (step.dest, base + b);
    assert s'.t.msgs[x] == Copy(s.t.msgs[(step.src, list[a])]) && s'.t.msgs[y] == Copy(s.t.msgs[(step.src, list[b])]);
    assert x in InMbox(s'.t.msgs, step.dest) && y in InMbox(s'.t.msgs, step.dest);
    assert step.dest in s'.t.mboxes;
  }

  lemma MovesOnce(s: State, step: Step, s': State)
    requires Takes(s, step, s') && NoRepeats(s')
    ensures Once(s, step)
  {
    if step.MoveTo? {
      forall i, j | 0 <= i < j < |step.spans|
        ensures Between(s.t.msgs, step.src, step.spans[i]) !! Between(s.t.msgs, step.src, step.spans[j])
      {
        if p :| p in Between(s.t.msgs, step.src, step.spans[i]) && p in Between(s.t.msgs, step.src, step.spans[j]) {
          MovedTwice(s, step, s', i, j, p);
          assert false;
        }
      }
    }
  }

  /** So as long as no mailbox comes to hold one body twice, nothing but a deletion upsets the store. */
  lemma {:induction false} RunsWithoutRepeats(states: seq<State>, steps: seq<Step>, j: nat)
    requires Run(states, steps) && Tidy(states[0]) && j < |states|
    requires forall i :: 0 <= i < |states| ==> NoRepeats(states[i])
    requires forall i :: 0 <= i < |steps| ==> !steps[i].Delete?
    ensures Tidy(states[j])
  {
    forall i | 0 <= i < |steps| ensures Single(states[i], steps[i]) {
      MovesOnce(states[i], steps[i], states[i + 1]);
      NoRepeatsSingle(states[i], steps[i], states[i + 1]);
    }
    RunsStayTidy(states, steps, j);
  }

  /** Two messages of one mailbox with one body, expunged together: the body is left behind. */
  lemma RepeatedKeyLeaks() returns (s: State, s': State)
    ensures Tidy(s) && Takes(s, Expunge(1), s') && s'.t.msgs == map[] && 5 in s'.blobs && !Tidy(s')
  {
    var msg := Msg(5, {DELETED}, false, false, false, 0);
    var msgs: map<RowId, Msg> := map[(1, 1) := msg, (1, 2) := msg];
    var t := Tables(map[1 := Mbox(7, 3, 2)], msgs, map[5 := ExtKey(7, 2)]);
    s := State(t, {5});
    var both: set<RowId> := {(1, 1), (1, 2)};
    assert InMbox(msgs, 1) == both && DeletedIn(msgs, 1) == both && Holders(msgs, 5) == both;
    assert KeysOf(msgs, both) == {5} by { assert msgs[(1, 1)].key == 5; }
    assert Good(t) && AllExact(t.extKeys, msgs);
    ExactCanExpunge(t, 1);
    s' := State(Expunged(t, 1), s.blobs - Dropped(t, 1));
    assert s'.t.msgs == map[];
    ExpungedKey(t, 1, 5);
    StepTidyIff(s, Expunge(1), s');
  }

  const PAIR: map<RowId, Msg> := map[(1, 1) := PLAIN, (1, 2) := PLAIN]
  const PAIRS: map<RowId, Msg> := map[(1, 1) := PLAIN, (1, 2) := PLAIN, (2, 1) := PLAIN, (2, 2) := PLAIN]

  /** The same two messages copied in one range: four messages have the body, and three are counted. */
  lemma RepeatedKeyMiscounts() returns (s: State, s': State)
    ensures Tidy(s) && Takes(s, CopyTo(1, 2, [Span(1, 2)]), s')
    ensures |Holders(s'.t.msgs, 5)| == 4 && s'.t.extKeys == map[5 := ExtKey(7, 3)] && !Tidy(s')
  {
    var t := Tables(map[1 := Mbox(7, 3, 2), 2 := Mbox(7, 1, 0)], PAIR, map[5 := ExtKey(7, 2)]);
    var t' := Tables(map[1 := Mbox(7, 3, 2), 2 := Mbox(7, 3, 2)], PAIRS, map[5 := ExtKey(7, 3)]);
    s, s' := State(t, {5}), State(t', {5});
    PairTidy(t, s);
    PairCopied(t, t');
    PairsHolders();
    assert !ExactKey(t'.extKeys, PAIRS, 5);
  }

  lemma PairsHolders()
    ensures |Holders(PAIRS, 5)| == 4
  {
    assert Holders(PAIRS, 5) == {(1, 1), (1, 2), (2, 1), (2, 2)};
  }

  lemma PairTidy(t: Tables, s: State)
    requires t == Tables(map[1 := Mbox(7, 3, 2), 2 := Mbox(7, 1, 0)], PAIR, map[5 := ExtKey(7, 2)])
    requires s == State(t, {5})
    ensures Tidy(s)
  {
    assert InMbox(PAIR, 1) == {(1, 1), (1, 2)} && InMbox(PAIR, 2) == {} && Holders(PAIR, 5) == {(1, 1), (1, 2)};
    assert ExactKey(t.extKeys, PAIR, 5);
  }

  lemma PairCopied(t: Tables, t': Tables)
    requires t == Tables(map[1 := Mbox(7, 3, 2), 2 := Mbox(7, 1, 0)], PAIR, map[5 := ExtKey(7, 2)])
    requires t' == Tables(map[1 := Mbox(7, 3, 2), 2 := Mbox(7, 3, 2)], PAIRS, map[5 := ExtKey(7, 3)])
    ensures Copied(t, t', 1, 2, [Span(1, 2)])
  {
    PairChosen();
    PairCopies();
    assert t'.mboxes == IncreaseMsgCount(t, 2, 2, 2).mboxes;
  }

  lemma PairBetween()
    ensures Between(PAIR, 1, Span(1, 2)) == {(1, 1), (1, 2)} && KeysOf(PAIR, {(1, 1), (1, 2)}) == {5}
    ensures UidsOf({(1, 1), (1, 2)}) == {1, 2}
  {
    assert PAIR[(1, 1)].key == 5 && (1, 1).1 == 1 && (1, 2).1 == 2;
  }

  lemma PairChosen()
    ensures Chosen(PAIR, 1, [Span(1, 2)]) == [1, 2] && Hits(PAIR, 1, [Span(1, 2)], 5) == 1
  {
    var s := Span(1, 2);
    PairBetween();
    assert Elements([1, 2]) == {1, 2};
    AscendingUnique([1, 2], Listed({1, 2}));
    assert [s][..0] == [];
    assert Chosen(PAIR, 1, [s]) == Chosen(PAIR, 1, []) + [1, 2];
    assert Hits(PAIR, 1, [], 5) == 0;
  }

  lemma PairCopies()
    ensures IsCopyOf(PAIRS, PAIR, 1, [1, 2], 2, 1)
  {
    var list := [1, 2];
    forall i | 0 <= i < |list| ensures (1, list[i]) in PAIR && PAIRS[(2, 1 + i)] == Copy(PAIR[(1, list[i])]) {
      assert list[i] == 1 + i && (2, 1 + i) in PAIRS;
    }
  }

  // ---- No body in use is lost ----

  ghost predicate HasBodies(s: State) {
    forall p :: p in s.t.msgs ==> s.t.msgs[p].key in s.blobs
  }

  /** Even with wrong counts an expunge takes no body from a message that stays. */
  lemma ExpungeKeepsBodies(s: State, m: MboxId, s': State)
    requires Placed(s.t) && HasBodies(s) && Takes(s, Expunge(m), s')
    ensures HasBodies(s')
  {
    var almost := Expunging(s.t, m);
    forall p | p in s'.t.msgs ensures s'.t.msgs[p].key in s'.blobs {
      assert GoodRow(s.t.mboxes, s.t.extKeys, p, s.t.msgs[p]);
      assert p in almost.msgs && almost.msgs[p].key in almost.extKeys;
    }
  }

  /** None of these messages shares its body key with another one. */
  ghost predicate KeysApart(msgs: map<RowId, Msg>, rows: set<RowId>)
    requires rows <= msgs.Keys
  {
    forall p, q :: p in msgs && q in rows && p !in rows ==> msgs[p].key != msgs[q].key
  }

  /** A deletion keeps the bodies of the messages that stay if and only if none of them shares a deleted key. */
  lemma {:induction false} DeleteKeepsBodiesIff(s: State, m: MboxId, spans: seq<Span>, s': State)
    requires HasBodies(s) && Takes(s, Delete(m, spans), s')
    ensures HasBodies(s') <==> KeysApart(s.t.msgs, ChosenRows(s.t.msgs, m, spans))
  {
    var rows := ChosenRows(s.t.msgs, m, spans);
    if p, q :| p in s.t.msgs && q in rows && p !in rows && s.t.msgs[p].key == s.t.msgs[q].key {
      assert p in s'.t.msgs && s.t.msgs[q].key in KeysOf(s.t.msgs, rows);
    }
  }

  const SHARED: map<RowId, Msg> := map[(1, 1) := PLAIN, (2, 1) := PLAIN]

  /** A message and its copy in another mailbox: deleting the one takes the body from the other. */
  lemma SharedBodyLost() returns (s: State, s': State)
    ensures Tidy(s) && HasBodies(s) && Takes(s, Delete(1, [Span(1, 1)]), s')
    ensures (2, 1) in s'.t.msgs && s'.t.msgs[(2, 1)].key !in s'.blobs && !HasBodies(s')
  {
    var t := Tables(map[1 := Mbox(7, 2, 1), 2 := Mbox(7, 2, 1)], SHARED, map[5 := ExtKey(7, 2)]);
    s := State(t, {5});
    SharedTidy(t, s);
    SharedChosen();
    s' := State(DecreaseMsgCount(t, 1, 1).(msgs := SHARED - {(1, 1)}), {});
  }

  lemma SharedTidy(t: Tables, s: State)
    requires t == Tables(map[1 := Mbox(7, 2, 1), 2 := Mbox(7, 2, 1)], SHARED, map[5 := ExtKey(7, 2)])
    requires s == State(t, {5})
    ensures Tidy(s)
  {
    assert InMbox(SHARED, 1) == {(1, 1)} && InMbox(SHARED, 2) == {(2, 1)} && Holders(SHARED, 5) == {(1, 1), (2, 1)};
    assert ExactKey(t.extKeys, SHARED, 5);
  }

  lemma SharedChosen()
    ensures ChosenRows(SHARED, 1, [Span(1, 1)]) == {(1, 1)} && KeysOf(SHARED, {(1, 1)}) == {5}
  {
    var s := Span(1, 1);
    assert [s][..0] == [] && ChosenRows(SHARED, 1, []) == {};
    assert Between(SHARED, 1, s) == {(1, 1)} && SHARED[(1, 1)].key == 5;
  }

  lemma StepKeepsBodies(s: State, step: Step, s': State)
    requires Placed(s.t) && HasBodies(s) && Takes(s, step, s') && !step.Delete?
    ensures HasBodies(s')
  {
    match step
    case Create(x) =>
    case Deliver(xs) => DeliveredBodies(s.t, xs, s.blobs);
    case CopyTo(src, dest, spans) =>
      var list, base := Chosen(s.t.msgs, src, spans), s.t.mboxes[dest].uidnext;
      CopyIsMove(s'.t.msgs, s.t.msgs, src, list, dest, base);
      CopiedBodies(s.t.msgs, s'.t.msgs, {}, src, list, dest, base, s.blobs);
    case MoveTo(src, dest, spans) =>
      var list, rows, base := Chosen(s.t.msgs, src, spans), ChosenRows(s.t.msgs, src, spans), s.t.mboxes[dest].uidnext;
      CopiedBodies(s.t.msgs, s'.t.msgs, rows, src, list, dest, base, s.blobs);
    case Expunge(m) => ExpungeKeepsBodies(s, m, s');
    case ChangeFlags =>
    case AddMailbox(_, _) =>
  }

  lemma CopiedBodies(before: map<RowId, Msg>, after: map<RowId, Msg>, gone: set<RowId>, src: MboxId, list: seq<nat>,
                     dest: MboxId, base: nat, blobs: set<Key>)
    requires IsMoveOf(after, before, gone, src, list, dest, base)
    requires forall p :: p in before ==> before[p].key in blobs
    ensures forall p :: p in after ==> after[p].key in blobs
  {
    forall p | p in after ensures after[p].key in blobs {
      if p !in before || p in gone {
        var i := p.1 - base;
        assert after[(dest, base + i)] == Copy(before[(src, list[i])]);
      }
    }
  }

  lemma {:induction false} DeliveredBodies(t: Tables, xs: seq<Incoming>, blobs: set<Key>)
    requires forall i :: 0 <= i < |xs| ==> xs[i].m in t.mboxes
    requires forall p :: p in t.msgs ==> t.msgs[p].key in blobs
    ensures forall p :: p in AllCreated(t, xs).msgs ==> AllCreated(t, xs).msgs[p].key in blobs + KeysIn(xs)
    decreases |xs|
  {
    if xs == [] {
    } else {
      var front, x := xs[..|xs| - 1], xs[|xs| - 1];
      assert KeysIn(xs) == KeysIn(front) + {x.key};
      DeliveredBodies(t, front, blobs);
    }
  }

  /** In every run without deletions, whatever the counts, every message keeps its body. */
  lemma {:induction false} RunsKeepBodies(states: seq<State>, steps: seq<Step>, j: nat)
    requires Run(states, steps) && Placed(states[0].t) && HasBodies(states[0]) && j < |states|
    requires forall i :: 0 <= i < |steps| ==> !steps[i].Delete?
    ensures HasBodies(states[j])
    decreases j
  {
    if j == 0 {
    } else {
      RunsKeepBodies(states, steps, j - 1);
      RunsStayPlaced(states, steps, 0, j - 1);
      StepKeepsBodies(states[j - 1], steps[j - 1], states[j]);
    }
  }
}
