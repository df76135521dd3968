/**
 Rewriting of search criteria: every set of sequence numbers becomes a set of UIDs over the
 session's view (internal/go-imap-mess/mailbox.go). The rewriting is shown to keep the
 meaning that section 6.4.4 of RFC 3501 gives to the criteria.
 */
module Criteria {
  import opened Uids
  import opened SeqUid

  /** A set as the protocol parser leaves it: bounds in order, `*` only as upper bound or alone. */
  predicate Parsed(r: Range) {
    (r.start == 0 ==> r.stop == 0) && (r.stop != 0 ==> r.start <= r.stop)
  }

  /** Section 9 of RFC 3501: `*` is the largest number in use, and bounds may come in any order. */
  predicate Means(r: Range, top: nat, x: nat) {
    var a, b := if r.start == 0 then top else r.start, if r.stop == 0 then top else r.stop;
    if a <= b then a <= x <= b else b <= x <= a
  }

  predicate InSet(rs: seq<Range>, top: nat, x: nat) {
    exists i :: 0 <= i < |rs| && Means(rs[i], top, x)
  }

  /** `other` stands for all keys that do not speak of numbers. */
  datatype Criteria = Criteria(
    uid: Option<seq<Range>>,
    seqNum: Option<seq<Range>>,
    other: nat,
    not: seq<Criteria>,
    or: seq<(Criteria, Criteria)>)

  function Last(m: seq<Uint32>): Uint32 {
    if m == [] then 0 else m[|m| - 1]
  }

  /** Does message number p of the view match? `env` decides the other keys. */
  ghost predicate Matches(c: Criteria, m: seq<Uint32>, p: nat, env: (nat, nat) -> bool)
    requires 1 <= p <= |m|
    decreases c
  {
    && (c.uid.Some? ==> InSet(c.uid.value, Last(m), m[p - 1]))
    && (c.seqNum.Some? ==> InSet(c.seqNum.value, |m|, p))
    && env(c.other, m[p - 1])
    && (forall i :: 0 <= i < |c.not| ==> !Matches(c.not[i], m, p, env))
    && forall i :: 0 <= i < |c.or| ==> Matches(c.or[i].0, m, p, env) || Matches(c.or[i].1, m, p, env)
  }

  // ---- Resolving one set ----

  function ResolveUidRange(r: Range, m: seq<Uint32>): Range {
    var a, b := if r.start == 0 then Last(m) else r.start, if r.stop == 0 then Last(m) else r.stop;
    if a > b then Range(b, a) else Range(a, b)
  }

  function ResolveUidSet(rs: seq<Range>, m: seq<Uint32>): seq<Range> {
    if m == [] || rs == [] then []
    else ResolveUidSet(rs[..|rs| - 1], m) + [ResolveUidRange(rs[|rs| - 1], m)]
  }

  function ResolveSeqRange(r: Range, m: seq<Uint32>): Option<Range> {
    if m == [] || r.start > |m| then None
    else
      var lo := if r.start == 0 then Last(m) else m[r.start - 1];
      var hi := if r.start == r.stop then lo else m[Clip(m, r.stop) - 1];
      Some(if lo <= hi then Range(lo, hi) else Range(hi, lo))
  }

  function ResolveSeqSet(rs: seq<Range>, m: seq<Uint32>): seq<Range> {
    if rs == [] then []
    else
      match ResolveSeqRange(rs[|rs| - 1], m)
      case None => ResolveSeqSet(rs[..|rs| - 1], m)
      case Some(r) => ResolveSeqSet(rs[..|rs| - 1], m) + [r]
  }

  /** UID sets: `*` becomes the last UID, and bounds that come out reversed are swapped in place. */
  method ResolveUids(m: seq<Uint32>, rs: seq<Range>) returns (result: seq<Range>)
    requires m != []
    ensures result == ResolveUidSet(rs, m)
  {
    result := rs;
    for i := 0 to |rs|
      invariant |result| == |rs|
      invariant result[..i] == ResolveUidSet(rs[..i], m)
      invariant result[i..] == rs[i..]
    {
      var r := result[i];
      assert r == rs[i] by { assert result[i..][0] == rs[i..][0]; }
      if r.start == 0 {
        r := r.(start := m[|m| - 1]);
      }
      if r.stop == 0 {
        r := r.(stop := m[|m| - 1]);
      }
      if r.start > r.stop {
        r := Range(r.stop, r.start);
      }
      result := result[i := r];
      assert rs[..i + 1][..i] == rs[..i];
      assert result[..i + 1] == result[..i] + [r];
    }
    assert rs[..|rs|] == rs && result[..|rs|] == result;
  }

  method ResolveNumber(m: seq<Uint32>, r: Range) returns (out: Option<Range>)
    requires |m| < MAX_UINT32 && Positive(m)
    ensures out == ResolveSeqRange(r, m)
  {
    var lo, hi, ok := SeqToUid(m, r);
    assert LastSet(m, Clip(m, r.stop)) == Clip(m, r.stop);
    assert 0 < r.start <= |m| ==> FirstSet(m, r.start - 1) == r.start - 1;
    if ok {
      out := Some(if lo <= hi then Range(lo, hi) else Range(hi, lo));
    } else {
      out := None;
    }
  }

  /** `ResolveSeq`; an error means that no message is named. */
  method ResolveSeq(m: seq<Uint32>, uid: bool, rs: seq<Range>) returns (result: seq<Range>, noMessages: bool)
    requires |m| < MAX_UINT32 && Positive(m)
    ensures result == if uid then ResolveUidSet(rs, m) else ResolveSeqSet(rs, m)
    ensures noMessages <==> m == [] || (!uid && result == [])
  {
    if |m| == 0 {
      NoneOnEmpty(rs);
      return [], true;
    }
    if uid {
      result := ResolveUids(m, rs);
      return result, false;
    }
    result := [];
    for i := 0 to |rs|
      invariant result == ResolveSeqSet(rs[..i], m)
    {
      assert rs[..i + 1][..i] == rs[..i];
      var r := ResolveNumber(m, rs[i]);
      if r.Some? {
        result := result + [r.value];
      }
    }
    assert rs[..|rs|] == rs;
    noMessages := |result| == 0;
  }

  lemma {:induction false} NoneOnEmpty(rs: seq<Range>)
    ensures ResolveSeqSet(rs, []) == []
  {
    if rs == [] {
    } else {
      NoneOnEmpty(rs[..|rs| - 1]);
    }
  }

  // ---- What the resolved sets name ----

  lemma InSetAppend(rs: seq<Range>, r: Range, top: nat, x: nat)
    ensures InSet(rs + [r], top, x) <==> InSet(rs, top, x) || Means(r, top, x)
  {
    var all := rs + [r];
    if Means(r, top, x) { assert all[|rs|] == r; }
    if InSet(rs, top, x) {
      var i :| 0 <= i < |rs| && Means(rs[i], top, x);
      assert all[i] == rs[i];
    }
  }

  lemma InSetConcat(a: seq<Range>, b: seq<Range>, top: nat, x: nat)
    ensures InSet(a + b, top, x) <==> InSet(a, top, x) || InSet(b, top, x)
  {
    if InSet(a, top, x) {
      var i :| 0 <= i < |a| && Means(a[i], top, x);
      assert (a + b)[i] == a[i];
    }
    if InSet(b, top, x) {
      var i :| 0 <= i < |b| && Means(b[i], top, x);
      assert (a + b)[|a| + i] == b[i];
    }
  }

  lemma {:induction false} UidSetKeepsMeaning(rs: seq<Range>, m: seq<Uint32>, x: nat)
    requires m != [] && Positive(m)
    ensures InSet(ResolveUidSet(rs, m), Last(m), x) <==> InSet(rs, Last(m), x)
  {
    if rs == [] {
    } else {
      var n := |rs| - 1;
      UidSetKeepsMeaning(rs[..n], m, x);
      InSetAppend(ResolveUidSet(rs[..n], m), ResolveUidRange(rs[n], m), Last(m), x);
      InSetAppend(rs[..n], rs[n], Last(m), x);
      assert rs[..n] + [rs[n]] == rs;
    }
  }

  /** An open-ended range that starts past the last message. */
  predicate PastEnd(r: Range, n: nat) {
    r.stop == 0 && r.start > n
  }

  /**
   A range of sequence numbers resolves to exactly the messages it names, if and only if it is not
   open-ended with a start past the last message: that one names the last message but is dropped.
   */
  lemma SeqRangeRightIff(r: Range, m: seq<Uint32>)
    requires m != [] && Ascending(m) && Positive(m) && Parsed(r)
    ensures (forall p :: 1 <= p <= |m| ==>
               ((ResolveSeqRange(r, m).Some? && Means(ResolveSeqRange(r, m).value, Last(m), m[p - 1]))
                <==> Means(r, |m|, p)))
            <==> !PastEnd(r, |m|)
  {
    if PastEnd(r, |m|) {
      assert Means(r, |m|, |m|);
      assert ResolveSeqRange(r, m).None?;
    }
    forall p | 1 <= p <= |m| && !PastEnd(r, |m|)
      ensures (ResolveSeqRange(r, m).Some? && Means(ResolveSeqRange(r, m).value, Last(m), m[p - 1]))
              <==> Means(r, |m|, p)
    {
      SeqRangeAt(r, m, p);
    }
  }

  lemma SeqRangeAt(r: Range, m: seq<Uint32>, p: nat)
    requires Ascending(m) && Positive(m) && Parsed(r) && 1 <= p <= |m| && !PastEnd(r, |m|)
    ensures (ResolveSeqRange(r, m).Some? && Means(ResolveSeqRange(r, m).value, Last(m), m[p - 1])) <==> Means(r, |m|, p)
  {
    if r.start <= |m| {
      var a := if r.start == 0 then |m| else r.start;
      var b := if r.start == r.stop then a else Clip(m, r.stop);
      assert a <= b;
      assert m[a - 1] <= m[b - 1];
      assert ResolveSeqRange(r, m) == Some(Range(m[a - 1], m[b - 1]));
      assert m[a - 1] <= m[p - 1] <==> a <= p;
      assert m[p - 1] <= m[b - 1] <==> p <= b;
    }
  }

  lemma {:induction false} SeqSetKeepsMeaning(rs: seq<Range>, m: seq<Uint32>, p: nat)
    requires Ascending(m) && Positive(m) && 1 <= p <= |m|
    requires forall i :: 0 <= i < |rs| ==> Parsed(rs[i]) && !PastEnd(rs[i], |m|)
    ensures InSet(ResolveSeqSet(rs, m), Last(m), m[p - 1]) <==> InSet(rs, |m|, p)
  {
    if rs == [] {
    } else {
      var n := |rs| - 1;
      SeqSetKeepsMeaning(rs[..n], m, p);
      SeqRangeAt(rs[n], m, p);
      InSetAppend(rs[..n], rs[n], |m|, p);
      assert rs[..n] + [rs[n]] == rs;
      match ResolveSeqRange(rs[n], m)
      case None =>
      case Some(r) => InSetAppend(ResolveSeqSet(rs[..n], m), r, Last(m), m[p - 1]);
    }
  }

  // ---- The whole tree ----

  function ResolveNode(uid: Option<seq<Range>>, seqNum: Option<seq<Range>>, m: seq<Uint32>): Option<seq<Range>> {
    var u := if uid.Some? then Some(ResolveUidSet(uid.value, m)) else None;
    if seqNum.None? then u
    else if u.None? then Some(ResolveSeqSet(seqNum.value, m))
    else Some(u.value + ResolveSeqSet(seqNum.value, m))
  }

  function ResolveCriteria(c: Criteria, m: seq<Uint32>): Criteria
    decreases c
  {
    Criteria(ResolveNode(c.uid, c.seqNum, m), None, c.other,
             seq(|c.not|, i requires 0 <= i < |c.not| => ResolveCriteria(c.not[i], m)),
             seq(|c.or|, i requires 0 <= i < |c.or| =>
               (ResolveCriteria(c.or[i].0, m), ResolveCriteria(c.or[i].1, m))))
  }

  /** No node has both kinds of set, and no open-ended sequence range starts past the end. */
  ghost predicate Translatable(c: Criteria, n: nat)
    decreases c
  {
    && (c.uid.None? || c.seqNum.None?)
    && (c.seqNum.Some? ==>
          forall i :: 0 <= i < |c.seqNum.value| ==> Parsed(c.seqNum.value[i]) && !PastEnd(c.seqNum.value[i], n))
    && (forall i :: 0 <= i < |c.not| ==> Translatable(c.not[i], n))
    && forall i :: 0 <= i < |c.or| ==> Translatable(c.or[i].0, n) && Translatable(c.or[i].1, n)
  }

  /** Every message of the view matches the rewritten tree exactly when it matched the original. */
  lemma {:induction false} ResolveKeepsMeaning(c: Criteria, m: seq<Uint32>, p: nat, env: (nat, nat) -> bool)
    requires Ascending(m) && Positive(m) && 1 <= p <= |m| && Translatable(c, |m|)
    ensures Matches(ResolveCriteria(c, m), m, p, env) <==> Matches(c, m, p, env)
    decreases c
  {
    var r := ResolveCriteria(c, m);
    if c.uid.Some? { UidSetKeepsMeaning(c.uid.value, m, m[p - 1]); }
    if c.seqNum.Some? { SeqSetKeepsMeaning(c.seqNum.value, m, p); }
    forall i | 0 <= i < |c.not| ensures Matches(r.not[i], m, p, env) <==> Matches(c.not[i], m, p, env) {
      ResolveKeepsMeaning(c.not[i], m, p, env);
    }
    forall i | 0 <= i < |c.or|
      ensures Matches(r.or[i].0, m, p, env) <==> Matches(c.or[i].0, m, p, env)
      ensures Matches(r.or[i].1, m, p, env) <==> Matches(c.or[i].1, m, p, env)
    {
      ResolveKeepsMeaning(c.or[i].0, m, p, env);
      ResolveKeepsMeaning(c.or[i].1, m, p, env);
    }
  }

  predicate NodeRight(us: seq<Range>, ss: seq<Range>, m: seq<Uint32>, p: nat)
    requires 1 <= p <= |m|
  {
    InSet(ResolveNode(Some(us), Some(ss), m).value, Last(m), m[p - 1])
    <==> InSet(us, Last(m), m[p - 1]) && InSet(ss, |m|, p)
  }

  predicate Agree(us: seq<Range>, ss: seq<Range>, m: seq<Uint32>, p: nat)
    requires 1 <= p <= |m|
  {
    InSet(us, Last(m), m[p - 1]) <==> InSet(ss, |m|, p)
  }

  /**
   A node with both kinds of set is rewritten to their union. Its number keys keep their meaning
   for a message if and only if both sets name it or neither does.
   */
  lemma BothSetsRightIff(us: seq<Range>, ss: seq<Range>, m: seq<Uint32>, p: nat)
    requires 1 <= p <= |m| && Ascending(m) && Positive(m)
    requires forall i :: 0 <= i < |ss| ==> Parsed(ss[i]) && !PastEnd(ss[i], |m|)
    ensures NodeRight(us, ss, m, p) <==> Agree(us, ss, m, p)
  {
    UidSetKeepsMeaning(us, m, m[p - 1]);
    SeqSetKeepsMeaning(ss, m, p);
    InSetConcat(ResolveUidSet(us, m), ResolveSeqSet(ss, m), Last(m), m[p - 1]);
  }

  /** UID 4 and number 1 over messages 2 and 4: no message has both, and the rewritten node names the first. */
  lemma BothSetsExample()
    ensures var us, ss, m := [Range(4, 4)], [Range(1, 1)], [2, 4];
            !NodeRight(us, ss, m, 1) && InSet(ResolveNode(Some(us), Some(ss), m).value, 4, 2) && !InSet(us, 4, 2)
  {
    var us, ss, m := [Range(4, 4)], [Range(1, 1)], [2, 4];
    assert us[..0] == [] && ss[..0] == [];
    assert ResolveUidSet(us, m) == [Range(4, 4)] && ResolveSeqSet(ss, m) == [Range(2, 2)];
    var both := ResolveNode(Some(us), Some(ss), m).value;
    assert both[1] == Range(2, 2) && Means(both[1], 4, 2);
    assert !InSet(us, 4, 2);
  }

  /** The UID set 4,10:* over messages 2 and 4: the second range comes out as 4:10 and overlaps the first. */
  lemma ResolvedSetOverlaps()
    ensures ResolveUidSet([Range(4, 4), Range(10, 0)], [2, 4]) == [Range(4, 4), Range(4, 10)]
  {
    var rs, m := [Range(4, 4), Range(10, 0)], [2, 4];
    assert rs[..1] == [Range(4, 4)] && rs[..1][..0] == [];
    assert ResolveUidSet(rs[..1], m) == ResolveUidSet([], m) + [Range(4, 4)];
  }

  /** The open-ended range 3:* over two messages names the last one, and is dropped. */
  lemma PastEndExample()
    ensures Means(Range(3, 0), 2, 2) && ResolveSeqRange(Range(3, 0), [2, 4]).None?
  {
  }
}
