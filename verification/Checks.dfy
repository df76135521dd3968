/**
 The check runner of the message pipeline (internal/msgpipeline/check_runner.go): which calls each
 check state gets, in which order, over any run of MAIL, RCPT and DATA handling. What a check answers
 is arbitrary throughout; the calls of one group run in parallel on different states, so that their
 order does not show in any state's trace.
 */
module Checks {
  import opened Uids

  type Check = nat
  type StateId = nat

  datatype Call = Connection | Sender(from: string) | Rcpt(to: string) | Body

  // ---- Traces ----

  /** A prefix of: connection, sender, distinct recipients, body. */
  predicate GoodTrace(t: seq<Call>) {
    && (|t| > 0 ==> t[0] == Connection)
    && (|t| > 1 ==> t[1].Sender?)
    && (forall i :: 2 <= i < |t| - 1 ==> t[i].Rcpt?)
    && (|t| > 2 ==> t[|t| - 1].Rcpt? || t[|t| - 1] == Body)
    && forall i, j :: 2 <= i < j < |t| && t[i].Rcpt? ==> t[i] != t[j]
  }

  function AskedOf(t: seq<Call>): set<string> {
    set i | 0 <= i < |t| && t[i].Rcpt? :: t[i].to
  }

  /** Introduced to connection and sender, and not yet to the body. */
  predicate Open(t: seq<Call>) {
    |t| >= 2 && t[|t| - 1] != Body
  }

  lemma AskedGrows(t: seq<Call>, call: Call)
    ensures AskedOf(t + [call]) == AskedOf(t) + if call.Rcpt? then {call.to} else {}
  {
    var t' := t + [call];
    forall r | r in AskedOf(t) ensures r in AskedOf(t') {
      var i :| 0 <= i < |t| && t[i].Rcpt? && t[i].to == r;
      assert t'[i] == t[i];
    }
    if call.Rcpt? { assert t'[|t|].to in AskedOf(t'); }
  }

  lemma Grow(t: seq<Call>, call: Call)
    requires GoodTrace(t)
    ensures (t == [] && call == Connection) || (|t| == 1 && call.Sender?) ==> GoodTrace(t + [call])
    ensures Open(t) && call.Rcpt? && call.to !in AskedOf(t) ==> GoodTrace(t + [call]) && Open(t + [call])
    ensures Open(t) && call == Body ==> GoodTrace(t + [call])
  {
    forall i | 0 <= i < |t| && t[i].Rcpt? ensures t[i].to in AskedOf(t) { }
  }

  /** The recipient calls for a list with repetitions: each recipient once, where it comes first. */
  function Replayed(rcpts: seq<string>): seq<Call> {
    if rcpts == [] then []
    else
      var front, last := rcpts[..|rcpts| - 1], rcpts[|rcpts| - 1];
      if last in front then Replayed(front) else Replayed(front) + [Rcpt(last)]
  }

  /** The replay asks about every recipient, each of them once. */
  lemma {:induction false} ReplayedAll(rcpts: seq<string>)
    ensures AskedOf(Replayed(rcpts)) == set r | r in rcpts
    ensures forall k :: 0 <= k < |Replayed(rcpts)| ==> Replayed(rcpts)[k].Rcpt?
    ensures forall j, k :: 0 <= j < k < |Replayed(rcpts)| ==> Replayed(rcpts)[j] != Replayed(rcpts)[k]
  {
    if rcpts == [] {
    } else {
      var front, last := rcpts[..|rcpts| - 1], rcpts[|rcpts| - 1];
      ReplayedAll(front);
      assert (set r | r in rcpts) == (set r | r in front) + {last} by { assert rcpts == front + [last]; }
      var t := Replayed(front);
      AskedGrows(t, Rcpt(last));
      if last !in front {
        forall j | 0 <= j < |t| ensures t[j] != Rcpt(last) {
          assert t[j].to in AskedOf(t);
        }
      } else {
        assert (set r | r in front) + {last} == set r | r in front;
      }
    }
  }

  /** Where a recipient comes first. */
  function FirstAt(rcpts: seq<string>, r: string): (k: nat)
    requires r in rcpts
    ensures k < |rcpts| && rcpts[k] == r && forall j :: 0 <= j < k ==> rcpts[j] != r
  {
    var front := rcpts[..|rcpts| - 1];
    if r in front then FirstAt(front, r) else |front|
  }

  /** The replay goes through the recipients in the order in which they came first. */
  lemma {:induction false} ReplayedInOrder(rcpts: seq<string>, j: nat, k: nat)
    requires j < k < |Replayed(rcpts)|
    ensures var t := Replayed(rcpts);
            && t[j].Rcpt? && t[k].Rcpt? && t[j].to in rcpts && t[k].to in rcpts
            && FirstAt(rcpts, t[j].to) < FirstAt(rcpts, t[k].to)
  {
    var front, t := rcpts[..|rcpts| - 1], Replayed(rcpts[..|rcpts| - 1]);
    ReplayedAll(front);
    ReplayedAll(rcpts);
    assert forall i :: 0 <= i < |t| ==> t[i].to in AskedOf(t);
    if k == |t| {
    } else {
      ReplayedInOrder(front, j, k);
    }
  }

  // ---- Check states ----

  /** What the runner knows of a check state: the calls it got, and the recipients noted for it. */
  datatype Record = Record(trace: seq<Call>, asked: set<string>)

  /** A call to every state of a group, or a question about a recipient, which is put to a state only once. */
  datatype Op = Plain(call: Call) | Ask(rcpt: string)

  function Do(op: Op, r: Record): Record {
    match op
    case Plain(call) => r.(trace := r.trace + [call])
    case Ask(rcpt) => if rcpt in r.asked then r else Record(r.trace + [Rcpt(rcpt)], r.asked + {rcpt})
  }

  predicate GoodRecord(r: Record) {
    GoodTrace(r.trace) && AskedOf(r.trace) == r.asked
  }

  predicate NoRepeats(list: seq<nat>) {
    forall i, j :: 0 <= i < j < |list| ==> list[i] != list[j]
  }

  ghost predicate Done(before: seq<Record>, after: seq<Record>, group: seq<StateId>, op: Op) {
    |after| == |before| &&
    forall s :: 0 <= s < |before| ==> after[s] == if s in group then Do(op, before[s]) else before[s]
  }

  lemma AskOpen(r: Record, rcpt: string)
    requires GoodRecord(r) && Open(r.trace)
    ensures GoodRecord(Do(Ask(rcpt), r)) && Open(Do(Ask(rcpt), r).trace)
  {
    AskedGrows(r.trace, Rcpt(rcpt));
    Grow(r.trace, Rcpt(rcpt));
  }

  lemma BodyOpen(r: Record)
    requires GoodRecord(r) && Open(r.trace)
    ensures GoodRecord(Do(Plain(Body), r))
  {
    AskedGrows(r.trace, Body);
    Grow(r.trace, Body);
  }

  /** A new state, introduced and asked about these recipients. */
  function Introduced(from: string, rcpts: seq<string>): Record {
    Record([Connection, Sender(from)] + Replayed(rcpts), set r | r in rcpts)
  }

  lemma IntroducedNext(from: string, rcpts: seq<string>, i: nat)
    requires i < |rcpts|
    ensures Do(Ask(rcpts[i]), Introduced(from, rcpts[..i])) == Introduced(from, rcpts[..i + 1])
  {
    var front, next := rcpts[..i], rcpts[..i + 1];
    assert next == front + [rcpts[i]] && next[..i] == front;
    assert (set r | r in next) == (set r | r in front) + {rcpts[i]};
    if rcpts[i] !in front {
      assert [Connection, Sender(from)] + Replayed(next)
             == [Connection, Sender(from)] + Replayed(front) + [Rcpt(rcpts[i])];
    }
  }

  ghost predicate AllGood(records: seq<Record>) {
    forall s :: 0 <= s < |records| ==> GoodRecord(records[s])
  }

  /** Good records, the group open, other states as they were. */
  ghost predicate Holding(before: seq<Record>, now: seq<Record>, group: seq<StateId>) {
    && |before| <= |now| && AllGood(now)
    && (forall i :: 0 <= i < |group| ==> group[i] < |now| && Open(now[group[i]].trace))
    && (forall s :: 0 <= s < |before| && s !in group ==> now[s] == before[s])
  }

  /** A replay so far: all states of the group have been asked, and new ones nothing else. */
  ghost predicate Replaying(before: seq<Record>, now: seq<Record>, group: seq<StateId>, from: string,
                            rcpts: seq<string>) {
    && Holding(before, now, group)
    && (forall i :: 0 <= i < |group| ==> forall r :: r in rcpts ==> r in now[group[i]].asked)
    && (forall i :: 0 <= i < |group| && group[i] >= |before| ==> now[group[i]] == Introduced(from, rcpts))
  }

  lemma ReplayNext(before: seq<Record>, now: seq<Record>, next: seq<Record>, group: seq<StateId>, from: string,
                   rcpts: seq<string>, i: nat)
    requires i < |rcpts| && Replaying(before, now, group, from, rcpts[..i]) && Done(now, next, group, Ask(rcpts[i]))
    ensures Replaying(before, next, group, from, rcpts[..i + 1])
  {
    assert rcpts[..i + 1] == rcpts[..i] + [rcpts[i]];
    forall s | 0 <= s < |next| ensures GoodRecord(next[s]) {
      if s in group { AskOpen(now[s], rcpts[i]); }
    }
    forall k | 0 <= k < |group| ensures Open(next[group[k]].trace) {
      AskOpen(now[group[k]], rcpts[i]);
    }
    IntroducedNext(from, rcpts, i);
  }

  /** Every trace ever made is good; the current states differ, and are open until their check got the body. */
  ghost predicate Consistent(records: seq<Record>, states: map<Check, StateId>, bodied: set<Check>) {
    && AllGood(records)
    && (forall c :: c in states ==> states[c] < |records| && (c !in bodied ==> Open(records[states[c]].trace)))
    && (forall c, c' :: c in states && c' in states && c != c' ==> states[c] != states[c'])
  }

  /** The states of the checks so far: known ones, and new ones numbered from the end of the records. */
  ghost predicate Collected(before: seq<Record>, now: seq<Record>, states: map<Check, StateId>, checks: seq<Check>,
                            group: seq<StateId>, newStates: seq<StateId>, newMap: map<Check, StateId>) {
    forall n :: Unfold(n) ==>
      && |now| == |before| + |newStates| && now[..|before|] == before && |group| == |checks|
      && (forall k :: 0 <= k < |newStates| ==> newStates[k] == |before| + k && now[newStates[k]] == Record([], {}))
      && (newStates == [] <==> newMap == map[])
      && (forall c :: c in newMap ==> c in checks && c !in states && |before| <= newMap[c] < |now|)
      && (forall c, c' :: c in newMap && c' in newMap && c != c' ==> newMap[c] != newMap[c'])
      && (forall k :: 0 <= k < |checks| ==>
            if checks[k] in states then group[k] == states[checks[k]]
            else checks[k] in newMap && group[k] == newMap[checks[k]])
  }

  lemma CollectNothing(before: seq<Record>, states: map<Check, StateId>)
    ensures Collected(before, before, states, [], [], [], map[])
  {
  }

  lemma CollectKnown(before: seq<Record>, now: seq<Record>, states: map<Check, StateId>, checks: seq<Check>,
                     group: seq<StateId>, newStates: seq<StateId>, newMap: map<Check, StateId>, check: Check)
    requires Collected(before, now, states, checks, group, newStates, newMap) && check in states
    ensures Collected(before, now, states, checks + [check], group + [states[check]], newStates, newMap)
  {
    assert Unfold(0);
  }

  lemma CollectNew(before: seq<Record>, now: seq<Record>, states: map<Check, StateId>, checks: seq<Check>,
                   group: seq<StateId>, newStates: seq<StateId>, newMap: map<Check, StateId>, check: Check)
    requires Collected(before, now, states, checks, group, newStates, newMap) && check !in states && check !in checks
    ensures Collected(before, now + [Record([], {})], states, checks + [check], group + [|now|], newStates + [|now|],
                      newMap[check := |now|])
  {
    assert Unfold(0);
  }

  lemma CollectedDiffer(before: seq<Record>, now: seq<Record>, states: map<Check, StateId>, bodied: set<Check>,
                        checks: seq<Check>,
                        group: seq<StateId>, newStates: seq<StateId>, newMap: map<Check, StateId>)
    requires Consistent(before, states, bodied) && NoRepeats(checks)
    requires Collected(before, now, states, checks, group, newStates, newMap)
    ensures NoRepeats(group) && NoRepeats(newStates)
    ensures newStates == [] ==> now == before
    ensures newStates == [] <==> forall c :: c in checks ==> c in states
  {
    assert Unfold(0);
    if newStates == [] { assert now == now[..|before|]; } else { assert exists c :: c in newMap; }
  }

  /** With the new states entered, the checks have the states of the group, and the others keep theirs. */
  lemma CollectedStates(before: seq<Record>, now: seq<Record>, states: map<Check, StateId>, checks: seq<Check>,
                        group: seq<StateId>, newStates: seq<StateId>, newMap: map<Check, StateId>)
    requires Collected(before, now, states, checks, group, newStates, newMap)
    ensures |group| == |checks|
    ensures forall k :: 0 <= k < |checks| ==>
              checks[k] in states + newMap && (states + newMap)[checks[k]] == group[k]
    ensures forall c :: c in states ==> (states + newMap)[c] == states[c]
    ensures newStates == [] ==> states + newMap == states
  {
    assert Unfold(0);
  }

  /** With the new states entered, everything is consistent again. */
  lemma Entered(before: seq<Record>, now: seq<Record>, states: map<Check, StateId>, bodied: set<Check>,
                checks: seq<Check>,
                group: seq<StateId>, newMap: map<Check, StateId>)
    requires Consistent(before, states, bodied) && Holding(before, now, group)
    requires forall c :: c in newMap ==> c in checks && c !in states && |before| <= newMap[c] < |now|
    requires forall c, c' :: c in newMap && c' in newMap && c != c' ==> newMap[c] != newMap[c']
    requires |group| == |checks| && forall k :: 0 <= k < |checks| ==>
               if checks[k] in states then group[k] == states[checks[k]]
               else checks[k] in newMap && group[k] == newMap[checks[k]]
    ensures Consistent(now, states, bodied) && Consistent(now, states + newMap, bodied)
    ensures Untouched(before, now, states, checks)
  {
    assert forall c :: c in states && c !in checks ==> states[c] !in group;
    forall c | c in states + newMap
      ensures (states + newMap)[c] < |now| && (c !in bodied ==> Open(now[(states + newMap)[c]].trace))
    {
      if c in newMap {
        var k :| 0 <= k < |checks| && checks[k] == c;
        assert group[k] == newMap[c];
      } else if states[c] in group {
        var k :| 0 <= k < |group| && group[k] == states[c];
        assert Open(now[group[k]].trace);
      }
    }
  }

  /** The states of other checks get no call. */
  ghost predicate Untouched(before: seq<Record>, now: seq<Record>, states: map<Check, StateId>, checks: seq<Check>) {
    forall n :: Unfold(n) ==>
      |before| <= |now| &&
      forall c :: c in states && c !in checks ==> states[c] < |before| && now[states[c]] == before[states[c]]
  }

  lemma UntouchedOn(before: seq<Record>, now: seq<Record>, next: seq<Record>, known: map<Check, StateId>,
                    states: map<Check, StateId>, checks: seq<Check>)
    requires Untouched(before, now, known, checks) && Untouched(now, next, states, checks)
    requires forall c :: c in known ==> c in states && states[c] == known[c]
    ensures Untouched(before, next, known, checks)
  {
    assert Unfold(0);
  }

  /** States that were made now: introduced, asked about all these recipients, and nothing else. */
  ghost predicate Welcomed(now: seq<Record>, states: map<Check, StateId>, known: map<Check, StateId>,
                           checks: seq<Check>, r: Record) {
    forall n :: Unfold(n) ==>
      forall c :: c in checks && c !in known ==> c in states && states[c] < |now| && now[states[c]] == r
  }

  lemma NewWelcomed(before: seq<Record>, now: seq<Record>, states: map<Check, StateId>, checks: seq<Check>,
                    group: seq<StateId>, newMap: map<Check, StateId>, from: string, rcpts: seq<string>)
    requires Replaying(before, now, group, from, rcpts) && |group| == |checks|
    requires forall c :: c in newMap ==> c in checks && c !in states && |before| <= newMap[c] < |now|
    requires forall k :: 0 <= k < |checks| ==>
               if checks[k] in states then group[k] == states[checks[k]]
               else checks[k] in newMap && group[k] == newMap[checks[k]]
    ensures Welcomed(now, states + newMap, states, checks, Introduced(from, rcpts))
  {
    forall c | c in checks && c !in states ensures c in newMap && now[newMap[c]] == Introduced(from, rcpts) {
      var k :| 0 <= k < |checks| && checks[k] == c;
      assert group[k] == newMap[c];
    }
  }

  lemma GroupDone(now: seq<Record>, next: seq<Record>, states: map<Check, StateId>, known: map<Check, StateId>,
                  checks: seq<Check>,
                  group: seq<StateId>, op: Op, r: Record)
    requires Welcomed(now, states, known, checks, r) && Done(now, next, group, op)
    requires forall c :: c in checks ==> c in states && states[c] in group
    ensures Welcomed(next, states, known, checks, Do(op, r))
  {
    assert Unfold(0);
  }

  lemma Extended(before: seq<Record>, now: seq<Record>, states: map<Check, StateId>, bodied: set<Check>)
    requires Consistent(before, states, bodied) && AllGood(now) && |before| <= |now|
    requires forall s :: 0 <= s < |before| ==> now[s] == before[s]
    ensures Consistent(now, states, bodied)
  {
  }

  /** New states after the first call, and after the second. */
  lemma Introduce(before: seq<Record>, r0: seq<Record>, r1: seq<Record>, newStates: seq<StateId>, from: string)
    requires |before| <= |r0| && AllGood(before) && r0[..|before|] == before && |r0| == |before| + |newStates|
    requires forall k :: 0 <= k < |newStates| ==> newStates[k] == |before| + k && r0[newStates[k]] == Record([], {})
    requires Done(r0, r1, newStates, Plain(Connection))
    ensures AllGood(r1) && forall s :: 0 <= s < |before| ==> r1[s] == before[s]
    ensures forall s :: |before| <= s < |r1| ==> r1[s] == Record([Connection], {})
  {
    forall s | 0 <= s < |r1| ensures s < |before| ==> s !in newStates && r1[s] == before[s]
                             ensures s >= |before| ==> r1[s] == Record([Connection], {})
    {
      if s >= |before| { assert newStates[s - |before|] == s; }
      assert r0[..|before|][..] == before;
    }
  }

  lemma IntroduceSender(before: seq<Record>, r1: seq<Record>, r2: seq<Record>, group: seq<StateId>,
                        newStates: seq<StateId>, from: string)
    requires |before| <= |r1| && AllGood(before) && (forall s :: 0 <= s < |before| ==> r1[s] == before[s])
    requires forall s :: |before| <= s < |r1| ==> r1[s] == Record([Connection], {})
    requires |r1| == |before| + |newStates| && forall k :: 0 <= k < |newStates| ==> newStates[k] == |before| + k
    requires Done(r1, r2, newStates, Plain(Sender(from)))
    requires forall i :: 0 <= i < |group| ==> group[i] < |r1| && (group[i] < |before| ==> Open(before[group[i]].trace))
    ensures Replaying(before, r2, group, from, []) && forall s :: 0 <= s < |before| ==> r2[s] == before[s]
  {
    assert [Connection, Sender(from)] + [] == [Connection] + [Sender(from)];
    forall s | 0 <= s < |r2| ensures s < |before| ==> r2[s] == before[s]
                             ensures s >= |before| ==> r2[s] == Introduced(from, [])
    {
      if s >= |before| { assert newStates[s - |before|] == s; }
    }
  }

  /** Nothing is taken back: calls come behind those that were, and no recipients but these are asked about. */
  ghost predicate Grown(before: seq<Record>, now: seq<Record>, rcpts: set<string>) {
    forall n :: Unfold(n) ==>
      |before| <= |now| &&
      forall s :: 0 <= s < |before| ==> before[s].trace <= now[s].trace && now[s].asked <= before[s].asked + rcpts
  }

  lemma DoneGrown(before: seq<Record>, now: seq<Record>, next: seq<Record>, group: seq<StateId>, op: Op,
                  rcpts: set<string>, more: set<string>)
    requires Grown(before, now, rcpts) && Done(now, next, group, op) && rcpts <= more && (op.Ask? ==> op.rcpt in more)
    ensures Grown(before, next, more)
  {
    assert Unfold(0);
  }

  lemma GrownOn(a: seq<Record>, b: seq<Record>, c: seq<Record>, rcpts: set<string>)
    requires Grown(a, b, {}) && Grown(b, c, rcpts)
    ensures Grown(a, c, rcpts)
  {
    assert Unfold(0);
  }

  lemma SameGrown(before: seq<Record>, now: seq<Record>, rcpts: set<string>)
    requires |before| <= |now| && forall s :: 0 <= s < |before| ==> now[s] == before[s]
    ensures Grown(before, now, rcpts)
  {
  }

  lemma MoreGrown(before: seq<Record>, now: seq<Record>, rcpts: set<string>, more: set<string>)
    requires Grown(before, now, rcpts) && rcpts <= more
    ensures Grown(before, now, more)
  {
    assert Unfold(0);
  }

  /**
   The checks have the states of the group, and those that had one the same as before. Without a new one nothing
   happened to them; with one, all of them have been asked about every recipient so far.
   */
  ghost predicate Prepared(before: seq<Record>, now: seq<Record>, known: map<Check, StateId>,
                           states: map<Check, StateId>, checks: seq<Check>, group: seq<StateId>, from: string,
                           rcpts: seq<string>) {
    forall n :: Unfold(n) ==>
      && NoRepeats(group) && |group| == |checks|
      && (forall k :: 0 <= k < |checks| ==>
            checks[k] in states && states[checks[k]] == group[k] && group[k] < |now|)
      && (forall c :: c in known ==> c in states && states[c] == known[c])
      && ((forall c :: c in checks ==> c in known) ==> now == before && states == known)
      && ((exists c :: c in checks && c !in known) ==> Replaying(before, now, group, from, rcpts))
  }

  lemma PreparedGroup(before: seq<Record>, now: seq<Record>, known: map<Check, StateId>, states: map<Check, StateId>,
                      checks: seq<Check>, group: seq<StateId>, from: string, rcpts: seq<string>)
    requires Prepared(before, now, known, states, checks, group, from, rcpts)
    ensures NoRepeats(group) && forall i :: 0 <= i < |group| ==> group[i] < |now|
    ensures forall c :: c in checks ==> c in states
  {
    assert Unfold(0);
  }

  /** The group is asked about a recipient. */
  lemma RcptAsked(before: seq<Record>, now: seq<Record>, next: seq<Record>, known: map<Check, StateId>,
                  states: map<Check, StateId>, bodied: set<Check>, checks: seq<Check>, group: seq<StateId>,
                  from: string, rcpts: seq<string>, rcpt: string)
    requires Consistent(now, states, bodied) && Prepared(before, now, known, states, checks, group, from, rcpts)
    requires Untouched(before, now, known, checks) && Done(now, next, group, Ask(rcpt))
    requires Welcomed(now, states, known, checks, Introduced(from, rcpts)) && forall c :: c in checks ==> c !in bodied
    ensures Consistent(next, states, bodied) && Untouched(before, next, known, checks)
    ensures forall c :: c in checks ==> c in states && rcpt in next[states[c]].asked
    ensures Welcomed(next, states, known, checks, Do(Ask(rcpt), Introduced(from, rcpts)))
  {
    assert Unfold(0);
    OpenStay(now, next, group, rcpt, states, bodied, checks);
    UntouchedOn(before, now, next, known, states, checks);
    GroupDone(now, next, states, known, checks, group, Ask(rcpt), Introduced(from, rcpts));
  }

  /** The group gets the body. */
  lemma BodyDone(before: seq<Record>, now: seq<Record>, next: seq<Record>, known: map<Check, StateId>,
                 states: map<Check, StateId>, bodied: set<Check>, checks: seq<Check>, group: seq<StateId>,
                 from: string, rcpts: seq<string>)
    requires Consistent(now, states, bodied) && Prepared(before, now, known, states, checks, group, from, rcpts)
    requires Untouched(before, now, known, checks) && Done(now, next, group, Plain(Body))
    requires Welcomed(now, states, known, checks, Introduced(from, rcpts)) && forall c :: c in checks ==> c !in bodied
    ensures Consistent(next, states, bodied + Elements(checks)) && Untouched(before, next, known, checks)
    ensures AllEndWithBody(next, states, checks)
    ensures Welcomed(next, states, known, checks, Do(Plain(Body), Introduced(from, rcpts)))
  {
    assert Unfold(0);
    BodyGiven(now, next, group, states, bodied, checks);
    UntouchedOn(before, now, next, known, states, checks);
    GroupDone(now, next, states, known, checks, group, Plain(Body), Introduced(from, rcpts));
  }

  class CheckRunner {
    var mailFrom: string
    var mailFromReceived: bool
    var checkedRcpts: seq<string>
    var states: map<Check, StateId>
    var records: seq<Record>         // one for every state ever made
    ghost var bodied: set<Check>     // checks that were given the body

    ghost predicate Valid()
      reads this
    {
      Consistent(records, states, bodied)
    }

    constructor ()
      ensures Valid() && !mailFromReceived && bodied == {} && states == map[] && checkedRcpts == [] && records == []
    {
      mailFrom, mailFromReceived, checkedRcpts := "", false, [];
      states, records, bodied := map[], [], {};
    }

    /** runAndMergeResults: every state of the group gets the call; what the checks answer is arbitrary. */
    method RunAll(group: seq<StateId>, op: Op) returns (err: bool)
      requires NoRepeats(group) && forall i :: 0 <= i < |group| ==> group[i] < |records|
      modifies `records
      ensures Done(old(records), records, group, op)
    {
      ghost var before, done: seq<StateId> := records, [];
      for i := 0 to |group|
        invariant done == group[..i] && Done(before, records, done, op)
      {
        var s := group[i];
        assert s !in done;
        records := records[s := Do(op, records[s])];
        done := done + [s];
      }
      assert done == group;
      err := *;
    }

    /** Puts every recorded recipient to every state of the group, stopping at an error. */
    method Replay(group: seq<StateId>, ghost before: seq<Record>) returns (err: bool)
      requires NoRepeats(group) && Replaying(before, records, group, mailFrom, [])
      modifies `records
      ensures Holding(before, records, group) && |records| == |old(records)|
      ensures Grown(old(records), records, set r | r in checkedRcpts)
      ensures !err ==> Replaying(before, records, group, mailFrom, checkedRcpts)
    {
      err := false;
      ghost var all := set r | r in checkedRcpts;
      SameGrown(records, records, all);
      for j := 0 to |checkedRcpts|
        invariant Replaying(before, records, group, mailFrom, checkedRcpts[..j]) && |records| == |old(records)|
        invariant Grown(old(records), records, all)
      {
        ghost var now := records;
        err := RunAll(group, Ask(checkedRcpts[j]));
        DoneGrown(old(records), now, records, group, Ask(checkedRcpts[j]), all, all);
        ReplayNext(before, now, records, group, mailFrom, checkedRcpts, j);
        if err {
          return;
        }
      }
      assert checkedRcpts[..|checkedRcpts|] == checkedRcpts;
      err := false;
    }

    /** Makes states for the checks that have none. */
    method Collect(checks: seq<Check>)
      returns (ok: bool, group: seq<StateId>, newStates: seq<StateId>, newMap: map<Check, StateId>)
      requires Valid() && NoRepeats(checks)
      modifies `records
      ensures AllGood(records) && |old(records)| <= |records|
      ensures forall s :: 0 <= s < |old(records)| ==> records[s] == old(records)[s]
      ensures ok ==> Collected(old(records), records, states, checks, group, newStates, newMap)
    {
      group, newStates, newMap := [], [], map[];
      ghost var before, done: seq<Check> := records, [];
      CollectNothing(before, states);
      for i := 0 to |checks|
        invariant done == checks[..i] && AllGood(records) && |before| <= |records|
        invariant forall s :: 0 <= s < |before| ==> records[s] == before[s]
        invariant Collected(before, records, states, done, group, newStates, newMap)
      {
        var check := checks[i];
        assert check !in done;
        if check in states {
          CollectKnown(before, records, states, done, group, newStates, newMap, check);
          done := done + [check];
          group := group + [states[check]];
          continue;
        }
        var fails: bool := *;
        if fails {
          return false, group, newStates, newMap;
        }
        var state := |records|;
        CollectNew(before, records, states, done, group, newStates, newMap, check);
        done := done + [check];
        records := records + [Record([], {})];
        group := group + [state];
        newStates := newStates + [state];
        newMap := newMap[check := state];
      }
      assert done == checks;
      ok := true;
    }

    /** Introduces the new states to the connection and the sender. */
    method Welcome(group: seq<StateId>, newStates: seq<StateId>, ghost before: seq<Record>) returns (err: bool)
      requires |before| <= |records| && AllGood(before) && records[..|before|] == before
      requires |records| == |before| + |newStates|
      requires forall k :: 0 <= k < |newStates| ==>
                newStates[k] == |before| + k && records[newStates[k]] == Record([], {})
      requires forall i :: 0 <= i < |group| ==>
                group[i] < |records| && (group[i] < |before| ==> Open(before[group[i]].trace))
      modifies `records
      ensures |records| == |old(records)| && AllGood(records)
      ensures forall s :: 0 <= s < |before| ==> records[s] == before[s]
      ensures !err ==> Replaying(before, records, group, mailFrom, [])
      ensures Grown(before, records, {})
    {
      ghost var r0 := records;
      err := RunAll(newStates, Plain(Connection));
      Introduce(before, r0, records, newStates, mailFrom);
      SameGrown(before, records, {});
      if err {
        return;
      }
      ghost var r1 := records;
      err := RunAll(newStates, Plain(Sender(mailFrom)));
      IntroduceSender(before, r1, records, group, newStates, mailFrom);
      SameGrown(before, records, {});
    }

    /** Introduction and replay for a list with new states. */
    method Settle(checks: seq<Check>, group: seq<StateId>, newStates: seq<StateId>, newMap: map<Check, StateId>,
                  ghost before: seq<Record>)
      returns (err: bool)
      requires Consistent(before, states, bodied)
      requires Collected(before, records, states, checks, group, newStates, newMap)
      requires NoRepeats(group) && NoRepeats(newStates) && forall c :: c in checks ==> c !in bodied
      modifies `records
      ensures |records| == |old(records)| && Consistent(records, states, bodied)
      ensures Untouched(before, records, states, checks) && Grown(before, records, set r | r in checkedRcpts)
      ensures !err ==> Consistent(records, states + newMap, bodied)
      ensures !err ==> Replaying(before, records, group, mailFrom, checkedRcpts)
      ensures !err ==> Welcomed(records, states + newMap, states, checks, Introduced(mailFrom, checkedRcpts))
    {
      assert Unfold(0);
      err := Welcome(group, newStates, before);
      Extended(before, records, states, bodied);
      ghost var welcomed, all := records, set r | r in checkedRcpts;
      if err {
        MoreGrown(before, records, {}, all);
        return;
      }
      err := Replay(group, before);
      GrownOn(before, welcomed, records, all);
      Entered(before, records, states, bodied, checks, group, newMap);
      if !err { NewWelcomed(before, records, states, checks, group, newMap, mailFrom, checkedRcpts); }
    }

    /**
     The states of the checks. States made on the way are introduced to the connection and the sender
     and, like all states of the list, asked about every recipient recorded so far.
     */
    method CheckStates(checks: seq<Check>) returns (ok: bool, group: seq<StateId>)
      requires Valid() && mailFromReceived && NoRepeats(checks) && forall c :: c in checks ==> c !in bodied
      modifies `records, `states
      ensures Valid() && Untouched(old(records), records, old(states), checks)
      ensures Grown(old(records), records, set r | r in checkedRcpts)
      ensures !ok ==> states == old(states)
      ensures ok ==> Prepared(old(records), records, old(states), states, checks, group, mailFrom, checkedRcpts)
      ensures ok ==> Welcomed(records, states, old(states), checks, Introduced(mailFrom, checkedRcpts))
    {
      ghost var before := records;
      var newStates, newMap;
      ok, group, newStates, newMap := Collect(checks);
      Extended(before, records, states, bodied);
      SameGrown(before, records, set r | r in checkedRcpts);
      if !ok {
        return;
      }
      CollectedDiffer(before, records, states, bodied, checks, group, newStates, newMap);
      CollectedStates(before, records, states, checks, group, newStates, newMap);
      if |newStates| == 0 {
        return;
      }
      var err := Settle(checks, group, newStates, newMap, before);
      if err {
        return false, group;
      }
      states := states + newMap;
    }

    method CheckConnSender(checks: seq<Check>, from: string) returns (err: bool)
      requires Valid() && NoRepeats(checks) && forall c :: c in checks ==> c !in bodied
      modifies this
      ensures Valid() && mailFromReceived && mailFrom == from && bodied == old(bodied)
      ensures checkedRcpts == old(checkedRcpts)
      ensures Untouched(old(records), records, old(states), checks)
      ensures Grown(old(records), records, set r | r in checkedRcpts)
      ensures err ==> states == old(states)
      ensures !err ==> forall c :: c in checks ==> c in states
      ensures !err ==> Welcomed(records, states, old(states), checks, Introduced(from, checkedRcpts))
    {
      mailFrom := from;
      mailFromReceived := true;
      var ok, group := CheckStates(checks);
      if ok { PreparedGroup(old(records), records, old(states), states, checks, group, from, checkedRcpts); }
      err := !ok;
    }

    /**
     A recipient. When the states could be prepared every one of them is asked, unless it was before,
     and the recipient is recorded, whatever the checks answer.
     */
    method CheckRcpt(checks: seq<Check>, rcpt: string) returns (err: bool, ghost prepared: bool)
      requires Valid() && mailFromReceived && NoRepeats(checks) && forall c :: c in checks ==> c !in bodied
      modifies `records, `states, `checkedRcpts
      ensures Valid() && Untouched(old(records), records, old(states), checks)
      ensures Grown(old(records), records, (set r | r in old(checkedRcpts)) + {rcpt})
      ensures !prepared ==> err && states == old(states) && checkedRcpts == old(checkedRcpts)
      ensures prepared ==> checkedRcpts == old(checkedRcpts) + [rcpt]
      ensures prepared ==> forall c :: c in checks ==> c in states && rcpt in records[states[c]].asked
      ensures prepared ==>
                Welcomed(records, states, old(states), checks, Do(Ask(rcpt), Introduced(mailFrom, old(checkedRcpts))))
    {
      var ok, group := CheckStates(checks);
      prepared := ok;
      ghost var all := set r | r in checkedRcpts;
      if !ok {
        MoreGrown(old(records), records, all, all + {rcpt});
        return true, false;
      }
      ghost var now := records;
      PreparedGroup(old(records), records, old(states), states, checks, group, mailFrom, checkedRcpts);
      err := RunAll(group, Ask(rcpt));
      DoneGrown(old(records), now, records, group, Ask(rcpt), all, all + {rcpt});
      RcptAsked(old(records), now, records, old(states), states, bodied, checks, group, mailFrom, checkedRcpts, rcpt);
      checkedRcpts := checkedRcpts + [rcpt];
    }

    /** The body, as the last call of every state of the list. */
    method CheckBody(checks: seq<Check>) returns (err: bool, ghost prepared: bool)
      requires Valid() && mailFromReceived && NoRepeats(checks) && forall c :: c in checks ==> c !in bodied
      modifies `records, `states, `bodied
      ensures Valid() && Untouched(old(records), records, old(states), checks)
      ensures Grown(old(records), records, set r | r in checkedRcpts)
      ensures !prepared ==> err && states == old(states) && bodied == old(bodied)
      ensures prepared ==> bodied == old(bodied) + Elements(checks)
      ensures prepared ==> AllEndWithBody(records, states, checks)
      ensures prepared ==>
                Welcomed(records, states, old(states), checks, Do(Plain(Body), Introduced(mailFrom, checkedRcpts)))
    {
      var ok, group := CheckStates(checks);
      prepared := ok;
      if !ok {
        return true, false;
      }
      ghost var now, all := records, set r | r in checkedRcpts;
      PreparedGroup(old(records), records, old(states), states, checks, group, mailFrom, checkedRcpts);
      err := RunAll(group, Plain(Body));
      DoneGrown(old(records), now, records, group, Plain(Body), all, all);
      BodyDone(old(records), now, records, old(states), states, bodied, checks, group, mailFrom, checkedRcpts);
      bodied := bodied + Elements(checks);
    }
  }

  ghost predicate AllEndWithBody(now: seq<Record>, states: map<Check, StateId>, checks: seq<Check>) {
    forall c :: c in checks ==> c in states && states[c] < |now| && EndsWithBody(now[states[c]].trace)
  }

  predicate EndsWithBody(t: seq<Call>) {
    t != [] && t[|t| - 1] == Body
  }

  lemma OpenStay(now: seq<Record>, next: seq<Record>, group: seq<StateId>, rcpt: string, states: map<Check, StateId>,
                 bodied: set<Check>, checks: seq<Check>)
    requires Consistent(now, states, bodied) && Done(now, next, group, Ask(rcpt)) && |group| == |checks|
    requires forall k :: 0 <= k < |checks| ==>
              checks[k] in states && states[checks[k]] == group[k] && checks[k] !in bodied
    ensures Consistent(next, states, bodied) && Untouched(now, next, states, checks)
    ensures forall c :: c in checks ==> states[c] in group && rcpt in next[states[c]].asked
  {
    forall s | 0 <= s < |now| ensures GoodRecord(next[s]) && (Open(now[s].trace) ==> Open(next[s].trace)) {
      if s in group {
        var k :| 0 <= k < |group| && group[k] == s;
        assert states[checks[k]] == s;
        AskOpen(now[s], rcpt);
      }
    }
    assert forall c :: c in states && c !in checks ==> states[c] !in group;
  }

  lemma BodyGiven(now: seq<Record>, next: seq<Record>, group: seq<StateId>, states: map<Check, StateId>,
                  bodied: set<Check>, checks: seq<Check>)
    requires Consistent(now, states, bodied) && Done(now, next, group, Plain(Body)) && |group| == |checks|
    requires forall k :: 0 <= k < |checks| ==>
              checks[k] in states && states[checks[k]] == group[k] && checks[k] !in bodied
    ensures Consistent(next, states, bodied + Elements(checks)) && Untouched(now, next, states, checks)
    ensures (forall c :: c in checks ==> states[c] in group) && AllEndWithBody(next, states, checks)
  {
    assert forall c :: c in states && c !in checks ==> states[c] !in group;
    forall s | 0 <= s < |now| ensures GoodRecord(next[s]) {
      if s in group {
        var k :| 0 <= k < |group| && group[k] == s;
        assert states[checks[k]] == s;
        BodyOpen(now[s]);
      }
    }
    forall c | c in states && c !in bodied + Elements(checks) ensures Open(next[states[c]].trace) {
      assert states[c] !in group;
    }
  }
}
