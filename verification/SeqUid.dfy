/**
 Translation between sequence numbers and UIDs over one session's `uidMap`
 (internal/go-imap-mess/sequid.go). A zero bound stands for `*`.
 */
module SeqUid {
  import opened Uids

  datatype Range = Range(start: Uint32, stop: Uint32)

  const USELESS := Range(MAX_UINT32, MAX_UINT32)

  /** How many leading entries lie below `u`. */
  function LowerBound(m: seq<nat>, u: nat): (r: nat)
    ensures r <= |m|
    ensures forall p :: 0 <= p < r ==> m[p] < u
    ensures r < |m| ==> m[r] >= u
  {
    if m == [] || m[0] >= u then 0
    else
      var r := LowerBound(m[1..], u);
      assert forall p :: 1 <= p < r + 1 ==> m[p] == m[1..][p - 1];
      r + 1
  }

  /** Where halving the stretch from `i` to `j` ends, on any list. */
  function Halved(m: seq<nat>, u: nat, i: nat, j: nat): (r: nat)
    requires i <= j <= |m|
    ensures i <= r <= j && (r < j ==> m[r] >= u) && (r > i ==> m[r - 1] < u)
    decreases j - i
  {
    if i == j then i
    else
      var h := (i + j) / 2;
      if m[h] < u then Halved(m, u, h + 1, j) else Halved(m, u, i, h)
  }

  /** `sort.Search` for an entry at or above `u`, on any list. */
  method Search(m: seq<nat>, u: nat) returns (i: nat)
    ensures i == Halved(m, u, 0, |m|)
    ensures Ascending(m) ==> i == LowerBound(m, u)
  {
    i := 0;
    var j := |m|;
    while i < j
      invariant 0 <= i <= j <= |m|
      invariant Halved(m, u, i, j) == Halved(m, u, 0, |m|)
    {
      var h := (i + j) / 2;
      if m[h] < u {
        i := h + 1;
      } else {
        j := h;
      }
    }
    if Ascending(m) { HalvedAscending(m, u); }
  }

  /** On an ascending list halving finds the first such entry. */
  lemma {:induction false} HalvedAscending(m: seq<nat>, u: nat)
    requires Ascending(m)
    ensures Halved(m, u, 0, |m|) == LowerBound(m, u)
  {
    LowerBoundIs(m, u, Halved(m, u, 0, |m|));
  }

  /** An entry at or above `u`, with one below it in front. */
  predicate Splits(m: seq<nat>, u: nat, i: nat) {
    i <= |m| && (i < |m| ==> m[i] >= u) && (i > 0 ==> m[i - 1] < u)
  }

  lemma {:induction false} LowerBoundIs(m: seq<nat>, u: nat, i: nat)
    requires Ascending(m) && Splits(m, u, i)
    ensures LowerBound(m, u) == i
  {
    forall p | 0 <= p < i ensures m[p] < u { assert m[p] <= m[i - 1]; }
    forall p | i <= p < |m| ensures m[p] >= u { assert m[i] <= m[p]; }
    LowerBoundUnique(m, u, i);
  }

  lemma {:induction false} LowerBoundUnique(m: seq<nat>, u: nat, i: nat)
    requires i <= |m|
    requires forall p :: 0 <= p < i ==> m[p] < u
    requires forall p :: i <= p < |m| ==> m[p] >= u
    ensures LowerBound(m, u) == i
  {
    var r := LowerBound(m, u);
    assert r < |m| ==> m[r] >= u;
    assert i < |m| ==> m[i] >= u;
  }

  /**
   The number under which a single UID is reported. In an ascending map it is the UID's own or that of
   the next message above it.
   */
  function NumberOf(m: seq<nat>, u: nat): (r: Option<nat>)
    ensures r.Some? ==> 1 <= r.value <= |m|
  {
    if m == [] || u < m[0] || u > m[|m| - 1] then None else Some(Halved(m, u, 0, |m|) + 1)
  }

  /** The position of a lower bound; `*` is the last. */
  function StartAt(m: seq<nat>, a: nat): (p: nat)
    requires m != [] && a <= m[|m| - 1]
    ensures 1 <= p <= |m|
  {
    if a == 0 then |m| else if a < m[0] then 1 else Halved(m, a, 0, |m|) + 1
  }

  /** The position of an upper bound. */
  function StopAt(m: seq<nat>, b: nat): (p: nat)
    requires m != []
    ensures p <= |m|
  {
    if b == 0 || b > m[|m| - 1] then |m|
    else
      var i := Halved(m, b, 0, |m|);
      if m[i] == b then i + 1 else i
  }

  /** A range of UIDs as positions, in any map. */
  function Translated(m: seq<nat>, r: Range): (t: Option<Range>)
    requires |m| < MAX_UINT32
  {
    if m == [] || r.start > m[|m| - 1] || (0 < r.stop <= m[|m| - 1] && r.stop < m[0]) then None
    else if 0 < r.start == r.stop then Some(Range(StartAt(m, r.start), StartAt(m, r.start)))
    else if StartAt(m, r.start) > StopAt(m, r.stop) then None
    else Some(Range(StartAt(m, r.start), StopAt(m, r.stop)))
  }

  predicate Between(r: Range, u: nat) {
    r.start <= u && (r.stop == 0 || u <= r.stop)
  }

  lemma StartIs(m: seq<nat>, a: nat)
    requires Ascending(m) && m != [] && 0 < a <= m[|m| - 1]
    ensures forall p :: 0 <= p < |m| ==> (StartAt(m, a) <= p + 1 <==> a <= m[p])
  {
    forall p | 0 <= p < |m| ensures StartAt(m, a) <= p + 1 <==> a <= m[p] { StartIsAt(m, a, p); }
  }

  lemma StartIsAt(m: seq<nat>, a: nat, p: nat)
    requires Ascending(m) && p < |m| && 0 < a <= m[|m| - 1]
    ensures StartAt(m, a) <= p + 1 <==> a <= m[p]
  {
    SplitsAt(m, a, Halved(m, a, 0, |m|), p);
  }

  lemma SplitsAt(m: seq<nat>, u: nat, i: nat, p: nat)
    requires Ascending(m) && p < |m| && Splits(m, u, i)
    ensures i <= p <==> u <= m[p]
  {
    if p < i {
      assert m[p] <= m[i - 1];
    } else if i < p {
      assert m[i] < m[p];
    }
  }

  lemma StopIs(m: seq<nat>, b: nat)
    requires Ascending(m) && m != []
    ensures forall p :: 0 <= p < |m| ==> (p + 1 <= StopAt(m, b) <==> b == 0 || m[p] <= b)
  {
    forall p | 0 <= p < |m| ensures p + 1 <= StopAt(m, b) <==> b == 0 || m[p] <= b { StopIsAt(m, b, p); }
  }

  lemma StopIsAt(m: seq<nat>, b: nat, p: nat)
    requires Ascending(m) && p < |m|
    ensures p + 1 <= StopAt(m, b) <==> b == 0 || m[p] <= b
  {
    if b == 0 || b > m[|m| - 1] {
      assert m[p] <= m[|m| - 1];
    } else {
      var i := Halved(m, b, 0, |m|);
      SplitsAt(m, b, i, p);
      if i < |m| { SplitsAt(m, b, i, i); }
      if i < p { assert m[i] < m[p]; }
    }
  }

  /**
   In an ascending map a UID range a < b becomes exactly the interval of positions whose UIDs lie in
   it, and fails exactly when there are none; so does an open range a:*.
   */
  lemma RangeTranslated(m: seq<nat>, r: Range)
    requires Ascending(m) && |m| < MAX_UINT32 && 0 < r.start && (r.start < r.stop || r.stop == 0)
    ensures Translated(m, r).Some? <==> exists p :: 0 <= p < |m| && Between(r, m[p])
    ensures Translated(m, r).Some? ==>
              forall p :: 0 <= p < |m| ==>
                (Translated(m, r).value.start <= p + 1 <= Translated(m, r).value.stop <==> Between(r, m[p]))
  {
    if m == [] {
    } else if r.start > m[|m| - 1] || 0 < r.stop < m[0] {
      forall p | 0 <= p < |m| ensures !Between(r, m[p]) { assert m[0] <= m[p] <= m[|m| - 1]; }
    } else {
      StartIs(m, r.start);
      StopIs(m, r.stop);
      var p := StartAt(m, r.start) - 1;
      assert Between(r, m[p]) <==> p + 1 <= StopAt(m, r.stop);
    }
  }

  /** Then `*` as lower bound is the last position or fails, and reversed bounds fail. */
  lemma OddTranslated(m: seq<nat>, r: Range)
    requires Ascending(m) && 0 < |m| < MAX_UINT32
    ensures r.start == 0 < r.stop ==>
              Translated(m, r) == if r.stop >= m[|m| - 1] then Some(Range(|m|, |m|)) else None
    ensures r.start > r.stop > 0 ==> Translated(m, r).None?
  {
    StopIs(m, r.stop);
    assert |m| <= StopAt(m, r.stop) <==> r.stop == 0 || m[|m| - 1] <= r.stop;
    if m[|m| - 1] >= r.start > r.stop > 0 {
      StartIs(m, r.start);
      var p := StartAt(m, r.start) - 1;
      assert r.start <= m[p];
    }
  }

  /**
   UIDs to positions: in any map what `Translated` says, whose meaning in an ascending one
   is given with it.
   */
  method UidToSeq(m: seq<nat>, r: Range) returns (out: Range, ok: bool)
    requires |m| < MAX_UINT32
    ensures ok <==> Translated(m, r).Some?
    ensures out == if ok then Translated(m, r).value else USELESS
    ensures ok ==> 1 <= out.start <= out.stop <= |m|
    ensures Ascending(m) && 0 < r.start && (r.start < r.stop || r.stop == 0) ==>
              (ok <==> exists p :: 0 <= p < |m| && Between(r, m[p]))
    ensures Ascending(m) && 0 < r.start && (r.start < r.stop || r.stop == 0) && ok ==>
              forall p :: 0 <= p < |m| ==> (out.start <= p + 1 <= out.stop <==> Between(r, m[p]))
    ensures 0 < r.start == r.stop ==> (ok <==> NumberOf(m, r.start).Some?)
    ensures 0 < r.start == r.stop && ok ==> out.start == out.stop == NumberOf(m, r.start).value
    ensures r == Range(0, 0) && m != [] ==> ok && out == Range(|m|, |m|)
    ensures Ascending(m) && r.start == 0 < r.stop && m != [] ==>
              (ok <==> r.stop >= m[|m| - 1]) && (ok ==> out == Range(|m|, |m|))
    ensures Ascending(m) && r.start > r.stop > 0 ==> !ok
  {
    if Ascending(m) && 0 < r.start && (r.start < r.stop || r.stop == 0) { RangeTranslated(m, r); }
    if Ascending(m) && m != [] { OddTranslated(m, r); }
    out, ok := Translate(m, r);
  }

  method Translate(m: seq<nat>, r: Range) returns (out: Range, ok: bool)
    requires |m| < MAX_UINT32
    ensures ok <==> Translated(m, r).Some?
    ensures out == if ok then Translated(m, r).value else USELESS
  {
    if |m| == 0 {
      return USELESS, false;
    }
    var start, stop: nat := r.start, r.stop;
    if start == 0 {
      start := |m|;
    } else if start > m[|m| - 1] {
      return USELESS, false;
    } else if start < m[0] {
      start := 1;
    } else {
      var i := Search(m, start);
      start := i + 1;
    }
    if start == MAX_UINT32 {
      return USELESS, false;
    }
    if stop == 0 || stop > m[|m| - 1] {
      stop := |m|;
    } else if stop < m[0] {
      return USELESS, false;
    } else {
      if r.start == r.stop {
        return Range(start, start), true;
      }
      stop := StopPosition(m, stop);
    }
    if start > stop || stop == MAX_UINT32 {
      return USELESS, false;
    }
    return Range(start, stop), true;
  }

  method StopPosition(m: seq<nat>, b: nat) returns (stop: nat)
    requires m != [] && 0 < b <= m[|m| - 1]
    ensures stop == StopAt(m, b)
  {
    var i := Search(m, b);
    stop := i + 1;
    if stop > |m| || m[stop - 1] != b {
      stop := stop - 1;
    }
  }

  predicate Positive(m: seq<nat>) {
    forall p :: 0 <= p < |m| ==> m[p] > 0
  }

  /** The first position in `from..` holding a non-zero UID, counting from zero; |m| if none. */
  function FirstSet(m: seq<nat>, from: nat): (p: nat)
    requires from <= |m|
    ensures from <= p <= |m|
    ensures forall i :: from <= i < p ==> m[i] == 0
    ensures p < |m| ==> m[p] != 0
    decreases |m| - from
  {
    if from == |m| || m[from] != 0 then from else FirstSet(m, from + 1)
  }

  /** One past the last position below `upto` holding a non-zero UID; 0 if none. */
  function LastSet(m: seq<nat>, upto: nat): (p: nat)
    requires upto <= |m|
    ensures p <= upto
    ensures forall i :: p <= i < upto ==> m[i] == 0
    ensures p > 0 ==> m[p - 1] != 0
  {
    if upto == 0 || m[upto - 1] != 0 then upto else LastSet(m, upto - 1)
  }

  /** Where a range's upper bound ends: `*` and anything past the end mean the last message. */
  function Clip(m: seq<nat>, stop: nat): (e: nat)
    ensures e <= |m|
  {
    if stop == 0 || stop > |m| then |m| else stop
  }

  /** `*` as a lower bound: the last entry or, when that is a hole, the first that is set; 0 if none is. */
  function StarStart(m: seq<nat>): nat
    requires m != []
  {
    if m[|m| - 1] != 0 then m[|m| - 1] else if FirstSet(m, 0) < |m| then m[FirstSet(m, 0)] else 0
  }

  /** The first loop: step up over holes from the lower bound. */
  method SkipUp(m: seq<nat>, r: Range) returns (lo: nat, ok: bool)
    requires 0 < |m| < MAX_UINT32
    ensures r.start > |m| ==> !ok
    ensures ok ==> lo in m && lo > 0
    ensures r.start == r.stop <= |m| ==>
              lo == (if r.start == 0 then m[|m| - 1] else m[r.start - 1]) && (ok <==> lo != 0)
    ensures 0 < r.start <= |m| && r.start != r.stop ==>
              var a := FirstSet(m, r.start - 1);
              (ok <==> a < |m|) && (ok ==> lo == m[a])
    ensures r.start == 0 < r.stop ==> lo == StarStart(m) && (ok <==> lo != 0)
  {
    var start: nat := r.start;
    lo := 0;
    while true
      invariant r.start == r.stop || r.start > |m| ==> start == r.start
      invariant lo == 0 && (r.start == 0 < start ==> m[|m| - 1] == 0 && start <= |m| + 1)
      invariant r.start == 0 < start ==> FirstSet(m, 0) == if start <= |m| then FirstSet(m, start - 1) else |m|
      invariant start <= |m| + 1 || start == r.start
      invariant 0 < r.start <= |m| ==>
                  r.start <= start <= |m| + 1 &&
                  FirstSet(m, r.start - 1) == (if start <= |m| then FirstSet(m, start - 1) else |m|)
      decreases |m| + 1 - start
    {
      if start == 0 {
        lo := m[|m| - 1];
      } else if start > |m| {
        return lo, false;
      } else {
        lo := m[start - 1];
      }
      if lo != 0 {
        return lo, true;
      }
      start := start + 1;
      if r.start == r.stop {
        return lo, false;
      }
    }
  }

  /** The second loop: step down over holes from the upper bound, through zero with wrap-around. */
  method SkipDown(m: seq<nat>, from: Uint32) returns (hi: nat, ok: bool)
    requires 0 < |m| < MAX_UINT32
    ensures ok ==> hi in m && hi > 0
    ensures var b := LastSet(m, Clip(m, from)); (ok <==> 0 < b) && (ok ==> hi == m[b - 1])
  {
    var stop: nat := from;
    while true
      invariant stop <= MAX_UINT32
      invariant LastSet(m, Clip(m, stop)) == LastSet(m, Clip(m, from))
      decreases if stop == 0 then MAX_UINT32 + 1 else stop
    {
      if stop == 0 || stop > |m| {
        hi := m[|m| - 1];
      } else {
        hi := m[stop - 1];
      }
      if hi != 0 {
        return hi, true;
      }
      stop := if stop == 0 then MAX_UINT32 else stop - 1;
      if stop == 0 {
        return hi, false;
      }
    }
  }

  /**
   Sequence numbers to UIDs, for every map. Entries of zero are holes: a range shrinks to the
   outermost entries that are set, a single hole fails.
   */
  method SeqToUid(m: seq<nat>, r: Range) returns (lo: nat, hi: nat, ok: bool)
    requires |m| < MAX_UINT32
    ensures !ok ==> lo == hi == MAX_UINT32
    ensures m == [] || r.start > |m| ==> !ok
    ensures ok ==> lo in m && hi in m && lo > 0 && hi > 0
    ensures m != [] && r.start == r.stop <= |m| ==>
              var u := if r.start == 0 then m[|m| - 1] else m[r.start - 1];
              (ok <==> u != 0) && (ok ==> lo == hi == u)
    ensures 0 < r.start <= |m| && r.start != r.stop ==>
              var a, b := FirstSet(m, r.start - 1), LastSet(m, Clip(m, r.stop));
              (ok <==> a < |m| && 0 < b) && (ok ==> lo == m[a] && hi == m[b - 1])
    ensures m != [] && r.start == 0 < r.stop ==>
              var b := LastSet(m, Clip(m, r.stop));
              (ok <==> StarStart(m) != 0 && 0 < b) && (ok ==> lo == StarStart(m) && hi == m[b - 1])
  {
    if |m| == 0 {
      return MAX_UINT32, MAX_UINT32, false;
    }
    lo, ok := SkipUp(m, r);
    if !ok {
      return MAX_UINT32, MAX_UINT32, false;
    }
    if r.start == r.stop {
      return lo, lo, true;
    }
    hi, ok := SkipDown(m, r.stop);
    if !ok {
      return MAX_UINT32, MAX_UINT32, false;
    }
  }

  /** For present UIDs and valid positions the two translations undo each other. */
  method RoundTrip(m: seq<nat>, a: Uint32, b: Uint32)
    returns (uids: Range, back: Range, ok: bool)
    requires Ascending(m) && Positive(m) && |m| < MAX_UINT32
    requires forall p :: 0 <= p < |m| ==> m[p] <= MAX_UINT32
    requires 1 <= a <= b <= |m|
    ensures ok && back == Range(a, b) && uids == Range(m[a - 1], m[b - 1])
  {
    var lo, hi, ok1 := SeqToUid(m, Range(a, b));
    assert FirstSet(m, a - 1) == a - 1;
    assert LastSet(m, b) == b;
    uids := Range(lo, hi);
    TranslatedBack(m, a, b, uids);
    back, ok := UidToSeq(m, uids);
  }

  lemma TranslatedBack(m: seq<nat>, a: Uint32, b: Uint32, uids: Range)
    requires Ascending(m) && Positive(m) && |m| < MAX_UINT32 && 1 <= a <= b <= |m|
    requires uids.start == m[a - 1] && uids.stop == m[b - 1]
    ensures Translated(m, uids) == Some(Range(a, b))
  {
    EndsAt(m, a - 1);
    EndsAt(m, b - 1);
    assert m[a - 1] <= m[b - 1];
    assert StartAt(m, uids.start) == a;
    assert StopAt(m, uids.stop) == b;
  }

  lemma {:induction false} PresentAt(m: seq<nat>, p: nat)
    requires Ascending(m) && p < |m|
    ensures Halved(m, m[p], 0, |m|) == p
  {
    PositionIs(m, p, Halved(m, m[p], 0, |m|));
  }

  lemma PositionIs(m: seq<nat>, p: nat, i: nat)
    requires Ascending(m) && p < |m| && Splits(m, m[p], i)
    ensures i == p
  {
    assert forall q :: p < q < |m| ==> m[p] < m[q];
  }

  lemma EndsAt(m: seq<nat>, p: nat)
    requires Ascending(m) && Positive(m) && p < |m|
    ensures m[0] <= m[p] <= m[|m| - 1] && m[p] > 0 && StartAt(m, m[p]) == p + 1 && StopAt(m, m[p]) == p + 1
  {
    PresentAt(m, p);
    assert m[p] <= m[|m| - 1];
  }

  /** A UID that is in the map is reported under its own position. */
  lemma NumberOfPresent(m: seq<nat>, p: nat)
    requires Ascending(m) && p < |m|
    ensures NumberOf(m, m[p]) == Some(p + 1)
  {
    PresentAt(m, p);
    assert m[p] <= m[|m| - 1];
  }

  /**
   Looking up one UID finds that message, or nothing when it is absent, if and only if the UID is
   present or lies outside the range of the map: an absent UID between the first and the last
   is answered with the next higher message.
   */
  lemma NumberOfRightIff(m: seq<nat>, u: nat)
    requires Ascending(m)
    ensures (NumberOf(m, u).Some? ==> m[NumberOf(m, u).value - 1] == u) && (u in m ==> NumberOf(m, u).Some?)
            <==>
            (u in m || m == [] || u < m[0] || u > m[|m| - 1])
  {
    if u in m {
      var p :| 0 <= p < |m| && m[p] == u;
      NumberOfPresent(m, p);
    }
    HalvedAscending(m, u);
  }

  /** In a map that is not ascending a present UID can be answered with another message. */
  lemma NumberOfUnordered()
    ensures NumberOf([1, 9, 3], 3) == Some(2) && [1, 9, 3][1] == 9
  {
    assert Halved([1, 9, 3], 3, 0, 3) == Halved([1, 9, 3], 3, 0, 1);
  }

  lemma NumberOfAbsentExample()
    ensures NumberOf([2, 4, 6], 3) == Some(2) && [2, 4, 6][1] == 4
  {
    HalvedAscending([2, 4, 6], 3);
    assert LowerBound([4, 6], 3) == 0;
    assert [2, 4, 6][1..] == [4, 6];
  }
}
