/**
 Running checks in parallel and merging their results (internal/msgpipeline/check_runner.go): each
 worker appends to the authentication results, appends to the header and enters its verdict, each
 under its own lock; the first reason entered stays. All interleavings of all workers.
 */
module Verdicts {
  import opened Uids

  datatype Result = Result(auth: seq<nat>, header: seq<nat>, quarantine: bool, reject: bool, reason: Option<nat>)

  /** sync.Once around a reason: what came first, which may be no reason at all. */
  datatype Once = Unset | Set(reason: Option<nat>)

  datatype State = State(pcs: seq<nat>, auth: seq<nat>, header: seq<nat>, quarantined: Once, rejected: Once)

  const FINISHED := 3

  predicate Quarantines(r: Result) {
    r.quarantine
  }

  predicate Rejects(r: Result) {
    !r.quarantine && r.reject
  }

  predicate Begins(s: State, results: seq<Result>) {
    && |s.pcs| == |results| && (forall i :: 0 <= i < |s.pcs| ==> s.pcs[i] == 0)
    && s.quarantined == Unset && s.rejected == Unset
  }

  predicate AllFinished(s: State) {
    forall i :: 0 <= i < |s.pcs| ==> s.pcs[i] == FINISHED
  }

  predicate Enabled(s: State, i: nat) {
    i < |s.pcs| && s.pcs[i] < FINISHED
  }

  function Do(o: Once, reason: Option<nat>): Once {
    if o.Unset? then Set(reason) else o
  }

  /** The next action of worker `i`. */
  function Next(results: seq<Result>, s: State, i: nat): State
    requires |s.pcs| == |results| && Enabled(s, i)
  {
    var r, t := results[i], s.(pcs := s.pcs[i := s.pcs[i] + 1]);
    if s.pcs[i] == 0 then t.(auth := s.auth + r.auth)
    else if s.pcs[i] == 1 then t.(header := s.header + r.header)
    else if Quarantines(r) then t.(quarantined := Do(s.quarantined, r.reason))
    else if Rejects(r) then t.(rejected := Do(s.rejected, r.reason))
    else t
  }

  predicate Schedule(results: seq<Result>, s: State, order: seq<nat>)
    requires |s.pcs| == |results|
    decreases |order|
  {
    order == [] || (Enabled(s, order[0]) && Schedule(results, Next(results, s, order[0]), order[1..]))
  }

  function After(results: seq<Result>, s: State, order: seq<nat>): State
    requires |s.pcs| == |results| && Schedule(results, s, order)
    decreases |order|
  {
    if order == [] then s else After(results, Next(results, s, order[0]), order[1..])
  }

  predicate HasReason(o: Once) {
    o.Set? && o.reason.Some?
  }

  /** What the run comes to: an error, which leaves the quarantine flag as it was, or the flag. */
  datatype Outcome = Error | Flag(quarantine: bool)

  function OutcomeOf(s: State, before: bool): Outcome {
    if HasReason(s.rejected) then Error else Flag(before || HasReason(s.quarantined))
  }

  ghost predicate Complete(results: seq<Result>, s: State, order: seq<nat>)
    requires |s.pcs| == |results|
  {
    Schedule(results, s, order) && AllFinished(After(results, s, order))
  }

  // ---- What has been gathered ----

  function Part(r: Result, headers: bool): seq<nat> {
    if headers then r.header else r.auth
  }

  predicate Entered(pc: nat, headers: bool) {
    pc > if headers then 1 else 0
  }

  ghost function Gathered(results: seq<Result>, pcs: seq<nat>, headers: bool, n: nat): multiset<nat>
    requires n <= |pcs| == |results|
  {
    if n == 0 then multiset{}
    else Gathered(results, pcs, headers, n - 1)
         + if Entered(pcs[n - 1], headers) then multiset(Part(results[n - 1], headers)) else multiset{}
  }

  lemma {:induction false} GatheredStep(results: seq<Result>, pcs: seq<nat>, headers: bool, n: nat, i: nat, pc: nat)
    requires n <= |pcs| == |results| && i < |pcs| && pcs[i] <= pc
    ensures Gathered(results, pcs[i := pc], headers, n)
            == Gathered(results, pcs, headers, n)
               + if i < n && Entered(pc, headers) && !Entered(pcs[i], headers)
                 then multiset(Part(results[i], headers)) else multiset{}
  {
    if n == 0 {
    } else {
      GatheredStep(results, pcs, headers, n - 1, i, pc);
    }
  }

  lemma {:induction false} AllGathered(results: seq<Result>, pcs: seq<nat>, others: seq<nat>, headers: bool, n: nat)
    requires n <= |pcs| == |results| == |others|
    requires forall k :: 0 <= k < n ==> Entered(pcs[k], headers) == Entered(others[k], headers)
    ensures Gathered(results, pcs, headers, n) == Gathered(results, others, headers, n)
  {
    if n == 0 {
    } else {
      AllGathered(results, pcs, others, headers, n - 1);
    }
  }

  // ---- What every step keeps ----

  ghost predicate Entry(results: seq<Result>, s: State, o: Once, quarantine: bool)
    requires |s.pcs| == |results|
  {
    && (o.Set? ==> exists i :: 0 <= i < |results| && s.pcs[i] == FINISHED
                               && Concerns(results[i], quarantine) && o.reason == results[i].reason)
    && (o.Unset? ==> forall i :: 0 <= i < |results| && s.pcs[i] == FINISHED ==> !Concerns(results[i], quarantine))
  }

  predicate Concerns(r: Result, quarantine: bool) {
    if quarantine then Quarantines(r) else Rejects(r)
  }

  ghost predicate Sound(results: seq<Result>, s: State, auth: seq<nat>, header: seq<nat>) {
    && |s.pcs| == |results| && (forall i :: 0 <= i < |s.pcs| ==> s.pcs[i] <= FINISHED)
    && multiset(s.auth) == multiset(auth) + Gathered(results, s.pcs, false, |results|)
    && multiset(s.header) == multiset(header) + Gathered(results, s.pcs, true, |results|)
    && Entry(results, s, s.quarantined, true) && Entry(results, s, s.rejected, false)
  }

  lemma EntryStep(results: seq<Result>, s: State, i: nat, o: Once, o': Once, quarantine: bool)
    requires |s.pcs| == |results| && Enabled(s, i) && Entry(results, s, o, quarantine)
    requires o' == if s.pcs[i] == 2 && Concerns(results[i], quarantine) then Do(o, results[i].reason) else o
    ensures Entry(results, Next(results, s, i), o', quarantine)
  {
    var s' := Next(results, s, i);
    if o.Set? {
      var k :| 0 <= k < |results| && s.pcs[k] == FINISHED
               && Concerns(results[k], quarantine) && o.reason == results[k].reason;
      assert s'.pcs[k] == FINISHED;
    } else if o'.Set? {
      assert s'.pcs[i] == FINISHED;
    }
  }

  lemma {:induction false} GatherStep(results: seq<Result>, s: State, i: nat, headers: bool, gathered: seq<nat>,
                                      gathered': seq<nat>, before: multiset<nat>)
    requires |s.pcs| == |results| && Enabled(s, i)
    requires multiset(gathered) == before + Gathered(results, s.pcs, headers, |results|)
    requires gathered'
            == if s.pcs[i] == (if headers then 1 else 0) then gathered + Part(results[i], headers) else gathered
    ensures multiset(gathered') == before + Gathered(results, Next(results, s, i).pcs, headers, |results|)
  {
    GatheredStep(results, s.pcs, headers, |results|, i, s.pcs[i] + 1);
  }

  lemma StepSound(results: seq<Result>, s: State, i: nat, auth: seq<nat>, header: seq<nat>)
    requires Sound(results, s, auth, header) && Enabled(s, i)
    ensures Sound(results, Next(results, s, i), auth, header)
  {
    var s' := Next(results, s, i);
    GatherStep(results, s, i, false, s.auth, s'.auth, multiset(auth));
    GatherStep(results, s, i, true, s.header, s'.header, multiset(header));
    EntryStep(results, s, i, s.quarantined, s'.quarantined, true);
    EntryStep(results, s, i, s.rejected, s'.rejected, false);
  }

  lemma {:induction false} RunSound(results: seq<Result>, s: State, order: seq<nat>, auth: seq<nat>, header: seq<nat>)
    requires Sound(results, s, auth, header) && Schedule(results, s, order)
    ensures Sound(results, After(results, s, order), auth, header)
    decreases |order|
  {
    if order == [] {
    } else {
      StepSound(results, s, order[0], auth, header);
      RunSound(results, Next(results, s, order[0]), order[1..], auth, header);
    }
  }

  lemma {:induction false} NothingGathered(results: seq<Result>, pcs: seq<nat>, headers: bool, n: nat)
    requires n <= |pcs| == |results| && forall i :: 0 <= i < |pcs| ==> pcs[i] == 0
    ensures Gathered(results, pcs, headers, n) == multiset{}
  {
    if n == 0 {
    } else {
      NothingGathered(results, pcs, headers, n - 1);
    }
  }

  lemma BeginSound(results: seq<Result>, s: State)
    requires Begins(s, results)
    ensures Sound(results, s, s.auth, s.header)
  {
    NothingGathered(results, s.pcs, false, |results|);
    NothingGathered(results, s.pcs, true, |results|);
  }

  // ---- All schedules ----

  predicate HaveReasons(results: seq<Result>) {
    forall i :: 0 <= i < |results| && (results[i].quarantine || results[i].reject) ==> results[i].reason.Some?
  }

  predicate AnyConcerned(results: seq<Result>, quarantine: bool) {
    exists i :: 0 <= i < |results| && Concerns(results[i], quarantine)
  }

  /**
   When rejections and quarantines carry reasons, every schedule comes to the same verdict: an error
   exactly when some result rejects, and otherwise the flag exactly when it was set before or some
   result quarantines.
   */
  lemma {:induction false} VerdictDecided(results: seq<Result>, s: State, order: seq<nat>, before: bool)
    requires Begins(s, results) && Complete(results, s, order) && HaveReasons(results)
    ensures OutcomeOf(After(results, s, order), before)
            == if AnyConcerned(results, false) then Error else Flag(before || AnyConcerned(results, true))
  {
    BeginSound(results, s);
    RunSound(results, s, order, s.auth, s.header);
    var end := After(results, s, order);
    assert Entry(results, end, end.rejected, false) && Entry(results, end, end.quarantined, true);
  }

  /** Every schedule, whatever the reasons, gathers the same results and header fields. */
  lemma {:induction false} GatheredAlike(results: seq<Result>, s: State, a: seq<nat>, b: seq<nat>)
    requires Begins(s, results) && Schedule(results, s, a) && Schedule(results, s, b)
    requires AllFinished(After(results, s, a)) && AllFinished(After(results, s, b))
    ensures multiset(After(results, s, a).auth) == multiset(After(results, s, b).auth)
    ensures multiset(After(results, s, a).header) == multiset(After(results, s, b).header)
  {
    BeginSound(results, s);
    RunSound(results, s, a, s.auth, s.header);
    RunSound(results, s, b, s.auth, s.header);
    AllGathered(results, After(results, s, a).pcs, After(results, s, b).pcs, false, |results|);
    AllGathered(results, After(results, s, a).pcs, After(results, s, b).pcs, true, |results|);
  }

  // ---- Results without a reason ----

  ghost function Left(pcs: seq<nat>): nat {
    if pcs == [] then 0 else Left(pcs[..|pcs| - 1]) + if pcs[|pcs| - 1] < FINISHED then FINISHED - pcs[|pcs| - 1] else 0
  }

  lemma {:induction false} LeftFalls(pcs: seq<nat>, i: nat)
    requires i < |pcs| && pcs[i] < FINISHED
    ensures Left(pcs[i := pcs[i] + 1]) < Left(pcs)
    decreases |pcs|
  {
    var n := |pcs| - 1;
    var pcs' := pcs[i := pcs[i] + 1];
    if i < n {
      assert pcs'[..n] == pcs[..n][i := pcs[i] + 1];
      LeftFalls(pcs[..n], i);
    } else {
      assert pcs'[..n] == pcs[..n];
    }
  }

  /** Whatever has happened, the workers can finish, and a reason once entered stays. */
  lemma {:induction false} CanFinish(results: seq<Result>, s: State) returns (order: seq<nat>)
    requires |s.pcs| == |results| && forall i :: 0 <= i < |s.pcs| ==> s.pcs[i] <= FINISHED
    ensures Schedule(results, s, order) && AllFinished(After(results, s, order))
    ensures s.rejected.Set? ==> After(results, s, order).rejected == s.rejected
    ensures s.quarantined.Set? ==> After(results, s, order).quarantined == s.quarantined
    decreases Left(s.pcs)
  {
    if AllFinished(s) {
      return [];
    }
    var i :| 0 <= i < |s.pcs| && s.pcs[i] != FINISHED;
    LeftFalls(s.pcs, i);
    var rest := CanFinish(results, Next(results, s, i));
    order := [i] + rest;
    assert order[1..] == rest;
  }

  /** A schedule in which worker `i` is first to enter its verdict. */
  lemma FirstDecides(results: seq<Result>, s: State, i: nat) returns (order: seq<nat>)
    requires Begins(s, results) && i < |results|
    ensures Schedule(results, s, order) && AllFinished(After(results, s, order))
    ensures Rejects(results[i]) ==> After(results, s, order).rejected == Set(results[i].reason)
    ensures Quarantines(results[i]) ==> After(results, s, order).quarantined == Set(results[i].reason)
  {
    var s1 := Next(results, s, i);
    var s2 := Next(results, s1, i);
    var s3 := Next(results, s2, i);
    order := CanFinish(results, s3);
    Prepend(results, s2, i, order);
    order := [i] + order;
    Prepend(results, s1, i, order);
    order := [i] + order;
    Prepend(results, s, i, order);
    order := [i] + order;
  }

  lemma {:induction false} Prepend(results: seq<Result>, s: State, i: nat, rest: seq<nat>)
    requires |s.pcs| == |results| && Enabled(s, i) && Schedule(results, Next(results, s, i), rest)
    ensures Schedule(results, s, [i] + rest)
    ensures After(results, s, [i] + rest) == After(results, Next(results, s, i), rest)
  {
    assert ([i] + rest)[1..] == rest;
  }

  predicate Uniform(results: seq<Result>, quarantine: bool) {
    forall i, j :: 0 <= i < |results| && 0 <= j < |results|
                   && Concerns(results[i], quarantine) && Concerns(results[j], quarantine) ==>
      results[i].reason.Some? == results[j].reason.Some?
  }

  /** Some rejecting result carries a reason. */
  predicate ReasonedRejection(results: seq<Result>) {
    exists i :: 0 <= i < |results| && Rejects(results[i]) && results[i].reason.Some?
  }

  ghost predicate Agree(results: seq<Result>, s: State, before: bool)
    requires |s.pcs| == |results|
  {
    forall a, b :: Complete(results, s, a) && Complete(results, s, b) ==>
      OutcomeOf(After(results, s, a), before) == OutcomeOf(After(results, s, b), before)
  }

  /**
   All schedules agree if and only if the rejecting results all carry a reason or all carry none and,
   when none of them leads to an error and the flag is not set yet, the same holds of those that
   quarantine.
   */
  lemma AgreeIff(results: seq<Result>, s: State, before: bool)
    requires Begins(s, results)
    ensures Agree(results, s, before) <==>
              Uniform(results, false) && (ReasonedRejection(results) || before || Uniform(results, true))
  {
    if Uniform(results, false) && (ReasonedRejection(results) || before || Uniform(results, true)) {
      forall a, b | Complete(results, s, a) && Complete(results, s, b)
        ensures OutcomeOf(After(results, s, a), before) == OutcomeOf(After(results, s, b), before)
      {
        Agreed(results, s, a, b, before);
      }
    } else if !Uniform(results, false) {
      var i, j :| 0 <= i < |results| && 0 <= j < |results| && Rejects(results[i]) && Rejects(results[j])
                  && results[i].reason.Some? && results[j].reason.None?;
      var a, b := Disagreed(results, s, i, j, before);
    } else {
      var i, j :| 0 <= i < |results| && 0 <= j < |results| && Quarantines(results[i]) && Quarantines(results[j])
                  && results[i].reason.Some? && results[j].reason.None?;
      var a, b := Disagreed(results, s, i, j, before);
    }
  }

  /** Whichever of two results enters first decides, so one schedule uses the reason and another has none. */
  lemma Disagreed(results: seq<Result>, s: State, i: nat, j: nat, before: bool) returns (a: seq<nat>, b: seq<nat>)
    requires Begins(s, results) && i < |results| && j < |results|
    requires results[i].reason.Some? && results[j].reason.None?
    requires || (Rejects(results[i]) && Rejects(results[j]))
             || (Quarantines(results[i]) && Quarantines(results[j]) && !ReasonedRejection(results) && !before)
    ensures Complete(results, s, a) && Complete(results, s, b)
    ensures OutcomeOf(After(results, s, a), before) != OutcomeOf(After(results, s, b), before)
  {
    a := FirstDecides(results, s, i);
    b := FirstDecides(results, s, j);
    EntriesOf(results, s, a);
    EntriesOf(results, s, b);
  }

  lemma {:induction false} EntriesOf(results: seq<Result>, s: State, order: seq<nat>)
    requires Begins(s, results) && Complete(results, s, order)
    ensures var end := After(results, s, order);
            && |end.pcs| == |results|
            && Entry(results, end, end.rejected, false) && Entry(results, end, end.quarantined, true)
  {
    BeginSound(results, s);
    RunSound(results, s, order, s.auth, s.header);
  }

  lemma {:induction false} Agreed(results: seq<Result>, s: State, a: seq<nat>, b: seq<nat>, before: bool)
    requires Begins(s, results) && Complete(results, s, a) && Complete(results, s, b)
    requires Uniform(results, false) && (ReasonedRejection(results) || before || Uniform(results, true))
    ensures OutcomeOf(After(results, s, a), before) == OutcomeOf(After(results, s, b), before)
  {
    EntriesOf(results, s, a);
    EntriesOf(results, s, b);
    var x, y := After(results, s, a), After(results, s, b);
    EntriesAgree(results, x, y, x.rejected, y.rejected, false);
    if Uniform(results, true) { EntriesAgree(results, x, y, x.quarantined, y.quarantined, true); }
  }

  const REJECTS := Result([], [], false, true, Some(1))
  const REJECTS_SILENTLY := Result([], [], false, true, None)
  const QUARANTINES := Result([], [], true, false, Some(2))
  const QUARANTINES_SILENTLY := Result([], [], true, false, None)

  /** Two rejections, one without a reason: some schedule fails and some other lets the message pass. */
  lemma DisagreeExample(s: State) returns (a: seq<nat>, b: seq<nat>)
    requires Begins(s, [REJECTS, REJECTS_SILENTLY])
    ensures Complete([REJECTS, REJECTS_SILENTLY], s, a) && Complete([REJECTS, REJECTS_SILENTLY], s, b)
    ensures OutcomeOf(After([REJECTS, REJECTS_SILENTLY], s, a), false)
            != OutcomeOf(After([REJECTS, REJECTS_SILENTLY], s, b), false)
  {
    a, b := Disagreed([REJECTS, REJECTS_SILENTLY], s, 0, 1, false);
  }

  /** With a reasoned rejection the error hides what the quarantines disagree about. */
  lemma ErrorHidesQuarantine(s: State)
    requires Begins(s, [REJECTS, QUARANTINES, QUARANTINES_SILENTLY])
    ensures Agree([REJECTS, QUARANTINES, QUARANTINES_SILENTLY], s, false)
  {
    assert Rejects([REJECTS, QUARANTINES, QUARANTINES_SILENTLY][0]);
    AgreeIff([REJECTS, QUARANTINES, QUARANTINES_SILENTLY], s, false);
  }

  lemma EntriesAgree(results: seq<Result>, x: State, y: State, o: Once, o': Once, quarantine: bool)
    requires |x.pcs| == |y.pcs| == |results| && AllFinished(x) && AllFinished(y)
    requires Entry(results, x, o, quarantine) && Entry(results, y, o', quarantine) && Uniform(results, quarantine)
    ensures HasReason(o) == HasReason(o')
  {
  }
}
