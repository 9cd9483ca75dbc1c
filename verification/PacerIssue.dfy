/**
 Issuing happens outside the pacer's lock: the thread that admitted a batch of pieces
 issues them one by one, while other threads may issue batches of their own. This
 module adds those steps to PacerSteps and says which order survives.
 */
module PacerIssue {
  import opened PacerSteps
  import opened PacerRuns
  import PacerGuarantees

  /** The admitted pieces [start, start + size) one thread took, the first `issued` of them issued. */
  datatype Batch = Batch(start: nat, size: nat, issued: nat)

  /** One issue: the batch it came from and the piece's place in the admission order. */
  datatype Issued = Issued(batch: nat, index: nat)

  datatype State = State(base: PacerSteps.State, batches: seq<Batch>, order: seq<Issued>)

  datatype Action = Locked(action: PacerSteps.Action) | Issue(batch: nat)

  function Init(options: Options): (s: State)
  {
    State.State(PacerSteps.Init(options), [], [])
  }

  predicate Drained(b: Batch)
  {
    b.issued == b.size
  }

  /** Only an issued piece can complete. */
  predicate Enabled(s: State, a: Action)
  {
    match a
    case Locked(action) =>
      && PacerSteps.Enabled(s.base, action)
      && (action.Complete? ==> HasIssued(s, s.base.inflight[action.k]))
    case Issue(b) => b < |s.batches| && s.batches[b].issued < s.batches[b].size
  }

  predicate HasIssued(s: State, piece: Piece)
  {
    exists p :: 0 <= p < |s.order| && s.order[p].index < |s.base.admitted| && s.base.admitted[s.order[p].index] == piece
  }

  function Apply(s: State, a: Action): (r: State)
    requires Enabled(s, a)
  {
    match a
    case Locked(action) =>
      var base := PacerSteps.Apply(s.base, action);
      var taken := |base.admitted| - |s.base.admitted|;
      s.(base := base,
         batches := if taken > 0 then s.batches + [Batch(|s.base.admitted|, taken, 0)] else s.batches)
    case Issue(b) =>
      var batch := s.batches[b];
      s.(batches := s.batches[b := batch.(issued := batch.issued + 1)],
         order := s.order + [Issued(b, batch.start + batch.issued)])
  }

  predicate CanRun(s: State, actions: seq<Action>)
    decreases |actions|
  {
    actions == [] || (Enabled(s, actions[0]) && CanRun(Apply(s, actions[0]), actions[1..]))
  }

  function Run(s: State, actions: seq<Action>): (r: State)
    requires CanRun(s, actions)
    decreases |actions|
  {
    if actions == [] then s else Run(Apply(s, actions[0]), actions[1..])
  }

  // ---- the locked steps ----

  function LockedOnly(actions: seq<Action>): (r: seq<PacerSteps.Action>)
    decreases |actions|
  {
    if actions == [] then []
    else if actions[0].Locked? then [actions[0].action] + LockedOnly(actions[1..])
    else LockedOnly(actions[1..])
  }

  /** The locked steps of a run are a run of the pacer, so all its guarantees hold. */
  lemma {:induction false} LockedStepsAreARun(s: State, actions: seq<Action>)
    requires CanRun(s, actions)
    ensures PacerSteps.CanRun(s.base, LockedOnly(actions))
    ensures Run(s, actions).base == PacerSteps.Run(s.base, LockedOnly(actions))
    decreases |actions|
  {
    if actions != [] {
      LockedStepsAreARun(Apply(s, actions[0]), actions[1..]);
      if actions[0].Locked? {
        assert LockedOnly(actions)[1..] == LockedOnly(actions[1..]);
      }
    }
  }

  lemma {:induction false} TakeAdmits(s: PacerSteps.State)
    ensures s.admitted <= TakeIssuable(s).admitted
    decreases |s.pending|
  {
    if CanIssueFront(s) {
      TakeAdmits(AdmitFront(s));
    }
  }

  lemma {:induction false} CancelAdmitsNothing(s: PacerSteps.State)
    requires JobsExist(s.pending, |s.jobs|)
    ensures CancelPending(s).admitted == s.admitted
    decreases |s.pending|
  {
    if s.pending != [] {
      CancelAdmitsNothing(CancelFront(s));
    }
  }

  /** Admission only appends. */
  lemma AdmittedGrows(s: PacerSteps.State, a: PacerSteps.Action)
    requires PacerSteps.Enabled(s, a)
    ensures s.admitted <= PacerSteps.Apply(s, a).admitted
  {
    match a
    case Submit(sizes) =>
      if HasBytes(sizes) {
        TakeAdmits(Enqueue(s, sizes));
      }
    case Wake => TakeAdmits(s);
    case Shutdown => CancelAdmitsNothing(s.(shutdown := true));
    case _ =>
  }

  // ---- the invariant ----

  /** Batch `b` ends where the next one starts. */
  function EndOf(s: State, b: nat): (r: nat)
    requires b < |s.batches|
  {
    if b + 1 < |s.batches| then s.batches[b + 1].start else |s.base.admitted|
  }

  /** The batches are the admitted pieces, cut into runs. */
  predicate Cut(s: State)
  {
    && (if s.batches == [] then s.base.admitted == [] else s.batches[0].start == 0)
    && forall b :: 0 <= b < |s.batches| ==> CutAt(s, b)
  }

  predicate CutAt(s: State, b: nat)
    requires b < |s.batches|
  {
    && s.batches[b].start + s.batches[b].size == EndOf(s, b)
    && s.batches[b].issued <= s.batches[b].size && s.batches[b].size > 0
  }

  predicate IsIssued(s: State, b: nat, index: nat)
    requires b < |s.batches|
  {
    s.batches[b].start <= index < s.batches[b].start + s.batches[b].issued
  }

  ghost predicate InOrder(s: State)
  {
    forall p :: 0 <= p < |s.order| ==> s.order[p].index == p
  }

  /** The order lists issued pieces only, */
  predicate OnlyIssued(s: State)
  {
    forall p :: 0 <= p < |s.order| ==>
      s.order[p].batch < |s.batches| && IsIssued(s, s.order[p].batch, s.order[p].index)
  }

  /** each batch's in admission order, */
  predicate BatchesAscend(s: State)
  {
    forall p, q :: 0 <= p < q < |s.order| && s.order[p].batch == s.order[q].batch ==>
      s.order[p].index < s.order[q].index
  }

  /** and all of them. */
  ghost predicate AllListed(s: State)
  {
    forall b: nat, index: nat :: b < |s.batches| && IsIssued(s, b, index) ==> Listed(s, b, index)
  }

  predicate Listed(s: State, b: nat, index: nat)
  {
    exists p :: 0 <= p < |s.order| && s.order[p] == Issued(b, index)
  }

  ghost predicate Inv(s: State)
  {
    Cut(s) && OnlyIssued(s) && BatchesAscend(s) && AllListed(s)
  }

  lemma {:induction false} StartsAscend(s: State, a: nat, b: nat)
    requires Cut(s) && a < b < |s.batches|
    ensures s.batches[a].start + s.batches[a].size <= s.batches[b].start
    ensures s.batches[a].issued <= s.batches[a].size && s.batches[b].issued <= s.batches[b].size
    decreases b - a
  {
    assert CutAt(s, a) && CutAt(s, b);
    if a + 1 < b {
      StartsAscend(s, a, b - 1);
      assert CutAt(s, b - 1);
    }
  }

  lemma {:induction false} LockedKeepsInv(s: State, a: Action)
    requires Inv(s) && Enabled(s, a) && a.Locked?
    ensures Inv(Apply(s, a))
  {
    AdmittedGrows(s.base, a.action);
    LockedKeepsCut(s, a);
    var t := Apply(s, a);
    forall p | 0 <= p < |t.order|
      ensures t.order[p].batch < |t.batches| && IsIssued(t, t.order[p].batch, t.order[p].index)
    {
      assert IsIssued(s, s.order[p].batch, s.order[p].index);
    }
    forall b: nat, index: nat | b < |t.batches| && IsIssued(t, b, index)
      ensures Listed(t, b, index)
    {
      assert b < |s.batches| && IsIssued(s, b, index);
      assert Listed(s, b, index);
    }
  }

  lemma {:induction false} LockedKeepsCut(s: State, a: Action)
    requires Cut(s) && Enabled(s, a) && a.Locked?
    requires s.base.admitted <= PacerSteps.Apply(s.base, a.action).admitted
    ensures Cut(Apply(s, a))
  {
    var t := Apply(s, a);
    forall b | 0 <= b < |t.batches|
      ensures CutAt(t, b)
    {
      if b < |s.batches| {
        assert CutAt(s, b);
      }
    }
  }

  lemma {:induction false} IssueKeepsInv(s: State, a: Action)
    requires Inv(s) && Enabled(s, a) && a.Issue?
    ensures Inv(Apply(s, a))
  {
    IssueKeepsCut(s, a);
    IssueKeepsOnly(s, a);
    IssueKeepsListed(s, a);
  }

  lemma {:induction false} IssueKeepsCut(s: State, a: Action)
    requires Cut(s) && Enabled(s, a) && a.Issue?
    ensures Cut(Apply(s, a))
  {
    var t := Apply(s, a);
    forall b | 0 <= b < |t.batches|
      ensures CutAt(t, b)
    {
      assert CutAt(s, b);
    }
  }

  lemma {:induction false} IssueKeepsOnly(s: State, a: Action)
    requires OnlyIssued(s) && BatchesAscend(s) && Enabled(s, a) && a.Issue?
    ensures OnlyIssued(Apply(s, a)) && BatchesAscend(Apply(s, a))
  {
    var t := Apply(s, a);
    forall p | 0 <= p < |s.order|
      ensures t.order[p] == s.order[p] && IsIssued(s, s.order[p].batch, s.order[p].index)
      ensures IsIssued(t, s.order[p].batch, s.order[p].index)
    {
    }
  }

  lemma {:induction false} IssueKeepsListed(s: State, a: Action)
    requires AllListed(s) && Enabled(s, a) && a.Issue?
    ensures AllListed(Apply(s, a))
  {
    var t, n, x := Apply(s, a), |s.order|, a.batch;
    var index := s.batches[x].start + s.batches[x].issued;
    forall b: nat, i: nat | b < |t.batches| && IsIssued(t, b, i)
      ensures Listed(t, b, i)
    {
      if b == x && i == index {
        assert t.order[n] == Issued(x, index);
      } else {
        assert IsIssued(s, b, i) && Listed(s, b, i);
        var p :| 0 <= p < n && s.order[p] == Issued(b, i);
        assert t.order[p] == Issued(b, i);
      }
    }
  }

  lemma ApplyKeepsInv(s: State, a: Action)
    requires Inv(s) && Enabled(s, a)
    ensures Inv(Apply(s, a))
  {
    if a.Locked? {
      LockedKeepsInv(s, a);
    } else {
      IssueKeepsInv(s, a);
    }
  }

  lemma {:induction false} RunKeepsInv(s: State, actions: seq<Action>)
    requires Inv(s) && CanRun(s, actions)
    ensures Inv(Run(s, actions))
    decreases |actions|
  {
    if actions != [] {
      ApplyKeepsInv(s, actions[0]);
      RunKeepsInv(Apply(s, actions[0]), actions[1..]);
    }
  }

  // ---- which order survives ----

  /** Of two pieces one thread admitted together, the one admitted first is issued first; no piece is issued twice. */
  lemma BatchOrderSurvives(options: Options, actions: seq<Action>, p: nat, q: nat)
    requires CanRun(Init(options), actions)
    requires p < q < |Run(Init(options), actions).order|
    ensures var s := Run(Init(options), actions);
            && s.order[p].index < |s.base.admitted| && s.order[q].index < |s.base.admitted|
            && s.order[p].index != s.order[q].index
            && (s.order[p].batch == s.order[q].batch ==> s.order[p].index < s.order[q].index)
  {
    RunKeepsInv(Init(options), actions);
    var s := Run(Init(options), actions);
    var a, b := s.order[p].batch, s.order[q].batch;
    assert IsIssued(s, a, s.order[p].index) && IsIssued(s, b, s.order[q].index);
    InsideAdmitted(s, a);
    InsideAdmitted(s, b);
    if a < b {
      StartsAscend(s, a, b);
    } else if b < a {
      StartsAscend(s, b, a);
    }
  }

  lemma InsideAdmitted(s: State, b: nat)
    requires Cut(s) && b < |s.batches|
    ensures s.batches[b].start + s.batches[b].issued <= |s.base.admitted|
  {
    assert CutAt(s, b);
    var last := |s.batches| - 1;
    assert CutAt(s, last);
    if b < last {
      StartsAscend(s, b, last);
    }
  }

  /** Every earlier batch has been issued to its end. */
  predicate EarlierDrained(s: State, b: nat)
  {
    b <= |s.batches| && forall e :: 0 <= e < b ==> Drained(s.batches[e])
  }

  /** Each issue of the run waits for all earlier batches. */
  predicate Orderly(s: State, actions: seq<Action>)
    requires CanRun(s, actions)
    decreases |actions|
  {
    actions == [] ||
    (&& (actions[0].Issue? ==> EarlierDrained(s, actions[0].batch))
     && Orderly(Apply(s, actions[0]), actions[1..]))
  }

  /** While issues follow admission, the next one does exactly when the earlier batches are drained. */
  lemma {:induction false} NextIsInOrder(s: State, b: nat)
    requires Inv(s) && InOrder(s) && Enabled(s, Issue(b))
    ensures s.batches[b].start + s.batches[b].issued == |s.order| <==> EarlierDrained(s, b)
  {
    var index := s.batches[b].start + s.batches[b].issued;
    if EarlierDrained(s, b) {
      AllBeforeIssued(s, b, index);
      NotYetIssued(s, b);
    } else {
      var e :| 0 <= e < b && !Drained(s.batches[e]);
      StartsAscend(s, e, b);
      NotYetIssued(s, e);
    }
  }

  /** A batch's next piece is not among those issued: in order, that bounds their number. */
  lemma {:induction false} NotYetIssued(s: State, b: nat)
    requires Inv(s) && InOrder(s) && Enabled(s, Issue(b))
    ensures |s.order| <= s.batches[b].start + s.batches[b].issued
  {
    var index := s.batches[b].start + s.batches[b].issued;
    if index < |s.order| {
      var c := s.order[index].batch;
      assert s.order[index].index == index && IsIssued(s, c, index);
      if c < b {
        StartsAscend(s, c, b);
      } else if b < c {
        StartsAscend(s, b, c);
      }
    }
  }

  lemma {:induction false} AllBeforeIssued(s: State, b: nat, index: nat)
    requires Inv(s) && InOrder(s) && Enabled(s, Issue(b)) && EarlierDrained(s, b)
    requires index == s.batches[b].start + s.batches[b].issued
    ensures index <= |s.order|
  {
    if index > 0 {
      var e := Holder(s, b, index - 1);
      assert Listed(s, e, index - 1);
      var p :| 0 <= p < |s.order| && s.order[p] == Issued(e, index - 1);
      assert s.order[p].index == p;
    }
  }

  /** The batch that holds an issued index, when the batches before `b` are drained. */
  lemma {:induction false} Holder(s: State, b: nat, index: nat) returns (e: nat)
    requires Cut(s) && b < |s.batches| && EarlierDrained(s, b)
    requires index < s.batches[b].start + s.batches[b].issued
    ensures e < |s.batches| && IsIssued(s, e, index)
    decreases b
  {
    if s.batches[b].start <= index {
      e := b;
    } else {
      assert Drained(s.batches[b - 1]);
      assert CutAt(s, b - 1);
      e := Holder(s, b - 1, index);
    }
  }

  lemma {:induction false} OrderGrows(s: State, actions: seq<Action>)
    requires CanRun(s, actions)
    ensures s.order <= Run(s, actions).order
    decreases |actions|
  {
    if actions != [] {
      OrderGrows(Apply(s, actions[0]), actions[1..]);
    }
  }

  lemma {:induction false} InOrderExactly(s: State, actions: seq<Action>)
    requires Inv(s) && InOrder(s) && CanRun(s, actions)
    ensures InOrder(Run(s, actions)) <==> Orderly(s, actions)
    decreases |actions|
  {
    if actions != [] {
      var a, t := actions[0], Apply(s, actions[0]);
      ApplyKeepsInv(s, a);
      if a.Issue? {
        NextIsInOrder(s, a.batch);
        assert t.order[|s.order|].index == s.batches[a.batch].start + s.batches[a.batch].issued;
      }
      if InOrder(t) {
        InOrderExactly(t, actions[1..]);
      } else {
        OrderGrows(t, actions[1..]);
        var p :| 0 <= p < |t.order| && t.order[p].index != p;
        assert Run(t, actions[1..]).order[p] == t.order[p];
      }
    }
  }

  /** Pieces are issued in admission order if and only if no thread issues before earlier batches are done. */
  lemma IssueOrderIsAdmissionOrder(options: Options, actions: seq<Action>)
    requires CanRun(Init(options), actions)
    ensures InOrder(Run(Init(options), actions)) <==> Orderly(Init(options), actions)
  {
    InOrderExactly(Init(options), actions);
  }

  /** While something is in flight, some thread can issue or some issued piece can complete. */
  lemma {:induction false} FlightCanProgress(options: Options, actions: seq<Action>) returns (a: Action)
    requires CanRun(Init(options), actions) && Run(Init(options), actions).base.inflight != []
    ensures Enabled(Run(Init(options), actions), a) && (a.Issue? || a.action.Complete?)
  {
    RunKeepsInv(Init(options), actions);
    LockedStepsAreARun(Init(options), actions);
    EveryRunKeepsInv(options, LockedOnly(actions));
    a := FlightStep(Run(Init(options), actions));
  }

  lemma {:induction false} FlightStep(s: State) returns (a: Action)
    requires Inv(s) && PacerRuns.Inv(s.base) && s.base.inflight != []
    ensures Enabled(s, a) && (a.Issue? || a.action.Complete?)
  {
    if Unissued(s.batches) > 0 {
      var b := SomeUnissued(s.batches);
      a := Issue(b);
    } else {
      NoneUnissued(s);
      AdmittedIsIssued(s, s.base.inflight[0]);
      a := Locked(Complete(0, Ok));
    }
  }

  lemma {:induction false} AdmittedIsIssued(s: State, piece: Piece)
    requires Inv(s) && (forall b :: 0 <= b < |s.batches| ==> Drained(s.batches[b]))
    requires PacerRuns.Fifo(s.base) && piece in s.base.inflight
    ensures HasIssued(s, piece)
  {
    assert piece in multiset(s.base.inflight) && piece in multiset(s.base.admitted);
    var index :| 0 <= index < |s.base.admitted| && s.base.admitted[index] == piece;
    DrainedIsIssued(s, index);
  }

  lemma {:induction false} DrainedIsIssued(s: State, index: nat)
    requires Inv(s) && (forall b :: 0 <= b < |s.batches| ==> Drained(s.batches[b])) && index < |s.base.admitted|
    ensures HasIssued(s, s.base.admitted[index])
  {
    var last := |s.batches| - 1;
    assert CutAt(s, last) && Drained(s.batches[last]);
    var e := Holder(s, last, index);
    assert Listed(s, e, index);
  }

  // ---- progress ----

  function LeftIn(b: Batch): (r: nat)
  {
    if b.issued < b.size then b.size - b.issued else 0
  }

  /** Admitted pieces not yet issued. */
  function Unissued(batches: seq<Batch>): (r: nat)
  {
    if batches == [] then 0 else Unissued(batches[..|batches| - 1]) + LeftIn(batches[|batches| - 1])
  }

  /** Work left: the pacer's own, and one issue for every piece not issued. */
  function Work(s: State): (r: nat)
  {
    PacerGuarantees.Work(s.base) + |s.base.pending| + Unissued(s.batches)
  }

  predicate Draining(a: Action)
  {
    a.Issue? || PacerGuarantees.Draining(a.action)
  }

  lemma UnissuedAppend(batches: seq<Batch>, b: Batch)
    ensures Unissued(batches + [b]) == Unissued(batches) + LeftIn(b)
  {
    assert (batches + [b])[..|batches|] == batches;
  }

  lemma {:induction false} UnissuedStep(batches: seq<Batch>, b: nat)
    requires b < |batches| && batches[b].issued < batches[b].size
    ensures Unissued(batches[b := batches[b].(issued := batches[b].issued + 1)]) == Unissued(batches) - 1
    decreases |batches|
  {
    var last := |batches| - 1;
    var next := batches[b := batches[b].(issued := batches[b].issued + 1)];
    if b == last {
      assert next[..last] == batches[..last];
    } else {
      UnissuedStep(batches[..last], b);
      assert next[..last] == batches[..last][b := batches[b].(issued := batches[b].issued + 1)];
    }
  }

  lemma {:induction false} SomeUnissued(batches: seq<Batch>) returns (b: nat)
    requires Unissued(batches) > 0
    ensures b < |batches| && batches[b].issued < batches[b].size
    decreases |batches|
  {
    b := |batches| - 1;
    if LeftIn(batches[b]) == 0 {
      b := SomeUnissued(batches[..b]);
    }
  }

  lemma {:induction false} LeftAtMostUnissued(batches: seq<Batch>, b: nat)
    requires b < |batches|
    ensures LeftIn(batches[b]) <= Unissued(batches)
    decreases |batches|
  {
    if b < |batches| - 1 {
      LeftAtMostUnissued(batches[..|batches| - 1], b);
    }
  }

  lemma NoneUnissued(s: State)
    requires Cut(s) && Unissued(s.batches) == 0
    ensures forall b :: 0 <= b < |s.batches| ==> Drained(s.batches[b])
  {
    forall b | 0 <= b < |s.batches|
      ensures Drained(s.batches[b])
    {
      LeftAtMostUnissued(s.batches, b);
      assert CutAt(s, b);
    }
  }

  lemma {:induction false} TakeMovesPieces(s: PacerSteps.State)
    ensures |TakeIssuable(s).pending| + |TakeIssuable(s).admitted| == |s.pending| + |s.admitted|
    decreases |s.pending|
  {
    if CanIssueFront(s) {
      TakeMovesPieces(AdmitFront(s));
    }
  }

  lemma WakeMovesPieces(s: PacerSteps.State, a: PacerSteps.Action)
    requires PacerSteps.Enabled(s, a) && PacerGuarantees.Draining(a)
    ensures var t := PacerSteps.Apply(s, a);
            |t.pending| + |t.admitted| == |s.pending| + |s.admitted| && |s.admitted| <= |t.admitted|
  {
    if a.Wake? {
      TakeMovesPieces(s);
      TakeAdmits(s);
    }
  }

  /** Waking moves pieces from the queue to a batch of their own. */
  lemma LockedKeepsUnissued(s: State, a: Action)
    requires Enabled(s, a) && a.Locked? && PacerGuarantees.Draining(a.action)
    ensures var t := Apply(s, a);
            |t.base.pending| + Unissued(t.batches) == |s.base.pending| + Unissued(s.batches)
  {
    WakeMovesPieces(s.base, a.action);
    var taken := |PacerSteps.Apply(s.base, a.action).admitted| - |s.base.admitted|;
    UnissuedAppend(s.batches, Batch(|s.base.admitted|, taken, 0));
  }

  lemma DrainingTakesWork(s: State, a: Action)
    requires PacerRuns.Inv(s.base) && PacerRuns.Quiet(s.base) && Enabled(s, a) && Draining(a)
    ensures Work(Apply(s, a)) < Work(s)
  {
    if a.Issue? {
      IssueTakesWork(s, a.batch);
    } else {
      PacerGuarantees.DrainingTakesWork(s.base, a.action);
      LockedKeepsUnissued(s, a);
    }
  }

  lemma IssueTakesWork(s: State, b: nat)
    requires Enabled(s, Issue(b))
    ensures Work(Apply(s, Issue(b))) < Work(s)
  {
    UnissuedStep(s.batches, b);
  }

  /** A run of issues, completions, wake-ups and promise calls is never longer than the work left. */
  lemma {:induction false} DrainingIsBounded(s: State, actions: seq<Action>)
    requires PacerRuns.Inv(s.base) && PacerRuns.Quiet(s.base) && CanRun(s, actions)
    requires forall i :: 0 <= i < |actions| ==> Draining(actions[i])
    ensures |actions| + Work(Run(s, actions)) <= Work(s)
    decreases |actions|
  {
    if actions != [] {
      DrainingTakesWork(s, actions[0]);
      if actions[0].Locked? {
        PacerRuns.ApplyKeepsInv(s.base, actions[0].action);
      }
      DrainingIsBounded(Apply(s, actions[0]), actions[1..]);
    }
  }

  /** While work is left such a step can happen. */
  lemma WorkCanContinue(s: State) returns (a: Action)
    requires Inv(s) && PacerRuns.Inv(s.base) && PacerRuns.Quiet(s.base) && Work(s) > 0
    ensures Draining(a) && Enabled(s, a)
  {
    if s.base.inflight != [] {
      a := FlightStep(s);
    } else if Unissued(s.batches) > 0 {
      var b := SomeUnissued(s.batches);
      a := Issue(b);
    } else {
      var action := PacerGuarantees.WorkCanContinue(s.base);
      a := Locked(action);
    }
  }

  /** Without work left every admitted piece was issued, and the pacer itself is drained. */
  lemma NoWorkMeansIssued(s: State, index: nat)
    requires Inv(s) && Work(s) == 0 && index < |s.base.admitted|
    ensures HasIssued(s, s.base.admitted[index]) && PacerGuarantees.Work(s.base) == 0
  {
    NoneUnissued(s);
    DrainedIsIssued(s, index);
  }

  /** Two unpaced submissions whose threads issue the other way round. */
  lemma {:induction false} LaterBatchFirst() returns (actions: seq<Action>)
    ensures var options := Options(0, PIECE_ALIGNMENT);
            && CanRun(Init(options), actions)
            && Run(Init(options), actions).order == [Issued(1, 1), Issued(0, 0)]
  {
    var s0 := Init(Options(0, PIECE_ALIGNMENT));
    var s1 := SubmitOne(s0);
    var s2 := SubmitOne(s1);
    IssuesBackwards(s2);
    var submit := Locked(Submit([1]));
    RunPrepend(s1, submit, [Issue(1), Issue(0)]);
    RunPrepend(s0, submit, [submit] + [Issue(1), Issue(0)]);
    actions := [submit] + ([submit] + [Issue(1), Issue(0)]);
  }

  lemma RunPrepend(s: State, a: Action, actions: seq<Action>)
    requires Enabled(s, a) && CanRun(Apply(s, a), actions)
    ensures CanRun(s, [a] + actions) && Run(s, [a] + actions) == Run(Apply(s, a), actions)
  {
    assert ([a] + actions)[1..] == actions;
  }

  lemma {:induction false} IssuesBackwards(s: State)
    requires s.batches == [Batch(0, 1, 0), Batch(1, 1, 0)] && s.order == []
    ensures CanRun(s, [Issue(1), Issue(0)])
    ensures Run(s, [Issue(1), Issue(0)]).order == [Issued(1, 1), Issued(0, 0)]
  {
    var t := Apply(s, Issue(1));
    assert t.batches[0] == Batch(0, 1, 0) && t.order == [Issued(1, 1)];
    assert [Issue(1), Issue(0)][1..] == [Issue(0)] && [Issue(0)][1..] == [];
  }

  /** A one-byte unpaced submission is admitted at once, as a batch of one. */
  lemma SubmitOne(s: State) returns (t: State)
    requires s.base.pending == [] && !s.base.shutdown && s.base.options.maxInflightBytes <= 0
    requires s.base.options.chunkBytes > 0
    ensures Enabled(s, Locked(Submit([1]))) && t == Apply(s, Locked(Submit([1])))
    ensures t.base.pending == [] && !t.base.shutdown && t.base.options == s.base.options
    ensures |t.base.admitted| == |s.base.admitted| + 1 && t.order == s.order
    ensures t.batches == s.batches + [Batch(|s.base.admitted|, 1, 0)]
  {
    t := Apply(s, Locked(Submit([1])));
    var request := Request([1], false, s.base.options.chunkBytes);
    var job := |s.base.jobs|;
    assert CopyPieces(job, request, 0) == [Piece(job, 0, 0, 1)];
    assert PiecesOfFirst(job, request, 0) == [];
    assert Pieces(job, request) == [Piece(job, 0, 0, 1)];
    assert HasBytes([1]);
    var queued := Enqueue(s.base, [1]);
    var admitted := AdmitFront(queued);
    assert queued.pending == [Piece(job, 0, 0, 1)] && admitted.pending == [];
    assert TakeIssuable(queued) == TakeIssuable(admitted) == admitted;
  }
}
