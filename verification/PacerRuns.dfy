/**
 What every run of the pacer keeps: accounting, first-in first-out admission,
 exactly-once resolution, the in-flight window, and progress.
 */
module PacerRuns {
  import opened PacerSteps

  // ---- counting ----

  function Bytes(pieces: seq<Piece>): (r: int)
  {
    if pieces == [] then 0 else Bytes(pieces[..|pieces| - 1]) + pieces[|pieces| - 1].size
  }

  function Count(pieces: seq<Piece>, job: nat): (r: nat)
  {
    if pieces == [] then 0
    else Count(pieces[..|pieces| - 1], job) + if pieces[|pieces| - 1].job == job then 1 else 0
  }

  /** The outcomes of a job's pieces, in the order they were recorded. */
  function Outcomes(log: seq<Event>, job: nat): (r: seq<Status>)
  {
    if log == [] then []
    else
      var rest := Outcomes(log[..|log| - 1], job);
      var last := log[|log| - 1];
      if last.Settled? && last.job == job then rest + [last.status] else rest
  }

  /** How often a job's promise was set. */
  function Resolutions(log: seq<Event>, job: nat): (r: nat)
  {
    if log == [] then 0
    else
      var last := log[|log| - 1];
      Resolutions(log[..|log| - 1], job) + if last.Resolved? && last.job == job then 1 else 0
  }

  /** How often a job's keep-alive was released. */
  function Releases(log: seq<Event>, job: nat): (r: nat)
  {
    if log == [] then 0
    else
      var last := log[|log| - 1];
      Releases(log[..|log| - 1], job) + if last == Released(job) then 1 else 0
  }

  function Unset(outbox: seq<Outgoing>, job: nat): (r: nat)
  {
    if outbox == [] then 0
    else
      var last := outbox[|outbox| - 1];
      Unset(outbox[..|outbox| - 1], job) + if last.job == job && !last.resolved then 1 else 0
  }

  function Leaving(outbox: seq<Outgoing>, job: nat): (r: nat)
  {
    if outbox == [] then 0
    else Leaving(outbox[..|outbox| - 1], job) + if outbox[|outbox| - 1].job == job then 1 else 0
  }

  function One(b: bool): (r: nat)
  {
    if b then 1 else 0
  }

  lemma {:induction false} BytesConcat(a: seq<Piece>, b: seq<Piece>)
    ensures Bytes(a + b) == Bytes(a) + Bytes(b)
    decreases |b|
  {
    if b == [] {
      assert a + b == a;
    } else {
      assert (a + b)[..|a + b| - 1] == a + b[..|b| - 1];
      BytesConcat(a, b[..|b| - 1]);
    }
  }

  lemma {:induction false} CountConcat(a: seq<Piece>, b: seq<Piece>, job: nat)
    ensures Count(a + b, job) == Count(a, job) + Count(b, job)
    decreases |b|
  {
    if b == [] {
      assert a + b == a;
    } else {
      assert (a + b)[..|a + b| - 1] == a + b[..|b| - 1];
      CountConcat(a, b[..|b| - 1], job);
    }
  }

  lemma FrontPiece(pieces: seq<Piece>, job: nat)
    requires pieces != []
    ensures Count(pieces, job) == One(pieces[0].job == job) + Count(pieces[1..], job)
    ensures Bytes(pieces) == pieces[0].size + Bytes(pieces[1..])
  {
    assert pieces == [pieces[0]] + pieces[1..];
    CountConcat([pieces[0]], pieces[1..], job);
    BytesConcat([pieces[0]], pieces[1..]);
  }

  lemma RemovedPiece(pieces: seq<Piece>, k: nat, job: nat)
    requires k < |pieces|
    ensures var rest := pieces[..k] + pieces[k + 1..];
            && Count(pieces, job) == Count(rest, job) + One(pieces[k].job == job)
            && Bytes(pieces) == Bytes(rest) + pieces[k].size
  {
    assert pieces == pieces[..k] + pieces[k..];
    CountConcat(pieces[..k], pieces[k..], job);
    BytesConcat(pieces[..k], pieces[k..]);
    FrontPiece(pieces[k..], job);
    assert pieces[k..][1..] == pieces[k + 1..];
    CountConcat(pieces[..k], pieces[k + 1..], job);
    BytesConcat(pieces[..k], pieces[k + 1..]);
  }

  lemma LogAppend(log: seq<Event>, e: Event, job: nat)
    ensures Outcomes(log + [e], job)
         == if e.Settled? && e.job == job then Outcomes(log, job) + [e.status] else Outcomes(log, job)
    ensures Resolutions(log + [e], job) == Resolutions(log, job) + One(e.Resolved? && e.job == job)
    ensures Releases(log + [e], job) == Releases(log, job) + One(e == Released(job))
  {
    assert (log + [e])[..|log|] == log;
  }

  lemma OutboxAppend(outbox: seq<Outgoing>, o: Outgoing, job: nat)
    ensures Unset(outbox + [o], job) == Unset(outbox, job) + One(o.job == job && !o.resolved)
    ensures Leaving(outbox + [o], job) == Leaving(outbox, job) + One(o.job == job)
  {
    assert (outbox + [o])[..|outbox|] == outbox;
  }

  lemma {:induction false} OutboxSet(outbox: seq<Outgoing>, k: nat, job: nat)
    requires k < |outbox| && !outbox[k].resolved
    ensures var next := outbox[k := outbox[k].(resolved := true)];
            && Unset(next, job) == Unset(outbox, job) - One(outbox[k].job == job)
            && Leaving(next, job) == Leaving(outbox, job)
    ensures outbox[k].job == job ==> Unset(outbox, job) > 0
    decreases |outbox|
  {
    var n := |outbox| - 1;
    var next := outbox[k := outbox[k].(resolved := true)];
    if k < n {
      OutboxSet(outbox[..n], k, job);
      assert next[..n] == outbox[..n][k := outbox[k].(resolved := true)];
    } else {
      assert next[..n] == outbox[..n];
    }
  }

  lemma {:induction false} OutboxRemove(outbox: seq<Outgoing>, k: nat, job: nat)
    requires k < |outbox| && outbox[k].resolved
    ensures var next := outbox[..k] + outbox[k + 1..];
            && Unset(next, job) == Unset(outbox, job)
            && Leaving(next, job) == Leaving(outbox, job) - One(outbox[k].job == job)
    ensures Unset(outbox, job) + One(outbox[k].job == job) <= Leaving(outbox, job)
    decreases |outbox|
  {
    var n := |outbox| - 1;
    var next := outbox[..k] + outbox[k + 1..];
    if k < n {
      OutboxRemove(outbox[..n], k, job);
      assert next[..n - 1] == outbox[..n][..k] + outbox[..n][k + 1..];
    } else {
      assert next == outbox[..n];
      UnsetLeaving(outbox[..n], job);
    }
  }

  lemma {:induction false} UnsetLeaving(outbox: seq<Outgoing>, job: nat)
    ensures Unset(outbox, job) <= Leaving(outbox, job)
  {
    if outbox != [] {
      UnsetLeaving(outbox[..|outbox| - 1], job);
    }
  }

  // ---- the first error ----

  function FirstError(outcomes: seq<Status>): (r: Status)
  {
    if outcomes == [] then Ok
    else Worse(FirstError(outcomes[..|outcomes| - 1]), outcomes[|outcomes| - 1])
  }

  /** OK exactly when all pieces were OK; otherwise the first recorded error. */
  lemma {:induction false} FirstErrorIsFirst(outcomes: seq<Status>)
    ensures FirstError(outcomes) == Ok <==> forall i :: 0 <= i < |outcomes| ==> outcomes[i] == Ok
    ensures FirstError(outcomes) != Ok ==>
              exists i :: && 0 <= i < |outcomes|
                          && outcomes[i] == FirstError(outcomes)
                          && forall h :: 0 <= h < i ==> outcomes[h] == Ok
  {
    if outcomes != [] {
      var n := |outcomes| - 1;
      var init := outcomes[..n];
      FirstErrorIsFirst(init);
      if FirstError(init) != Ok {
        var i :| 0 <= i < n && init[i] == FirstError(init) && forall h :: 0 <= h < i ==> init[h] == Ok;
        assert outcomes[i] == init[i];
        assert forall h :: 0 <= h < i ==> outcomes[h] == init[h];
      } else {
        assert forall h :: 0 <= h < n ==> outcomes[h] == init[h];
      }
    }
  }

  // ---- the invariant ----

  predicate Sound(pieces: seq<Piece>, n: nat)
  {
    forall i :: 0 <= i < |pieces| ==> pieces[i].job < n && pieces[i].size > 0
  }

  predicate Aligned(requests: seq<Request>)
  {
    forall i :: 0 <= i < |requests| ==>
      requests[i].chunkBytes >= PIECE_ALIGNMENT && requests[i].chunkBytes % PIECE_ALIGNMENT == 0
  }

  /** Everything ever submitted, in submission order. */
  function Concatenated(requests: seq<Request>): (r: seq<Piece>)
  {
    if requests == [] then []
    else
      var n := |requests| - 1;
      Concatenated(requests[..n]) + if requests[n].chunkBytes > 0 then Pieces(n, requests[n]) else []
  }

  /** Admission is first-in first-out and exactly once. */
  predicate Fifo(s: State)
  {
    && s.submitted == Concatenated(s.requests)
    && s.admitted + s.cancelled + s.pending == s.submitted
    && (!s.shutdown ==> s.cancelled == [])
    && multiset(s.inflight) + multiset(s.finished) == multiset(s.admitted)
  }

  predicate Accounting(s: State)
  {
    && s.options.chunkBytes >= PIECE_ALIGNMENT
    && s.options.chunkBytes % PIECE_ALIGNMENT == 0
    && |s.requests| == |s.jobs|
    && Aligned(s.requests)
    && Sound(s.submitted, |s.jobs|)
    && Sound(s.pending, |s.jobs|)
    && Sound(s.inflight, |s.jobs|)
    && s.inflightBytes == Bytes(s.inflight)
    && s.inflightBytes <= s.peakBytes
    && s.issued == |s.admitted|
  }

  /** One job: its remaining pieces, its status, and where its promise is. */
  predicate JobInv(s: State, j: nat)
    requires j < |s.jobs|
  {
    JobInvPlus(s, j, 0)
  }

  /** The same while `extra` of its pieces are taken out but not yet settled. */
  predicate JobInvPlus(s: State, j: nat, extra: nat)
    requires j < |s.jobs|
  {
    Balanced(s.jobs[j], Count(s.pending, j) + Count(s.inflight, j) + extra, Count(s.submitted, j), Outcomes(s.log, j),
             Resolutions(s.log, j) + Unset(s.outbox, j), Releases(s.log, j) + Leaving(s.outbox, j))
  }

  /**
   A job against the counts of its queued and submitted pieces, the outcomes so far,
   and how often its promise and its keep-alive have left it.
   */
  predicate Balanced(job: Job, queued: nat, submitted: nat, outcomes: seq<Status>, promises: nat, keepAlives: nat)
  {
    && job.remaining == queued
    && |outcomes| + job.remaining == submitted
    && submitted > 0
    && job.status == FirstError(outcomes)
    && (job.hasPromise <==> job.remaining > 0)
    && promises + One(job.hasPromise) == 1
    && keepAlives + One(job.hasPromise) == 1
  }

  /** The invariant while one piece of `taken` is out of the queues. */
  predicate JobInvBut(s: State, j: nat, taken: nat)
    requires j < |s.jobs|
  {
    JobInvPlus(s, j, if j == taken then 1 else 0)
  }

  predicate JobsInv(s: State)
  {
    forall j: nat :: j < |s.jobs| ==> JobInv(s, j)
  }

  predicate OutboxInv(s: State)
  {
    forall k :: 0 <= k < |s.outbox| ==>
      && s.outbox[k].job < |s.jobs|
      && s.jobs[s.outbox[k].job].remaining == 0
      && s.outbox[k].status == s.jobs[s.outbox[k].job].status
  }

  /**
   An event in its history: a promise is set only after all pieces of its job
   have settled, with the first error among them; a keep-alive is released only
   after the promise was set.
   */
  predicate InOrder(before: seq<Event>, e: Event, submitted: seq<Piece>, n: nat)
  {
    && e.job < n
    && match e
       case Settled(_, _) => true
       case Resolved(j, status) =>
         |Outcomes(before, j)| == Count(submitted, j) && status == FirstError(Outcomes(before, j))
       case Released(j) => Resolutions(before, j) == 1
  }

  predicate LogInv(s: State)
  {
    forall p :: 0 <= p < |s.log| ==> InOrder(s.log[..p], s.log[p], s.submitted, |s.jobs|)
  }

  predicate Inv(s: State)
  {
    Accounting(s) && Fifo(s) && JobsInv(s) && OutboxInv(s) && LogInv(s)
  }

  /** After the destructor's critical section nothing is queued any more. */
  predicate Quiet(s: State)
  {
    s.shutdown ==> s.pending == []
  }

  lemma {:induction false} InitInv(options: Options)
    ensures Inv(Init(options))
  {
    var s := Init(options);
    assert Accounting(s) && Fifo(s);
    assert s.jobs == [] && s.outbox == [] && s.log == [];
  }

  // ---- admission ----

  lemma {:induction false} AdmitKeepsInv(s: State)
    requires Inv(s) && !s.shutdown && s.pending != []
    ensures Inv(AdmitFront(s))
  {
    AdmitKeepsAccounting(s);
    AdmitKeepsFifo(s);
    AdmitKeepsJobs(s);
    assert OutboxInv(AdmitFront(s)) && LogInv(AdmitFront(s)) by { AdmitKeepsSettled(s); }
  }

  lemma AdmitKeepsAccounting(s: State)
    requires Accounting(s) && s.pending != []
    ensures Accounting(AdmitFront(s))
  {
    BytesConcat(s.inflight, [s.pending[0]]);
  }

  lemma {:induction false} AdmitKeepsJobs(s: State)
    requires JobsInv(s) && s.pending != []
    ensures JobsInv(AdmitFront(s))
  {
    forall j: nat | j < |s.jobs|
      ensures JobInv(AdmitFront(s), j)
    {
      assert JobInv(s, j);
      AdmitKeepsJob(s, j);
    }
  }

  lemma AdmitKeepsSettled(s: State)
    requires OutboxInv(s) && LogInv(s) && s.pending != []
    ensures OutboxInv(AdmitFront(s)) && LogInv(AdmitFront(s))
  {
  }

  lemma AdmitKeepsJob(s: State, j: nat)
    requires s.pending != [] && j < |s.jobs| && JobInv(s, j)
    ensures JobInv(AdmitFront(s), j)
  {
    FrontPiece(s.pending, j);
    CountConcat(s.inflight, [s.pending[0]], j);
  }

  lemma AdmitKeepsFifo(s: State)
    requires Fifo(s) && !s.shutdown && s.pending != []
    ensures Fifo(AdmitFront(s))
  {
    var p := s.pending[0];
    assert s.admitted + s.cancelled + s.pending == s.admitted + [p] + s.cancelled + s.pending[1..];
  }

  lemma {:induction false} TakeKeepsInv(s: State)
    requires Inv(s) && !s.shutdown
    ensures var t := TakeIssuable(s);
            && Inv(t)
            && !t.shutdown
            && !CanIssueFront(t)
            && t.options == s.options
            && (CanIssueFront(s) ==> |t.pending| < |s.pending|)
            && |t.pending| + |t.inflight| == |s.pending| + |s.inflight|
            && t.outbox == s.outbox
    decreases |s.pending|
  {
    if CanIssueFront(s) {
      AdmitKeepsInv(s);
      TakeKeepsInv(AdmitFront(s));
    }
  }

  // ---- submission ----

  predicate Labelled(pieces: seq<Piece>, job: nat)
  {
    forall i :: 0 <= i < |pieces| ==> pieces[i].job == job && pieces[i].size > 0
  }

  lemma {:induction false} SplitLabelled(job: nat, copy: nat, offset: int, size: int, step: int)
    requires step > 0
    ensures Labelled(Split(job, copy, offset, size, step), job)
    decreases size - offset
  {
    if offset < size {
      SplitLabelled(job, copy, offset + step, size, step);
    }
  }

  lemma {:induction false} PiecesLabelled(job: nat, request: Request, n: nat)
    requires n <= |request.sizes| && request.chunkBytes > 0
    ensures Labelled(PiecesOfFirst(job, request, n), job)
    decreases n
  {
    if n > 0 {
      PiecesLabelled(job, request, n - 1);
      CopyLabelled(job, request, n - 1);
      LabelledConcat(PiecesOfFirst(job, request, n - 1), CopyPieces(job, request, n - 1), job);
    }
  }

  lemma LabelledConcat(a: seq<Piece>, b: seq<Piece>, job: nat)
    requires Labelled(a, job) && Labelled(b, job)
    ensures Labelled(a + b, job)
  {
  }

  lemma CopyLabelled(job: nat, request: Request, n: nat)
    requires n < |request.sizes| && request.chunkBytes > 0
    ensures Labelled(CopyPieces(job, request, n), job)
  {
    var size := request.sizes[n];
    if size > 0 {
      SplitLabelled(job, n, 0, size, if request.paced then request.chunkBytes else size);
    }
  }

  lemma {:induction false} PiecesNonEmpty(job: nat, request: Request, n: nat, i: nat)
    requires i < n <= |request.sizes| && request.chunkBytes > 0 && request.sizes[i] > 0
    ensures PiecesOfFirst(job, request, n) != []
    decreases n
  {
    if i < n - 1 {
      PiecesNonEmpty(job, request, n - 1, i);
    }
  }

  lemma {:induction false} CountLabelled(pieces: seq<Piece>, job: nat, j: nat)
    requires Labelled(pieces, job)
    ensures Count(pieces, j) == if j == job then |pieces| else 0
  {
    if pieces != [] {
      CountLabelled(pieces[..|pieces| - 1], job, j);
    }
  }

  lemma {:induction false} CountAbsent(pieces: seq<Piece>, j: nat)
    requires Sound(pieces, j)
    ensures Count(pieces, j) == 0
  {
    if pieces != [] {
      CountAbsent(pieces[..|pieces| - 1], j);
    }
  }

  lemma {:induction false} NoEvents(log: seq<Event>, j: nat)
    requires forall p :: 0 <= p < |log| ==> log[p].job < j
    ensures Outcomes(log, j) == [] && Resolutions(log, j) == 0 && Releases(log, j) == 0
  {
    if log != [] {
      NoEvents(log[..|log| - 1], j);
    }
  }

  lemma {:induction false} NothingLeaving(outbox: seq<Outgoing>, j: nat)
    requires forall k :: 0 <= k < |outbox| ==> outbox[k].job < j
    ensures Unset(outbox, j) == 0 && Leaving(outbox, j) == 0
  {
    if outbox != [] {
      NothingLeaving(outbox[..|outbox| - 1], j);
    }
  }

  lemma {:induction false} EnqueueKeepsInv(s: State, sizes: seq<int>)
    requires Inv(s) && !s.shutdown && HasBytes(sizes)
    ensures Inv(Enqueue(s, sizes))
  {
    var t := Enqueue(s, sizes);
    NewPieces(s, sizes);
    EnqueueKeepsAccounting(s, sizes);
    EnqueueKeepsFifo(s, sizes);
    forall j: nat | j < |t.jobs|
      ensures JobInv(t, j)
    {
      if j < |s.jobs| {
        assert JobInv(s, j);
        EnqueueKeepsJob(s, sizes, j);
      } else {
        NewJobIsFresh(s);
        EnqueueAddsJob(s, sizes);
      }
    }
    EnqueueKeepsLog(s, sizes);
  }

  function NewRequest(s: State, sizes: seq<int>): (r: Request)
  {
    Request(sizes, s.options.maxInflightBytes > 0, s.options.chunkBytes)
  }

  lemma NewPieces(s: State, sizes: seq<int>)
    requires s.options.chunkBytes > 0
    ensures Labelled(Pieces(|s.jobs|, NewRequest(s, sizes)), |s.jobs|)
    ensures HasBytes(sizes) ==> Pieces(|s.jobs|, NewRequest(s, sizes)) != []
  {
    PiecesLabelled(|s.jobs|, NewRequest(s, sizes), |sizes|);
    if HasBytes(sizes) {
      var i :| 0 <= i < |sizes| && sizes[i] > 0;
      PiecesNonEmpty(|s.jobs|, NewRequest(s, sizes), |sizes|, i);
    }
  }

  lemma EnqueueKeepsAccounting(s: State, sizes: seq<int>)
    requires Accounting(s)
    ensures Accounting(Enqueue(s, sizes))
  {
    NewPieces(s, sizes);
  }

  lemma EnqueueKeepsJob(s: State, sizes: seq<int>, j: nat)
    requires Accounting(s) && j < |s.jobs| && JobInv(s, j)
    ensures JobInv(Enqueue(s, sizes), j)
  {
    var pieces := Pieces(|s.jobs|, NewRequest(s, sizes));
    NewPieces(s, sizes);
    CountConcat(s.pending, pieces, j);
    CountConcat(s.submitted, pieces, j);
    CountLabelled(pieces, |s.jobs|, j);
  }

  lemma EnqueueAddsJob(s: State, sizes: seq<int>)
    requires s.options.chunkBytes > 0 && HasBytes(sizes) && FreshJob(s, |s.jobs|)
    ensures JobInv(Enqueue(s, sizes), |s.jobs|)
  {
    NewJobCounts(s, sizes);
  }

  lemma NewJobCounts(s: State, sizes: seq<int>)
    requires s.options.chunkBytes > 0 && HasBytes(sizes)
    requires Count(s.pending, |s.jobs|) == 0 && Count(s.submitted, |s.jobs|) == 0
    ensures var n, t := |s.jobs|, Enqueue(s, sizes);
            t.jobs[n].remaining == Count(t.pending, n) == Count(t.submitted, n) > 0
  {
    var n := |s.jobs|;
    var pieces := Pieces(n, NewRequest(s, sizes));
    NewPieces(s, sizes);
    CountConcat(s.pending, pieces, n);
    CountConcat(s.submitted, pieces, n);
    CountLabelled(pieces, n, n);
  }

  lemma EnqueueKeepsFifo(s: State, sizes: seq<int>)
    requires Accounting(s) && Fifo(s)
    ensures Fifo(Enqueue(s, sizes))
  {
    QueueAppend(s.admitted + s.cancelled, s.pending, Pieces(|s.jobs|, NewRequest(s, sizes)));
  }

  lemma QueueAppend(a: seq<Piece>, b: seq<Piece>, c: seq<Piece>)
    ensures a + (b + c) == (a + b) + c
  {
  }

  predicate FreshJob(s: State, n: nat)
  {
    && Count(s.pending, n) == 0 && Count(s.inflight, n) == 0 && Count(s.submitted, n) == 0
    && Outcomes(s.log, n) == [] && Resolutions(s.log, n) == 0 && Releases(s.log, n) == 0
    && Unset(s.outbox, n) == 0 && Leaving(s.outbox, n) == 0
  }

  lemma NewJobIsFresh(s: State)
    requires Inv(s)
    ensures FreshJob(s, |s.jobs|)
  {
    var n := |s.jobs|;
    CountAbsent(s.pending, n);
    CountAbsent(s.inflight, n);
    CountAbsent(s.submitted, n);
    forall p | 0 <= p < |s.log|
      ensures s.log[p].job < n
    {
      assert InOrder(s.log[..p], s.log[p], s.submitted, n);
    }
    NoEvents(s.log, n);
    NothingLeaving(s.outbox, n);
  }

  lemma EnqueueKeepsLog(s: State, sizes: seq<int>)
    requires Accounting(s) && LogInv(s)
    ensures LogInv(Enqueue(s, sizes))
  {
    var t := Enqueue(s, sizes);
    forall p | 0 <= p < |t.log|
      ensures InOrder(t.log[..p], t.log[p], t.submitted, |t.jobs|)
    {
      assert InOrder(s.log[..p], s.log[p], s.submitted, |s.jobs|);
      EnqueueKeepsCount(s, sizes, s.log[p].job);
    }
  }

  lemma EnqueueKeepsCount(s: State, sizes: seq<int>, j: nat)
    requires s.options.chunkBytes > 0 && j < |s.jobs|
    ensures Count(Enqueue(s, sizes).submitted, j) == Count(s.submitted, j)
  {
    var pieces := Pieces(|s.jobs|, NewRequest(s, sizes));
    NewPieces(s, sizes);
    CountConcat(s.submitted, pieces, j);
    CountLabelled(pieces, |s.jobs|, j);
  }

  // ---- settling ----

  lemma {:induction false} SettleKeepsInv(t: State, j: nat, status: Status)
    requires j < |t.jobs| && OutboxInv(t) && LogInv(t)
    requires forall i: nat :: i < |t.jobs| ==> JobInvBut(t, i, j)
    ensures var u := Settle(t, j, status);
            JobsInv(u) && OutboxInv(u) && LogInv(u)
  {
    var u := Settle(t, j, status);
    forall i: nat | i < |u.jobs|
      ensures JobInv(u, i)
    {
      assert JobInvBut(t, i, j);
      SettleKeepsJob(t, j, status, i);
    }
    assert JobInvBut(t, j, j);
    SettleKeepsOutbox(t, j, status);
    LogGrows(t, u, Settled(j, status));
  }

  lemma {:induction false} SettleKeepsJob(t: State, j: nat, status: Status, i: nat)
    requires j < |t.jobs| && i < |t.jobs| && JobInvBut(t, i, j)
    ensures JobInv(Settle(t, j, status), i)
  {
    var last := t.jobs[j].remaining - 1 == 0 && t.jobs[j].hasPromise;
    var recorded := Worse(t.jobs[j].status, status);
    LogAppend(t.log, Settled(j, status), i);
    OutboxAppend(t.outbox, Outgoing(j, recorded, false), i);
    if i == j {
      SettleBalances(t.jobs[j], Count(t.pending, j) + Count(t.inflight, j), Count(t.submitted, j), Outcomes(t.log, j),
                     Resolutions(t.log, j) + Unset(t.outbox, j), Releases(t.log, j) + Leaving(t.outbox, j), status);
    }
  }

  lemma SettleBalances(job: Job, queued: nat, submitted: nat, outcomes: seq<Status>, promises: nat, keepAlives: nat,
                       status: Status)
    requires Balanced(job, queued + 1, submitted, outcomes, promises, keepAlives)
    ensures var last := job.remaining - 1 == 0 && job.hasPromise;
            Balanced(Job(job.remaining - 1, Worse(job.status, status), job.hasPromise && !last), queued, submitted,
                     outcomes + [status], promises + One(last), keepAlives + One(last))
  {
    assert (outcomes + [status])[..|outcomes|] == outcomes;
  }

  lemma SettleKeepsOutbox(t: State, j: nat, status: Status)
    requires j < |t.jobs| && OutboxInv(t) && JobInvBut(t, j, j)
    ensures OutboxInv(Settle(t, j, status))
  {
    assert t.jobs[j].remaining >= 1;
  }

  lemma LogGrows(s: State, t: State, e: Event)
    requires LogInv(s) && t.log == s.log + [e] && t.submitted == s.submitted && |t.jobs| == |s.jobs|
    requires InOrder(s.log, e, s.submitted, |s.jobs|)
    ensures LogInv(t)
  {
    forall p | 0 <= p < |t.log|
      ensures InOrder(t.log[..p], t.log[p], t.submitted, |t.jobs|)
    {
      if p < |s.log| {
        assert t.log[..p] == s.log[..p];
      } else {
        assert t.log[..p] == s.log;
      }
    }
  }

  function TakeOut(s: State, k: nat): (r: State)
    requires k < |s.inflight|
  {
    s.(inflight := s.inflight[..k] + s.inflight[k + 1..],
       finished := s.finished + [s.inflight[k]],
       inflightBytes := s.inflightBytes - s.inflight[k].size)
  }

  lemma {:induction false} FinishKeepsInv(s: State, k: nat, status: Status)
    requires Inv(s) && k < |s.inflight|
    ensures Inv(FinishPiece(s, k, status))
  {
    var t := TakeOut(s, k);
    var j := s.inflight[k].job;
    TakeOutKeepsAccounting(s, k);
    FinishKeepsPieces(s, k);
    forall i: nat | i < |t.jobs|
      ensures JobInvBut(t, i, j)
    {
      assert JobInv(s, i);
      RemovedPiece(s.inflight, k, i);
    }
    SettleKeepsInv(t, j, status);
  }

  lemma TakeOutKeepsAccounting(s: State, k: nat)
    requires Accounting(s) && k < |s.inflight|
    ensures Accounting(TakeOut(s, k))
  {
    RemovedPiece(s.inflight, k, 0);
  }

  lemma FinishKeepsPieces(s: State, k: nat)
    requires k < |s.inflight|
    ensures multiset(TakeOut(s, k).inflight) + multiset(TakeOut(s, k).finished)
         == multiset(s.inflight) + multiset(s.finished)
  {
    assert s.inflight == s.inflight[..k] + [s.inflight[k]] + s.inflight[k + 1..];
  }

  function TakeFront(s: State): (r: State)
    requires s.pending != []
  {
    s.(pending := s.pending[1..], cancelled := s.cancelled + [s.pending[0]])
  }

  lemma {:induction false} CancelKeepsInv(s: State)
    requires Inv(s) && s.shutdown && s.pending != []
    ensures Inv(CancelFront(s))
  {
    var t := TakeFront(s);
    var j := s.pending[0].job;
    forall i: nat | i < |t.jobs|
      ensures JobInvBut(t, i, j)
    {
      assert JobInv(s, i);
      FrontPiece(s.pending, i);
    }
    SettleKeepsInv(t, j, CANCELLED);
    TakeFrontKeepsFifo(s);
  }

  lemma TakeFrontKeepsFifo(s: State)
    requires Fifo(s) && s.shutdown && s.pending != []
    ensures Fifo(TakeFront(s))
  {
    assert s.admitted + s.cancelled + s.pending
        == s.admitted + (s.cancelled + [s.pending[0]]) + s.pending[1..];
  }

  lemma {:induction false} CancelAllKeepsInv(s: State)
    requires Inv(s) && s.shutdown && JobsExist(s.pending, |s.jobs|)
    ensures Inv(CancelPending(s)) && Quiet(CancelPending(s)) && CancelPending(s).shutdown
    decreases |s.pending|
  {
    if s.pending != [] {
      CancelKeepsInv(s);
      CancelAllKeepsInv(CancelFront(s));
    }
  }

  // ---- promises and keep-alives ----

  lemma ResolveKeepsInv(s: State, k: nat)
    requires Inv(s) && k < |s.outbox| && !s.outbox[k].resolved
    ensures Inv(ResolveOut(s, k))
  {
    var t := ResolveOut(s, k);
    var out := s.outbox[k];
    assert JobInv(s, out.job);
    assert JobsInv(t) by { ResolveKeepsJobs(s, k); }
    assert OutboxInv(t) by { ResolveKeepsOutbox(s, k); }
    LogGrows(s, t, Resolved(out.job, out.status));
  }

  lemma {:induction false} ResolveKeepsJobs(s: State, k: nat)
    requires JobsInv(s) && k < |s.outbox| && !s.outbox[k].resolved
    ensures JobsInv(ResolveOut(s, k))
  {
    forall i: nat | i < |s.jobs|
      ensures JobInv(ResolveOut(s, k), i)
    {
      assert JobInv(s, i);
      ResolveKeepsJob(s, k, i);
    }
  }

  lemma ResolveKeepsOutbox(s: State, k: nat)
    requires OutboxInv(s) && k < |s.outbox| && !s.outbox[k].resolved
    ensures OutboxInv(ResolveOut(s, k))
  {
  }

  lemma ResolveKeepsJob(s: State, k: nat, i: nat)
    requires k < |s.outbox| && !s.outbox[k].resolved && i < |s.jobs| && JobInv(s, i)
    ensures JobInv(ResolveOut(s, k), i)
  {
    LogAppend(s.log, Resolved(s.outbox[k].job, s.outbox[k].status), i);
    OutboxSet(s.outbox, k, i);
  }

  lemma ReleaseKeepsInv(s: State, k: nat)
    requires Inv(s) && k < |s.outbox| && s.outbox[k].resolved
    ensures Inv(ReleaseOut(s, k))
  {
    var t := ReleaseOut(s, k);
    var j := s.outbox[k].job;
    assert JobInv(s, j);
    ReleasedAfterResolved(s, k);
    assert JobsInv(t) by { ReleaseKeepsJobs(s, k); }
    assert OutboxInv(t) by { ReleaseKeepsOutbox(s, k); }
    LogGrows(s, t, Released(j));
  }

  lemma {:induction false} ReleaseKeepsJobs(s: State, k: nat)
    requires JobsInv(s) && k < |s.outbox| && s.outbox[k].resolved
    ensures JobsInv(ReleaseOut(s, k))
  {
    forall i: nat | i < |s.jobs|
      ensures JobInv(ReleaseOut(s, k), i)
    {
      assert JobInv(s, i);
      ReleaseKeepsJob(s, k, i);
    }
  }

  lemma ReleaseKeepsOutbox(s: State, k: nat)
    requires OutboxInv(s) && k < |s.outbox| && s.outbox[k].resolved
    ensures OutboxInv(ReleaseOut(s, k))
  {
  }

  lemma ReleasedAfterResolved(s: State, k: nat)
    requires k < |s.outbox| && s.outbox[k].resolved && s.outbox[k].job < |s.jobs| && JobInv(s, s.outbox[k].job)
    ensures Resolutions(s.log, s.outbox[k].job) == 1
  {
    OutboxRemove(s.outbox, k, s.outbox[k].job);
  }

  lemma {:induction false} ReleaseKeepsJob(s: State, k: nat, i: nat)
    requires k < |s.outbox| && s.outbox[k].resolved && i < |s.jobs| && JobInv(s, i)
    ensures JobInv(ReleaseOut(s, k), i)
  {
    ReleaseCounts(s.log, s.outbox, k, i);
  }

  lemma {:induction false} ReleaseCounts(log: seq<Event>, outbox: seq<Outgoing>, k: nat, i: nat)
    requires k < |outbox| && outbox[k].resolved
    ensures var log', outbox' := log + [Released(outbox[k].job)], outbox[..k] + outbox[k + 1..];
            && Outcomes(log', i) == Outcomes(log, i)
            && Resolutions(log', i) + Unset(outbox', i) == Resolutions(log, i) + Unset(outbox, i)
            && Releases(log', i) + Leaving(outbox', i) == Releases(log, i) + Leaving(outbox, i)
  {
    LogAppend(log, Released(outbox[k].job), i);
    OutboxRemove(outbox, k, i);
  }

  // ---- every run ----

  lemma ApplyKeepsInv(s: State, a: Action)
    requires Inv(s) && Quiet(s) && Enabled(s, a)
    ensures Inv(Apply(s, a)) && Quiet(Apply(s, a))
  {
    match a
    case Submit(sizes) =>
      if HasBytes(sizes) {
        EnqueueKeepsInv(s, sizes);
        TakeKeepsInv(Enqueue(s, sizes));
      }
    case Wake => TakeKeepsInv(s);
    case Complete(k, status) => FinishKeepsInv(s, k, status);
    case SetOptions(options) =>
      RelabelKeepsInv(s, Apply(s, a));
    case ResetPeak =>
      RelabelKeepsInv(s, Apply(s, a));
    case Shutdown =>
      RelabelKeepsInv(s, s.(shutdown := true));
      CancelAllKeepsInv(s.(shutdown := true));
    case Resolve(k) => ResolveKeepsInv(s, k);
    case Release(k) => ReleaseKeepsInv(s, k);
  }

  /** Options, the peak and the shutdown flag are not part of any history. */
  lemma RelabelKeepsInv(s: State, t: State)
    requires Inv(s) && (s.shutdown ==> t.shutdown)
    requires t == s.(options := t.options, peakBytes := t.peakBytes, shutdown := t.shutdown)
    requires t.options.chunkBytes >= PIECE_ALIGNMENT && t.options.chunkBytes % PIECE_ALIGNMENT == 0
    requires t.inflightBytes <= t.peakBytes
    ensures Inv(t)
  {
    forall j: nat | j < |t.jobs|
      ensures JobInv(t, j)
    {
      assert JobInv(s, j);
    }
  }

  lemma {:induction false} RunKeepsInv(s: State, actions: seq<Action>)
    requires Inv(s) && Quiet(s) && CanRun(s, actions)
    ensures Inv(Run(s, actions)) && Quiet(Run(s, actions))
    decreases |actions|
  {
    if actions != [] {
      ApplyKeepsInv(s, actions[0]);
      RunKeepsInv(Apply(s, actions[0]), actions[1..]);
    }
  }

  lemma {:induction false} RunAppend(s: State, actions: seq<Action>, a: Action)
    requires CanRun(s, actions) && Enabled(Run(s, actions), a)
    ensures CanRun(s, actions + [a]) && Run(s, actions + [a]) == Apply(Run(s, actions), a)
    decreases |actions|
  {
    if actions == [] {
      assert [a][1..] == [];
    } else {
      RunAppend(Apply(s, actions[0]), actions[1..], a);
      assert (actions + [a])[1..] == actions[1..] + [a];
    }
  }

  /** Every reachable state, from any options and any interleaving. */
  lemma EveryRunKeepsInv(options: Options, actions: seq<Action>)
    requires CanRun(Init(options), actions)
    ensures Inv(Run(Init(options), actions)) && Quiet(Run(Init(options), actions))
  {
    InitInv(options);
    RunKeepsInv(Init(options), actions);
  }
}
