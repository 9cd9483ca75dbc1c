/**
 The pacer's promises to its callers, over every run: when and how a submission
 resolves, how copies are cut, how many bytes are in flight, and that queued work
 always drains.
 */
module PacerGuarantees {
  import opened PacerSteps
  import opened PacerRuns

  // ---- resolution ----

  /** The pieces of a job are the ones its own submission was cut into. */
  lemma {:induction false} CountOfJob(requests: seq<Request>, j: nat)
    requires Aligned(requests)
    ensures Count(Concatenated(requests), j) == if j < |requests| then |Pieces(j, requests[j])| else 0
    decreases |requests|
  {
    if requests != [] {
      var n := |requests| - 1;
      CountOfJob(requests[..n], j);
      var pieces := Pieces(n, requests[n]);
      PiecesLabelled(n, requests[n], |requests[n].sizes|);
      CountLabelled(pieces, n, j);
      CountConcat(Concatenated(requests[..n]), pieces, j);
    }
  }

  lemma {:induction false} ResolutionsMonotone(log: seq<Event>, p: nat, q: nat, j: nat)
    requires p <= q <= |log|
    ensures Resolutions(log[..p], j) <= Resolutions(log[..q], j)
    decreases q - p
  {
    if p < q {
      ResolutionsMonotone(log, p, q - 1, j);
      assert log[..q][..q - 1] == log[..q - 1];
    }
  }

  lemma {:induction false} NoReleaseBefore(s: State, p: nat, j: nat)
    requires LogInv(s) && p <= |s.log| && Resolutions(s.log[..p], j) == 0
    ensures Releases(s.log[..p], j) == 0
    decreases p
  {
    if p > 0 {
      assert s.log[..p][..p - 1] == s.log[..p - 1];
      ResolutionsMonotone(s.log, p - 1, p, j);
      NoReleaseBefore(s, p - 1, j);
      assert InOrder(s.log[..p - 1], s.log[p - 1], s.submitted, |s.jobs|);
    }
  }

  /**
   Wherever a promise is set in a run: every piece of its submission has settled
   before, the status is OK exactly if all were OK and otherwise the first error
   recorded, it is the only time that promise is set, and the keep-alive has not
   been released yet.
   */
  lemma ResolvedOnceWithFirstError(options: Options, actions: seq<Action>, p: nat)
    requires CanRun(Init(options), actions)
    requires p < |Run(Init(options), actions).log|
    requires Run(Init(options), actions).log[p].Resolved?
    ensures var s := Run(Init(options), actions);
            var j, status := s.log[p].job, s.log[p].status;
            var outcomes := Outcomes(s.log[..p], j);
            && j < |s.requests| && s.requests[j].chunkBytes > 0
            && |outcomes| == |Pieces(j, s.requests[j])|
            && (status == Ok <==> forall i :: 0 <= i < |outcomes| ==> outcomes[i] == Ok)
            && (status != Ok ==> exists i :: && 0 <= i < |outcomes|
                                             && outcomes[i] == status
                                             && forall h :: 0 <= h < i ==> outcomes[h] == Ok)
            && Resolutions(s.log, j) == 1
            && Releases(s.log[..p], j) == 0
  {
    EveryRunKeepsInv(options, actions);
    var s := Run(Init(options), actions);
    ResolvedIsFinal(s, p);
    FirstErrorIsFirst(Outcomes(s.log[..p], s.log[p].job));
  }

  lemma ResolvedIsFinal(s: State, p: nat)
    requires Inv(s) && p < |s.log| && s.log[p].Resolved?
    ensures var j := s.log[p].job;
            && j < |s.requests| && s.requests[j].chunkBytes > 0
            && |Outcomes(s.log[..p], j)| == |Pieces(j, s.requests[j])|
            && s.log[p].status == FirstError(Outcomes(s.log[..p], j))
            && Resolutions(s.log, j) == 1
            && Releases(s.log[..p], j) == 0
  {
    var j := s.log[p].job;
    assert InOrder(s.log[..p], s.log[p], s.submitted, |s.jobs|);
    CountOfJob(s.requests, j);
    assert JobInv(s, j);
    ResolvedOnce(s, p);
  }

  lemma ResolvedOnce(s: State, p: nat)
    requires LogInv(s) && p < |s.log| && s.log[p].Resolved? && Resolutions(s.log, s.log[p].job) <= 1
    ensures Resolutions(s.log, s.log[p].job) == 1
    ensures Releases(s.log[..p], s.log[p].job) == 0
  {
    var j := s.log[p].job;
    assert s.log[..p + 1][..p] == s.log[..p];
    ResolutionsMonotone(s.log, p + 1, |s.log|, j);
    assert s.log[..|s.log|] == s.log;
    NoReleaseBefore(s, p, j);
  }

  /** A promise still held belongs to a job with pieces queued or in flight. */
  lemma HeldPromiseHasWork(options: Options, actions: seq<Action>, j: nat)
    requires CanRun(Init(options), actions)
    requires j < |Run(Init(options), actions).jobs|
    ensures var s := Run(Init(options), actions);
            && s.jobs[j].remaining == Count(s.pending, j) + Count(s.inflight, j)
            && (s.jobs[j].hasPromise <==> Count(s.pending, j) + Count(s.inflight, j) > 0)
            && Resolutions(s.log, j) + Unset(s.outbox, j) + One(s.jobs[j].hasPromise) == 1
            && Releases(s.log, j) + Leaving(s.outbox, j) + One(s.jobs[j].hasPromise) == 1
  {
    EveryRunKeepsInv(options, actions);
    assert JobInv(Run(Init(options), actions), j);
  }

  // ---- order and cutting ----

  /** Admitted, cancelled and queued pieces are all submissions in order, once each. */
  lemma AdmissionIsFifo(options: Options, actions: seq<Action>)
    requires CanRun(Init(options), actions)
    ensures var s := Run(Init(options), actions);
            && s.admitted + s.cancelled + s.pending == Concatenated(s.requests)
            && (!s.shutdown ==> s.cancelled == [])
            && (s.shutdown ==> s.pending == [])
            && multiset(s.inflight) + multiset(s.finished) == multiset(s.admitted)
            && s.issued == |s.admitted|
  {
    EveryRunKeepsInv(options, actions);
  }

  lemma {:induction false} OtherSubmission(requests: seq<Request>, j: nat, c: nat)
    requires Aligned(requests) && requests != [] && j != |requests| - 1
    ensures OfCopy(Concatenated(requests), j, c) == OfCopy(Concatenated(requests[..|requests| - 1]), j, c)
  {
    var n := |requests| - 1;
    OfCopyConcat(Concatenated(requests[..n]), Pieces(n, requests[n]), j, c);
    CopyPiecesOf(n, requests[n], |requests[n].sizes|, j, c);
  }

  lemma OwnSubmission(requests: seq<Request>, c: nat)
    requires Aligned(requests) && requests != [] && c < |requests[|requests| - 1].sizes|
    ensures var n := |requests| - 1;
            OfCopy(Concatenated(requests), n, c) == CopyPieces(n, requests[n], c)
  {
    var n := |requests| - 1;
    OfCopyConcat(Concatenated(requests[..n]), Pieces(n, requests[n]), n, c);
    CopyPiecesOf(n, requests[n], |requests[n].sizes|, n, c);
    NotYetSubmitted(requests[..n], n, c);
  }

  lemma {:induction false} CopyInSubmissions(requests: seq<Request>, j: nat, c: nat)
    requires Aligned(requests) && j < |requests| && c < |requests[j].sizes|
    ensures OfCopy(Concatenated(requests), j, c) == CopyPieces(j, requests[j], c)
    decreases |requests|
  {
    if j < |requests| - 1 {
      OtherSubmission(requests, j, c);
      CopyInSubmissions(requests[..|requests| - 1], j, c);
    } else {
      OwnSubmission(requests, c);
    }
  }

  lemma {:induction false} NotYetSubmitted(requests: seq<Request>, j: nat, c: nat)
    requires Aligned(requests) && |requests| <= j
    ensures OfCopy(Concatenated(requests), j, c) == []
    decreases |requests|
  {
    if requests != [] {
      OtherSubmission(requests, j, c);
      NotYetSubmitted(requests[..|requests| - 1], j, c);
    }
  }

  /**
   Under pacing, the pieces of each copy ever submitted tile [0, size) without gap
   or overlap, each at most one chunk and at a 4 KiB aligned offset; without
   pacing a copy stays one piece.
   */
  lemma CopiesAreTiled(options: Options, actions: seq<Action>, j: nat, c: nat)
    requires CanRun(Init(options), actions)
    requires var s := Run(Init(options), actions);
             j < |s.requests| && c < |s.requests[j].sizes| && s.requests[j].sizes[c] > 0
    ensures var s := Run(Init(options), actions);
            var request := s.requests[j];
            var pieces := OfCopy(s.admitted + s.cancelled + s.pending, j, c);
            if request.paced
            then && Tile(pieces, 0, request.sizes[c], request.chunkBytes)
                 && forall i :: 0 <= i < |pieces| ==> pieces[i].offset % PIECE_ALIGNMENT == 0
            else pieces == [Piece(j, c, 0, request.sizes[c])]
  {
    EveryRunKeepsInv(options, actions);
    var s := Run(Init(options), actions);
    CopyInSubmissions(s.requests, j, c);
    CopyIsTiled(j, s.requests[j], c);
  }

  lemma CopyIsTiled(j: nat, request: Request, c: nat)
    requires c < |request.sizes| && request.sizes[c] > 0
    requires request.chunkBytes >= PIECE_ALIGNMENT && request.chunkBytes % PIECE_ALIGNMENT == 0
    ensures var pieces := CopyPieces(j, request, c);
            if request.paced
            then && Tile(pieces, 0, request.sizes[c], request.chunkBytes)
                 && forall i :: 0 <= i < |pieces| ==> pieces[i].offset % PIECE_ALIGNMENT == 0
            else pieces == [Piece(j, c, 0, request.sizes[c])]
  {
    var size := request.sizes[c];
    var pieces := CopyPieces(j, request, c);
    if request.paced {
      SplitTiles(j, c, 0, size, request.chunkBytes);
      forall i | 0 <= i < |pieces|
        ensures pieces[i].offset % PIECE_ALIGNMENT == 0
      {
        TileOffsetsAligned(pieces, 0, size, request.chunkBytes, i);
      }
    } else {
      assert Split(j, c, size, size, size) == [];
    }
  }

  // ---- the window ----

  lemma {:induction false} BytesPositive(pieces: seq<Piece>, n: nat)
    requires Sound(pieces, n)
    ensures Bytes(pieces) >= |pieces|
  {
    if pieces != [] {
      BytesPositive(pieces[..|pieces| - 1], n);
    }
  }

  predicate WithinWindow(s: State)
  {
    || s.options.maxInflightBytes <= 0
    || s.inflightBytes <= s.options.maxInflightBytes
    || |s.inflight| == 1
  }

  /** Whatever options came before, each admission respects the limit now in force. */
  lemma AdmissionRespectsLimit(s: State)
    requires Inv(s) && CanIssueFront(s)
    ensures WithinWindow(AdmitFront(s))
  {
    BytesPositive(s.inflight, |s.jobs|);
  }

  predicate AtMost(pieces: seq<Piece>, chunk: int)
  {
    forall i :: 0 <= i < |pieces| ==> pieces[i].size <= chunk
  }

  /** The state of a pacer whose options never change. */
  predicate Paced(s: State, options: Options)
  {
    && s.options == options
    && AtMost(s.pending, options.chunkBytes)
    && AtMost(s.inflight, options.chunkBytes)
    && WithinWindow(s)
    && s.peakBytes <= Max(options.maxInflightBytes, options.chunkBytes)
  }

  lemma WindowBytes(s: State, options: Options)
    requires s.options == options && options.maxInflightBytes > 0
    requires AtMost(s.inflight, options.chunkBytes) && WithinWindow(s) && s.inflightBytes == Bytes(s.inflight)
    ensures s.inflightBytes <= Max(options.maxInflightBytes, options.chunkBytes)
  {
    if |s.inflight| == 1 {
      assert s.inflight == [s.inflight[0]];
    }
  }

  lemma AdmitKeepsPaced(s: State, options: Options)
    requires Inv(s) && !s.shutdown && Paced(s, options) && options.maxInflightBytes > 0 && CanIssueFront(s)
    ensures Paced(AdmitFront(s), options)
  {
    AdmissionRespectsLimit(s);
    AdmitKeepsInv(s);
    WindowBytes(AdmitFront(s), options);
  }

  lemma {:induction false} TakeKeepsPaced(s: State, options: Options)
    requires Inv(s) && !s.shutdown && Paced(s, options) && options.maxInflightBytes > 0
    ensures Paced(TakeIssuable(s), options)
    decreases |s.pending|
  {
    if CanIssueFront(s) {
      AdmitKeepsInv(s);
      AdmitKeepsPaced(s, options);
      TakeKeepsPaced(AdmitFront(s), options);
    }
  }

  lemma {:induction false} SplitAtMost(job: nat, copy: nat, offset: int, size: int, step: int)
    requires step > 0
    ensures AtMost(Split(job, copy, offset, size, step), step)
    decreases size - offset
  {
    if offset < size {
      SplitAtMost(job, copy, offset + step, size, step);
    }
  }

  lemma {:induction false} PiecesAtMost(job: nat, request: Request, n: nat)
    requires n <= |request.sizes| && request.chunkBytes > 0 && request.paced
    ensures AtMost(PiecesOfFirst(job, request, n), request.chunkBytes)
    decreases n
  {
    if n > 0 {
      PiecesAtMost(job, request, n - 1);
      CopyAtMost(job, request, n - 1);
      AtMostConcat(PiecesOfFirst(job, request, n - 1), CopyPieces(job, request, n - 1), request.chunkBytes);
    }
  }

  lemma AtMostConcat(a: seq<Piece>, b: seq<Piece>, chunk: int)
    requires AtMost(a, chunk) && AtMost(b, chunk)
    ensures AtMost(a + b, chunk)
  {
  }

  lemma CopyAtMost(job: nat, request: Request, n: nat)
    requires n < |request.sizes| && request.chunkBytes > 0 && request.paced
    ensures AtMost(CopyPieces(job, request, n), request.chunkBytes)
  {
    if request.sizes[n] > 0 {
      SplitAtMost(job, n, 0, request.sizes[n], request.chunkBytes);
    }
  }

  lemma EnqueueKeepsPaced(s: State, options: Options, sizes: seq<int>)
    requires Paced(s, options) && options.maxInflightBytes > 0 && options.chunkBytes > 0
    ensures Paced(Enqueue(s, sizes), options)
  {
    PiecesAtMost(|s.jobs|, NewRequest(s, sizes), |sizes|);
  }

  lemma {:induction false} FinishKeepsPaced(s: State, options: Options, k: nat, status: Status)
    requires Inv(s) && Paced(s, options) && k < |s.inflight|
    ensures Paced(FinishPiece(s, k, status), options)
  {
    var u := FinishPiece(s, k, status);
    RemovedPiece(s.inflight, k, 0);
    assert u.inflight == s.inflight[..k] + s.inflight[k + 1..];
    AtMostConcat(s.inflight[..k], s.inflight[k + 1..], options.chunkBytes);
    assert u.pending == s.pending && u.peakBytes == s.peakBytes && u.options == s.options;
    if |s.inflight| == 1 {
      assert u.inflight == [];
    }
  }

  lemma {:induction false} CancelKeepsPaced(s: State, options: Options)
    requires Inv(s) && s.shutdown && Paced(s, options) && JobsExist(s.pending, |s.jobs|)
    ensures Paced(CancelPending(s), options)
    decreases |s.pending|
  {
    if s.pending != [] {
      CancelKeepsInv(s);
      CancelKeepsPaced(CancelFront(s), options);
    }
  }

  lemma {:induction false} ApplyKeepsPaced(s: State, options: Options, a: Action)
    requires Inv(s) && Quiet(s) && Enabled(s, a) && !a.SetOptions?
    requires Paced(s, options) && options.maxInflightBytes > 0
    ensures Paced(Apply(s, a), options)
  {
    match a
    case Submit(sizes) =>
      if HasBytes(sizes) {
        EnqueueKeepsInv(s, sizes);
        EnqueueKeepsPaced(s, options, sizes);
        TakeKeepsPaced(Enqueue(s, sizes), options);
      }
    case Wake => TakeKeepsPaced(s, options);
    case Complete(k, status) => FinishKeepsPaced(s, options, k, status);
    case ResetPeak => WindowBytes(s, options);
    case Shutdown =>
      RelabelKeepsInv(s, s.(shutdown := true));
      CancelKeepsPaced(s.(shutdown := true), options);
    case Resolve(k) =>
    case Release(k) =>
  }

  predicate OptionsFixed(actions: seq<Action>)
  {
    forall i :: 0 <= i < |actions| ==> !actions[i].SetOptions?
  }

  lemma {:induction false} RunKeepsPaced(s: State, options: Options, actions: seq<Action>)
    requires Inv(s) && Quiet(s) && CanRun(s, actions) && OptionsFixed(actions)
    requires Paced(s, options) && options.maxInflightBytes > 0
    ensures Paced(Run(s, actions), options)
    decreases |actions|
  {
    if actions != [] {
      ApplyKeepsInv(s, actions[0]);
      ApplyKeepsPaced(s, options, actions[0]);
      RunKeepsPaced(Apply(s, actions[0]), options, actions[1..]);
    }
  }

  /**
   With a fixed positive limit, the bytes in flight are always those of the
   pieces in flight, never above the larger of limit and chunk, and above the
   limit only while a single piece is in flight.
   */
  lemma WindowBound(options: Options, actions: seq<Action>)
    requires CanRun(Init(options), actions) && OptionsFixed(actions)
    requires options.maxInflightBytes > 0
    ensures var s := Run(Init(options), actions);
            var limit, chunk := options.maxInflightBytes, Normalize(options).chunkBytes;
            && s.inflightBytes == Bytes(s.inflight)
            && s.inflightBytes <= Max(limit, chunk)
            && s.peakBytes <= Max(limit, chunk)
            && (s.inflightBytes > limit ==> |s.inflight| == 1)
  {
    var o := Normalize(options);
    InitInv(options);
    RunKeepsInv(Init(options), actions);
    RunKeepsPaced(Init(options), o, actions);
    WindowBytes(Run(Init(options), actions), o);
  }

  // ---- progress ----

  /** After every admission a non-empty queue has something in flight. */
  lemma {:induction false} NoStall(s: State)
    requires Inv(s) && !s.shutdown
    ensures var t := TakeIssuable(s);
            t.pending != [] ==> t.inflight != []
  {
    TakeKeepsInv(s);
  }

  predicate Draining(a: Action)
  {
    a.Wake? || a.Complete? || a.Resolve? || a.Release?
  }

  function OutboxWork(outbox: seq<Outgoing>): (r: nat)
  {
    if outbox == [] then 0
    else OutboxWork(outbox[..|outbox| - 1]) + if outbox[|outbox| - 1].resolved then 1 else 2
  }

  /** Work left in the pacer: each draining action takes some away. */
  function Work(s: State): (r: nat)
  {
    4 * |s.pending| + 3 * |s.inflight| + OutboxWork(s.outbox)
  }

  lemma {:induction false} OutboxWorkConcat(a: seq<Outgoing>, b: seq<Outgoing>)
    ensures OutboxWork(a + b) == OutboxWork(a) + OutboxWork(b)
    decreases |b|
  {
    if b == [] {
      assert a + b == a;
    } else {
      assert (a + b)[..|a + b| - 1] == a + b[..|b| - 1];
      OutboxWorkConcat(a, b[..|b| - 1]);
    }
  }

  lemma {:induction false} OutboxWorkAt(outbox: seq<Outgoing>, k: nat)
    requires k < |outbox|
    ensures OutboxWork(outbox)
         == OutboxWork(outbox[..k] + outbox[k + 1..]) + if outbox[k].resolved then 1 else 2
  {
    assert outbox == outbox[..k] + ([outbox[k]] + outbox[k + 1..]);
    OutboxWorkBetween(outbox[..k], outbox[k], outbox[k + 1..]);
  }

  lemma {:induction false} OutboxWorkBetween(a: seq<Outgoing>, o: Outgoing, b: seq<Outgoing>)
    ensures OutboxWork(a + ([o] + b)) == OutboxWork(a + b) + if o.resolved then 1 else 2
  {
    OutboxWorkConcat(a, [o] + b);
    OutboxWorkConcat([o], b);
    OutboxWorkConcat(a, b);
    assert [o][..0] == [];
  }

  lemma CompletionTakesWork(s: State, k: nat, status: Status)
    requires k < |s.inflight| && s.inflight[k].job < |s.jobs|
    ensures Work(FinishPiece(s, k, status)) < Work(s)
  {
    var job := s.jobs[s.inflight[k].job];
    var out := [Outgoing(s.inflight[k].job, Worse(job.status, status), false)];
    OutboxWorkConcat(s.outbox, out);
    assert out[..0] == [];
  }

  lemma ResolveTakesWork(outbox: seq<Outgoing>, k: nat)
    requires k < |outbox| && !outbox[k].resolved
    ensures OutboxWork(outbox[k := outbox[k].(resolved := true)]) == OutboxWork(outbox) - 1
  {
    var next := outbox[k := outbox[k].(resolved := true)];
    OutboxWorkAt(outbox, k);
    OutboxWorkAt(next, k);
    assert next[..k] + next[k + 1..] == outbox[..k] + outbox[k + 1..];
  }

  lemma DrainingTakesWork(s: State, a: Action)
    requires Inv(s) && Quiet(s) && Enabled(s, a) && Draining(a)
    ensures Work(Apply(s, a)) < Work(s)
  {
    match a
    case Wake => WakeTakesWork(s);
    case Complete(k, status) => CompletionTakesWork(s, k, status);
    case Resolve(k) => ResolveTakesWork(s.outbox, k);
    case Release(k) => ReleaseTakesWork(s, k);
  }

  lemma ReleaseTakesWork(s: State, k: nat)
    requires k < |s.outbox| && s.outbox[k].resolved
    ensures Work(ReleaseOut(s, k)) < Work(s)
  {
    OutboxWorkAt(s.outbox, k);
  }

  lemma WakeTakesWork(s: State)
    requires Inv(s) && Enabled(s, Wake)
    ensures Work(Apply(s, Wake)) < Work(s)
  {
    TakeKeepsInv(s);
  }

  /** A run of completions, wake-ups and promise calls is never longer than the work left. */
  lemma {:induction false} DrainingIsBounded(s: State, actions: seq<Action>)
    requires Inv(s) && Quiet(s) && CanRun(s, actions)
    requires forall i :: 0 <= i < |actions| ==> Draining(actions[i])
    ensures |actions| + Work(Run(s, actions)) <= Work(s)
    decreases |actions|
  {
    if actions != [] {
      DrainingTakesWork(s, actions[0]);
      ApplyKeepsInv(s, actions[0]);
      DrainingIsBounded(Apply(s, actions[0]), actions[1..]);
    }
  }

  /** While work is left some draining action can happen, whatever limit and chunk are. */
  lemma WorkCanContinue(s: State) returns (a: Action)
    requires Inv(s) && Quiet(s) && Work(s) > 0
    ensures Draining(a) && Enabled(s, a)
  {
    if s.inflight != [] {
      a := Complete(0, Ok);
    } else if s.outbox != [] {
      a := if s.outbox[0].resolved then Release(0) else Resolve(0);
    } else {
      a := Wake;
    }
  }

  /** A drained pacer has resolved and released every job exactly once. */
  lemma DrainedMeansResolved(s: State, j: nat)
    requires Inv(s) && Work(s) == 0 && j < |s.jobs|
    ensures s.inflightBytes == 0
    ensures Resolutions(s.log, j) == 1 && Releases(s.log, j) == 1 && !s.jobs[j].hasPromise
  {
    assert JobInv(s, j);
    assert s.outbox == [] && s.pending == [] && s.inflight == [];
  }

  /**
   The destructor's wait: once shutdown has begun and no bytes are in flight,
   nothing is queued or in flight and every job's promise has left the pacer.
   */
  lemma DestructionIsComplete(options: Options, actions: seq<Action>, j: nat)
    requires CanRun(Init(options), actions)
    requires var s := Run(Init(options), actions);
             s.shutdown && s.inflightBytes == 0 && j < |s.jobs|
    ensures var s := Run(Init(options), actions);
            && s.pending == [] && s.inflight == []
            && !s.jobs[j].hasPromise
            && Resolutions(s.log, j) + Unset(s.outbox, j) == 1
  {
    EveryRunKeepsInv(options, actions);
    var s := Run(Init(options), actions);
    assert JobInv(s, j);
    BytesPositive(s.inflight, |s.jobs|);
  }
}
