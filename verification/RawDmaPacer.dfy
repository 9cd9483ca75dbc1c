/**
 The pacer as the object tpu_sync/core/raw_dma_pacer.cc implements: fields guarded
 by one mutex and the critical sections that update them. Ghost fields hold the
 state of PacerSteps and the actions that led to it. Each public method is proved to
 append exactly its own action and to keep the real fields equal to that state, so
 what is proved of runs holds of the object.
 */
module RawDmaPacer {
  import opened PacerSteps
  import opened PacerRuns

  class Pacer {
    var options: Options
    var pending: seq<Piece>
    var inflightBytes: int
    var peakBytes: int
    var issued: int
    var shutdown: bool
    var jobs: seq<Job>
    /** Promises and keep-alives moved out to threads that set and release them unlocked. */
    var outbox: seq<Outgoing>
    ghost const initial: Options
    ghost var model: State
    ghost var history: seq<Action>

    /** The real fields are those of the model. */
    ghost predicate Agrees()
      reads this
    {
      AgreesBesidesQueue() && pending == model.pending
    }

    ghost predicate AgreesBesidesQueue()
      reads this
    {
      && options == model.options
      && inflightBytes == model.inflightBytes
      && peakBytes == model.peakBytes
      && issued == model.issued
      && shutdown == model.shutdown
      && jobs == model.jobs
    }

    /** The history led to the model, and the real fields are those of the model. */
    ghost predicate Valid()
      reads this
    {
      Agrees() && outbox == model.outbox && Tracked()
    }

    ghost predicate Tracked()
      reads this
    {
      CanRun(Init(initial), history) && model == Run(Init(initial), history)
    }

    /** What every reachable state offers its critical sections. */
    lemma Reachable()
      requires Tracked()
      ensures model.options.chunkBytes > 0
      ensures JobsExist(model.pending, |model.jobs|) && JobsExist(model.inflight, |model.jobs|)
    {
      EveryRunKeepsInv(initial, history);
    }

    /** The model took this action since `was`. */
    ghost predicate Took(was: State, before: seq<Action>, a: Action)
      reads this
    {
      Enabled(was, a) && model == Apply(was, a) && history == before + [a]
    }

    constructor (initial: Options)
      ensures Valid() && this.initial == initial && history == []
    {
      options := Normalize(initial);
      pending, jobs, outbox := [], [], [];
      inflightBytes, peakBytes, issued, shutdown := 0, 0, 0, false;
      this.initial, model, history := initial, Init(initial), [];
    }

    /** Appends the action whose effect the model is about to show. */
    ghost method Record(a: Action)
      requires Tracked() && Enabled(model, a)
      modifies this`history
      ensures history == old(history) + [a] && CanRun(Init(initial), history)
      ensures Run(Init(initial), history) == Apply(model, a)
    {
      RunAppend(Init(initial), history, a);
      history := history + [a];
    }

    /** Moves every pending piece that fits the window into the batch to issue. */
    method TakeIssuableLocked() returns (batch: seq<Piece>)
      requires Agrees()
      modifies `pending, `inflightBytes, `peakBytes, `issued, `model
      ensures Agrees() && model == TakeIssuable(old(model)) && model.outbox == old(model.outbox)
      ensures model.admitted == old(model.admitted) + batch
    {
      batch := [];
      while pending != [] && (options.maxInflightBytes <= 0 || inflightBytes == 0
                              || inflightBytes + pending[0].size <= options.maxInflightBytes)
        invariant Agrees() && TakeIssuable(model) == TakeIssuable(old(model)) && model.outbox == old(model.outbox)
        invariant model.admitted == old(model.admitted) + batch
        decreases |pending|
      {
        var piece := pending[0];
        pending := pending[1..];
        inflightBytes := inflightBytes + piece.size;
        peakBytes := Max(peakBytes, inflightBytes);
        issued := issued + 1;
        batch := batch + [piece];
        model := AdmitFront(model);
      }
    }

    /** The splitting loops of Submit: the pieces go straight to the queue. */
    method EnqueueCopies(job: nat, sizes: seq<int>, paced: bool, chunkBytes: int) returns (pieces: nat)
      requires chunkBytes > 0
      modifies this`pending
      ensures var request := Request(sizes, paced, chunkBytes);
              pending == old(pending) + Pieces(job, request) && pieces == |Pieces(job, request)|
    {
      ghost var request := Request(sizes, paced, chunkBytes);
      pieces := 0;
      for i := 0 to |sizes|
        invariant Queued(old(pending), job, request, i, pieces)
      {
        pieces := EnqueueNext(old(pending), job, i, request, sizes[i], if paced then chunkBytes else sizes[i], pieces);
      }
    }

    /** The pieces of the first `n` copies were appended to the queue. */
    ghost predicate Queued(before: seq<Piece>, job: nat, request: Request, n: nat, pieces: nat)
      reads this`pending
    {
      && n <= |request.sizes| && request.chunkBytes > 0
      && pending == before + PiecesOfFirst(job, request, n) && pieces == |PiecesOfFirst(job, request, n)|
    }

    method EnqueueNext(ghost before: seq<Piece>, job: nat, copy: nat, ghost request: Request, size: int, step: int,
                       pieces: nat)
      returns (total: nat)
      requires Queued(before, job, request, copy, pieces)
      requires copy < |request.sizes| && size == request.sizes[copy]
      requires step == if request.paced then request.chunkBytes else size
      modifies this`pending
      ensures Queued(before, job, request, copy + 1, total)
    {
      var added := EnqueueSized(job, copy, request, size, step);
      total := pieces + added;
      QueueAppend(before, PiecesOfFirst(job, request, copy), CopyPieces(job, request, copy));
    }

    /** A copy without bytes becomes no piece. */
    method EnqueueSized(job: nat, copy: nat, ghost request: Request, size: int, step: int) returns (pieces: nat)
      requires copy < |request.sizes| && size == request.sizes[copy] && request.chunkBytes > 0
      requires step == if request.paced then request.chunkBytes else size
      modifies this`pending
      ensures pending == old(pending) + CopyPieces(job, request, copy) && pieces == |CopyPieces(job, request, copy)|
    {
      pieces := 0;
      if size > 0 {
        pieces := EnqueueCopy(job, copy, size, step);
      }
    }

    method EnqueueCopy(job: nat, copy: nat, size: int, step: int) returns (pieces: nat)
      requires size > 0 && step > 0
      modifies this`pending
      ensures pending == old(pending) + Split(job, copy, 0, size, step)
      ensures pieces == |Split(job, copy, 0, size, step)|
    {
      var offset := 0;
      pieces := 0;
      ghost var built: seq<Piece> := [];
      while offset < size
        invariant built + Split(job, copy, offset, size, step) == Split(job, copy, 0, size, step)
        invariant pending == old(pending) + built && pieces == |built|
        decreases size - offset
      {
        var piece := Piece(job, copy, offset, Min(step, size - offset));
        pending := pending + [piece];
        built := built + [piece];
        pieces := pieces + 1;
        offset := offset + step;
      }
    }

    /** The critical section of Submit: queue the pieces, then admit what fits. */
    method Submit(sizes: seq<int>) returns (queued: bool, batch: seq<Piece>)
      requires Valid() && !shutdown
      modifies this
      ensures queued == HasBytes(sizes)
      ensures Valid() && Took(old(model), old(history), PacerSteps.Submit(sizes))
      ensures model.admitted == old(model.admitted) + batch
    {
      Reachable();
      Record(PacerSteps.Submit(sizes));
      queued, batch := SubmitLocked(sizes);
    }

    method SubmitLocked(sizes: seq<int>) returns (queued: bool, batch: seq<Piece>)
      requires Agrees() && Enabled(model, PacerSteps.Submit(sizes))
      modifies `pending, `jobs, `inflightBytes, `peakBytes, `issued, `model
      ensures Agrees() && model == Apply(old(model), PacerSteps.Submit(sizes)) && model.outbox == old(model.outbox)
      ensures queued == HasBytes(sizes) && model.admitted == old(model.admitted) + batch
    {
      queued := AnyBytes(sizes);
      if !queued {
        return false, [];
      }
      var paced := options.maxInflightBytes > 0;
      var pieces := EnqueueCopies(|jobs|, sizes, paced, options.chunkBytes);
      jobs := jobs + [Job(pieces, Ok, true)];
      model := Enqueue(model, sizes);
      batch := TakeIssuableLocked();
    }

    static method AnyBytes(sizes: seq<int>) returns (r: bool)
      ensures r == HasBytes(sizes)
    {
      for i := 0 to |sizes|
        invariant forall j :: 0 <= j < i ==> sizes[j] <= 0
      {
        if sizes[i] > 0 {
          return true;
        }
      }
      return false;
    }

    /** One pass of the worker's loop body after its condition became true. */
    method WorkerStep() returns (batch: seq<Piece>)
      requires Valid() && (shutdown || CanIssueFront(model))
      modifies this
      ensures old(shutdown) ==> model == old(model) && history == old(history) && batch == []
      ensures !old(shutdown) ==> Took(old(model), old(history), Wake)
      ensures model.admitted == old(model.admitted) + batch && Valid()
    {
      if shutdown {
        return [];
      }
      Record(Wake);
      batch := TakeIssuableLocked();
    }

    /**
     A piece completed: `k` is its place among those in flight. The promise of a
     job whose last piece this was is handed to the caller, to be set unlocked.
     */
    method OnPieceDone(job: nat, size: int, status: Status, ghost k: nat) returns (resolve: bool, final: Status)
      requires Valid() && k < |model.inflight| && job == model.inflight[k].job && size == model.inflight[k].size
      modifies this
      ensures Valid() && Took(old(model), old(history), Complete(k, status))
      ensures outbox == if resolve then old(outbox) + [Outgoing(job, final, false)] else old(outbox)
    {
      Reachable();
      Record(Complete(k, status));
      resolve, final := FinishLocked(job, size, status, k);
      if resolve {
        outbox := outbox + [Outgoing(job, final, false)];
      }
    }

    method FinishLocked(job: nat, size: int, status: Status, ghost k: nat) returns (resolve: bool, final: Status)
      requires Agrees() && job < |jobs|
      requires k < |model.inflight| && job == model.inflight[k].job && size == model.inflight[k].size
      modifies `inflightBytes, `jobs, `model
      ensures Agrees() && model == FinishPiece(old(model), k, status)
      ensures model.outbox == if resolve then old(model.outbox) + [Outgoing(job, final, false)] else old(model.outbox)
    {
      inflightBytes := inflightBytes - size;
      resolve, final := SettleLocked(job, status);
      model := FinishPiece(model, k, status);
    }

    /** Bookkeeping shared by completion and cancellation of one piece. */
    method SettleLocked(job: nat, status: Status) returns (resolve: bool, final: Status)
      requires job < |jobs|
      modifies this`jobs
      ensures resolve == (old(jobs[job].remaining) == 1 && old(jobs[job].hasPromise))
      ensures final == Worse(old(jobs[job].status), status)
      ensures jobs == old(jobs)[job := Job(old(jobs[job].remaining) - 1, final, old(jobs[job].hasPromise) && !resolve)]
    {
      final := jobs[job].status;
      if status != Ok && final == Ok {
        final := status;
      }
      var remaining := jobs[job].remaining - 1;
      resolve := remaining == 0 && jobs[job].hasPromise;
      jobs := jobs[job := Job(remaining, final, jobs[job].hasPromise && !resolve)];
    }

    method SetOptions(next: Options)
      requires Valid()
      modifies this
      ensures Valid() && Took(old(model), old(history), PacerSteps.SetOptions(next))
    {
      Record(PacerSteps.SetOptions(next));
      options := Normalize(next);
      model := Apply(model, PacerSteps.SetOptions(next));
    }

    method ResetPeak()
      requires Valid()
      modifies this
      ensures Valid() && Took(old(model), old(history), PacerSteps.ResetPeak)
    {
      Record(PacerSteps.ResetPeak);
      peakBytes := inflightBytes;
      model := Apply(model, PacerSteps.ResetPeak);
    }

    /** A thread sets a promise it was handed. */
    method SetPromise(k: nat)
      requires Valid() && k < |outbox| && !outbox[k].resolved
      modifies this
      ensures Valid() && Took(old(model), old(history), Resolve(k))
    {
      Record(Resolve(k));
      outbox := outbox[k := outbox[k].(resolved := true)];
      model := Apply(model, Resolve(k));
    }

    /** It drops the keep-alive after that. */
    method DropKeepAlive(k: nat)
      requires Valid() && k < |outbox| && outbox[k].resolved
      modifies this
      ensures Valid() && Took(old(model), old(history), Release(k))
    {
      Record(Release(k));
      outbox := outbox[..k] + outbox[k + 1..];
      model := Apply(model, Release(k));
    }

    /** The destructor's critical section: every piece never issued is failed. */
    method BeginDestruction() returns (toResolve: seq<(nat, Status)>)
      requires Valid() && !shutdown
      modifies this
      ensures Valid() && Took(old(model), old(history), Shutdown)
      ensures outbox == old(outbox) + Unresolved(toResolve)
    {
      Reachable();
      Record(Shutdown);
      toResolve := CancelPendingLocked();
      outbox := outbox + Unresolved(toResolve);
    }

    method CancelPendingLocked() returns (toResolve: seq<(nat, Status)>)
      requires Agrees() && JobsExist(pending, |jobs|)
      modifies `pending, `jobs, `shutdown, `model
      ensures Agrees() && model == CancelPending(old(model).(shutdown := true))
      ensures model.outbox == old(model.outbox) + Unresolved(toResolve)
    {
      ghost var begun := model.(shutdown := true);
      shutdown := true;
      model := begun;
      toResolve := [];
      for i := 0 to |pending|
        invariant pending == begun.pending && Cancelled(begun, i, toResolve)
      {
        toResolve := CancelNextLocked(begun, i, toResolve);
      }
      CancelPendingEmpty(model);
      pending := [];
    }

    /** The first `n` pieces of the queue are cancelled; the model has dropped them already. */
    ghost predicate Cancelled(begun: State, n: nat, toResolve: seq<(nat, Status)>)
      reads this
    {
      && AgreesBesidesQueue() && n <= |begun.pending| && model.pending == begun.pending[n..]
      && JobsExist(begun.pending, |begun.jobs|) && |jobs| == |begun.jobs|
      && JobsExist(model.pending, |model.jobs|) && CancelPending(model) == CancelPending(begun)
      && model.outbox == begun.outbox + Unresolved(toResolve)
    }

    method CancelNextLocked(ghost begun: State, i: nat, toResolve: seq<(nat, Status)>)
      returns (more: seq<(nat, Status)>)
      requires i < |pending| && pending == begun.pending && Cancelled(begun, i, toResolve)
      modifies this`jobs, this`model
      ensures Cancelled(begun, i + 1, more)
    {
      CancelPendingStep(model);
      var resolve, final := CancelOneLocked(pending[i].job);
      more := toResolve;
      if resolve {
        UnresolvedAppend(toResolve, (pending[i].job, final));
        more := toResolve + [(pending[i].job, final)];
      }
    }

    method CancelOneLocked(job: nat) returns (resolve: bool, final: Status)
      requires AgreesBesidesQueue() && job < |jobs|
      requires model.pending != [] && model.pending[0].job == job
      modifies this`jobs, this`model
      ensures AgreesBesidesQueue() && model == CancelFront(old(model))
      ensures model.outbox == if resolve then old(model.outbox) + [Outgoing(job, final, false)] else old(model.outbox)
    {
      resolve, final := SettleLocked(job, CANCELLED);
      model := CancelFront(model);
    }
  }

  lemma CancelPendingStep(s: State)
    requires s.pending != [] && JobsExist(s.pending, |s.jobs|)
    ensures var t := CancelFront(s);
            && |t.jobs| == |s.jobs| && t.pending == s.pending[1..]
            && JobsExist(t.pending, |t.jobs|) && CancelPending(t) == CancelPending(s)
  {
  }

  lemma CancelPendingEmpty(s: State)
    requires s.pending == []
    ensures CancelPending(s) == s
  {
  }

  /** Promises moved out of their jobs, waiting to be set. */
  function Unresolved(entries: seq<(nat, Status)>): (r: seq<Outgoing>)
  {
    if entries == [] then []
    else
      var n := |entries| - 1;
      Unresolved(entries[..n]) + [Outgoing(entries[n].0, entries[n].1, false)]
  }

  lemma UnresolvedAppend(entries: seq<(nat, Status)>, e: (nat, Status))
    ensures Unresolved(entries + [e]) == Unresolved(entries) + [Outgoing(e.0, e.1, false)]
  {
    assert (entries + [e])[..|entries|] == entries;
  }
}
