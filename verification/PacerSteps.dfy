/**
 The steps of the raw DMA pacer (tpu_sync/core/raw_dma_pacer.cc). Every critical
 section under the pacer's mutex is one step; completions and the promise calls
 made outside the mutex are steps of their own. Histories record what was ever
 requested, admitted, finished and cancelled.
 */
module PacerSteps {

  const PIECE_ALIGNMENT := 4096
  const DEFAULT_CHUNK_BYTES := 16 * 1024 * 1024

  /** Any status but Ok is an error. */
  datatype Status = Ok | Error(code: int)

  const CANCELLED := Error(1)

  datatype Options = Options(maxInflightBytes: int, chunkBytes: int)

  /** Chunk sizes become positive multiples of 4 KiB. */
  function Normalize(options: Options): (r: Options)
    ensures r.chunkBytes >= PIECE_ALIGNMENT && r.chunkBytes % PIECE_ALIGNMENT == 0
    ensures r.maxInflightBytes == options.maxInflightBytes
    ensures options.chunkBytes >= PIECE_ALIGNMENT ==>
              r.chunkBytes <= options.chunkBytes < r.chunkBytes + PIECE_ALIGNMENT
  {
    Options(options.maxInflightBytes, NormalChunk(options.chunkBytes))
  }

  function NormalChunk(chunkBytes: int): (r: int)
    ensures r >= PIECE_ALIGNMENT && r % PIECE_ALIGNMENT == 0
    ensures chunkBytes >= PIECE_ALIGNMENT ==> r <= chunkBytes < r + PIECE_ALIGNMENT
  {
    var chunk := if chunkBytes > 0 then chunkBytes else DEFAULT_CHUNK_BYTES;
    var aligned := chunk / PIECE_ALIGNMENT * PIECE_ALIGNMENT;
    if aligned < PIECE_ALIGNMENT then PIECE_ALIGNMENT else aligned
  }

  /** Bytes [offset, offset + size) of one copy of one submission. */
  datatype Piece = Piece(job: nat, copy: nat, offset: int, size: int)

  /** One Submit() call: the copy sizes and the pacing in force. */
  datatype Request = Request(sizes: seq<int>, paced: bool, chunkBytes: int)

  datatype Job = Job(remaining: int, status: Status, hasPromise: bool)

  /** A promise and keep-alive moved out of the pacer, not yet both disposed of. */
  datatype Outgoing = Outgoing(job: nat, status: Status, resolved: bool)

  datatype Event =
    | Settled(job: nat, status: Status)
    | Resolved(job: nat, status: Status)
    | Released(job: nat)

  datatype State = State(
    options: Options,
    pending: seq<Piece>,
    inflightBytes: int,
    peakBytes: int,
    issued: int,
    shutdown: bool,
    jobs: seq<Job>,
    requests: seq<Request>,
    submitted: seq<Piece>,
    admitted: seq<Piece>,
    cancelled: seq<Piece>,
    inflight: seq<Piece>,
    finished: seq<Piece>,
    outbox: seq<Outgoing>,
    log: seq<Event>)

  function Init(options: Options): (s: State)
  {
    State(Normalize(options), [], 0, 0, 0, false, [], [], [], [], [], [], [], [], [])
  }

  // ---- splitting a submission into pieces ----

  function Min(a: int, b: int): (r: int)
  {
    if a <= b then a else b
  }

  function Max(a: int, b: int): (r: int)
  {
    if a >= b then a else b
  }

  /** The pieces of one copy from `offset` on. */
  function Split(job: nat, copy: nat, offset: int, size: int, step: int): (r: seq<Piece>)
    requires step > 0
    decreases size - offset
  {
    if offset >= size then []
    else [Piece(job, copy, offset, Min(step, size - offset))] + Split(job, copy, offset + step, size, step)
  }

  /** The pieces of the copy at position `copy`: one per chunk, or one for all. */
  function CopyPieces(job: nat, request: Request, copy: nat): (r: seq<Piece>)
    requires copy < |request.sizes| && request.chunkBytes > 0
  {
    var size := request.sizes[copy];
    if size <= 0 then [] else Split(job, copy, 0, size, if request.paced then request.chunkBytes else size)
  }

  /** The pieces of the first `n` copies, in order. */
  function PiecesOfFirst(job: nat, request: Request, n: nat): (r: seq<Piece>)
    requires n <= |request.sizes| && request.chunkBytes > 0
  {
    if n == 0 then [] else PiecesOfFirst(job, request, n - 1) + CopyPieces(job, request, n - 1)
  }

  function Pieces(job: nat, request: Request): (r: seq<Piece>)
    requires request.chunkBytes > 0
  {
    PiecesOfFirst(job, request, |request.sizes|)
  }

  /** A submission without bytes has nothing to issue or wait for. */
  predicate HasBytes(sizes: seq<int>)
  {
    exists i :: 0 <= i < |sizes| && sizes[i] > 0
  }

  // ---- admission ----

  predicate CanIssueFront(s: State)
  {
    && s.pending != []
    && (|| s.options.maxInflightBytes <= 0
        || s.inflightBytes == 0
        || s.inflightBytes + s.pending[0].size <= s.options.maxInflightBytes)
  }

  function AdmitFront(s: State): (r: State)
    requires s.pending != []
  {
    var piece := s.pending[0];
    var bytes := s.inflightBytes + piece.size;
    s.(pending := s.pending[1..],
       inflightBytes := bytes,
       peakBytes := Max(s.peakBytes, bytes),
       issued := s.issued + 1,
       admitted := s.admitted + [piece],
       inflight := s.inflight + [piece])
  }

  /** Admits from the front of the queue for as long as the window allows. */
  function TakeIssuable(s: State): (r: State)
    decreases |s.pending|
  {
    if CanIssueFront(s) then TakeIssuable(AdmitFront(s)) else s
  }

  function Enqueue(s: State, sizes: seq<int>): (r: State)
    requires s.options.chunkBytes > 0
  {
    var request := Request(sizes, s.options.maxInflightBytes > 0, s.options.chunkBytes);
    var pieces := Pieces(|s.jobs|, request);
    s.(pending := s.pending + pieces,
       jobs := s.jobs + [Job(|pieces|, Ok, true)],
       requests := s.requests + [request],
       submitted := s.submitted + pieces)
  }

  // ---- settling a piece ----

  function Worse(recorded: Status, status: Status): (r: Status)
  {
    if recorded == Ok then status else recorded
  }

  /** Records one piece's outcome; the job's last piece moves its promise out. */
  function Settle(s: State, job: nat, status: Status): (r: State)
    requires job < |s.jobs|
  {
    var was := s.jobs[job];
    var recorded := Worse(was.status, status);
    var last := was.remaining - 1 == 0 && was.hasPromise;
    s.(jobs := s.jobs[job := Job(was.remaining - 1, recorded, was.hasPromise && !last)],
       outbox := if last then s.outbox + [Outgoing(job, recorded, false)] else s.outbox,
       log := s.log + [Settled(job, status)])
  }

  function FinishPiece(s: State, k: nat, status: Status): (r: State)
    requires k < |s.inflight| && s.inflight[k].job < |s.jobs|
  {
    var piece := s.inflight[k];
    var t := s.(inflight := s.inflight[..k] + s.inflight[k + 1..],
                finished := s.finished + [piece],
                inflightBytes := s.inflightBytes - piece.size);
    Settle(t, piece.job, status)
  }

  function CancelFront(s: State): (r: State)
    requires s.pending != [] && s.pending[0].job < |s.jobs|
  {
    var piece := s.pending[0];
    var t := s.(pending := s.pending[1..], cancelled := s.cancelled + [piece]);
    Settle(t, piece.job, CANCELLED)
  }

  predicate JobsExist(pieces: seq<Piece>, n: nat)
  {
    forall i :: 0 <= i < |pieces| ==> pieces[i].job < n
  }

  /** The destructor fails every piece that was never issued. */
  function CancelPending(s: State): (r: State)
    requires JobsExist(s.pending, |s.jobs|)
    decreases |s.pending|
  {
    if s.pending == [] then s else CancelPending(CancelFront(s))
  }

  // ---- actions ----

  datatype Action =
    | Submit(sizes: seq<int>)
    | Wake
    | Complete(k: nat, status: Status)
    | SetOptions(options: Options)
    | ResetPeak
    | Shutdown
    | Resolve(k: nat)
    | Release(k: nat)

  predicate Enabled(s: State, a: Action)
  {
    match a
    case Submit(_) => !s.shutdown && s.options.chunkBytes > 0
    case Wake => !s.shutdown && CanIssueFront(s)
    case Complete(k, _) => k < |s.inflight| && s.inflight[k].job < |s.jobs|
    case SetOptions(_) => true
    case ResetPeak => true
    case Shutdown => !s.shutdown && JobsExist(s.pending, |s.jobs|)
    case Resolve(k) => k < |s.outbox| && !s.outbox[k].resolved
    case Release(k) => k < |s.outbox| && s.outbox[k].resolved
  }

  function Apply(s: State, a: Action): (r: State)
    requires Enabled(s, a)
  {
    match a
    case Submit(sizes) => if HasBytes(sizes) then TakeIssuable(Enqueue(s, sizes)) else s
    case Wake => TakeIssuable(s)
    case Complete(k, status) => FinishPiece(s, k, status)
    case SetOptions(options) => s.(options := Normalize(options))
    case ResetPeak => s.(peakBytes := s.inflightBytes)
    case Shutdown => CancelPending(s.(shutdown := true))
    case Resolve(k) => ResolveOut(s, k)
    case Release(k) => ReleaseOut(s, k)
  }

  /** A thread sets the promise it was handed, */
  function ResolveOut(s: State, k: nat): (r: State)
    requires k < |s.outbox|
  {
    var out := s.outbox[k];
    s.(outbox := s.outbox[k := out.(resolved := true)], log := s.log + [Resolved(out.job, out.status)])
  }

  /** and then drops the keep-alive. */
  function ReleaseOut(s: State, k: nat): (r: State)
    requires k < |s.outbox|
  {
    s.(outbox := s.outbox[..k] + s.outbox[k + 1..], log := s.log + [Released(s.outbox[k].job)])
  }

  predicate CanRun(s: State, actions: seq<Action>)
    decreases |actions|
  {
    actions == [] || (Enabled(s, actions[0]) && CanRun(Apply(s, actions[0]), actions[1..]))
  }

  function Run(s: State, actions: seq<Action>): (r: State)
    requires CanRun(s, actions)
    decreases |actions|
  {
    if actions == [] then s else Run(Apply(s, actions[0]), actions[1..])
  }

  // ---- how pieces tile a copy ----

  /** Consecutive pieces from `start` to `end`, none larger than `step`. */
  predicate Tile(pieces: seq<Piece>, start: int, end: int, step: int)
    decreases |pieces|
  {
    if pieces == [] then start == end
    else
      && pieces[0].offset == start
      && 0 < pieces[0].size <= step
      && (pieces[0].size == step || pieces[0].offset + pieces[0].size == end)
      && Tile(pieces[1..], start + pieces[0].size, end, step)
  }

  lemma {:induction false} SplitTiles(job: nat, copy: nat, offset: int, size: int, step: int)
    requires step > 0 && offset <= size
    ensures Tile(Split(job, copy, offset, size, step), offset, size, step)
    decreases size - offset
  {
    if offset < size {
      if offset + step <= size {
        SplitTiles(job, copy, offset + step, size, step);
      } else {
        assert Split(job, copy, offset + step, size, step) == [];
      }
    }
  }

  lemma {:induction false} TileOffsetsAligned(pieces: seq<Piece>, start: int, end: int, step: int, i: nat)
    requires Tile(pieces, start, end, step) && i < |pieces|
    requires step > 0 && step % PIECE_ALIGNMENT == 0 && start % PIECE_ALIGNMENT == 0
    ensures pieces[i].offset % PIECE_ALIGNMENT == 0
    decreases |pieces|
  {
    if i > 0 {
      var next := start + pieces[0].size;
      assert pieces[1..] != [];
      assert pieces[0].size == step by {
        if pieces[0].size != step {
          EmptyTile(pieces[1..], next, end, step);
          assert false;
        }
      }
      TileOffsetsAligned(pieces[1..], next, end, step, i - 1);
    }
  }

  lemma EmptyTile(pieces: seq<Piece>, start: int, end: int, step: int)
    requires Tile(pieces, start, end, step) && start >= end
    ensures pieces == []
    decreases |pieces|
  {
    if pieces != [] {
      TileAdvances(pieces, start, end, step);
      assert false;
    }
  }

  lemma {:induction false} TileAdvances(pieces: seq<Piece>, start: int, end: int, step: int)
    requires Tile(pieces, start, end, step)
    ensures start <= end && (pieces != [] ==> start < end)
    decreases |pieces|
  {
    if pieces != [] {
      TileAdvances(pieces[1..], start + pieces[0].size, end, step);
    }
  }

  /** Pieces of one copy of one job, in queue order. */
  function OfCopy(pieces: seq<Piece>, job: nat, copy: nat): (r: seq<Piece>)
  {
    if pieces == [] then []
    else
      var rest := OfCopy(pieces[..|pieces| - 1], job, copy);
      var last := pieces[|pieces| - 1];
      if last.job == job && last.copy == copy then rest + [last] else rest
  }

  lemma {:induction false} OfCopyConcat(a: seq<Piece>, b: seq<Piece>, job: nat, copy: nat)
    ensures OfCopy(a + b, job, copy) == OfCopy(a, job, copy) + OfCopy(b, job, copy)
    decreases |b|
  {
    if b == [] {
      assert a + b == a;
    } else {
      var init := b[..|b| - 1];
      assert (a + b)[..|a + b| - 1] == a + init;
      OfCopyConcat(a, init, job, copy);
    }
  }

  lemma {:induction false} SplitLabels(job: nat, copy: nat, offset: int, size: int, step: int, j: nat, c: nat)
    requires step > 0
    ensures OfCopy(Split(job, copy, offset, size, step), j, c)
         == if j == job && c == copy then Split(job, copy, offset, size, step) else []
    decreases size - offset
  {
    if offset < size {
      var first := Piece(job, copy, offset, Min(step, size - offset));
      var rest := Split(job, copy, offset + step, size, step);
      SplitLabels(job, copy, offset + step, size, step, j, c);
      OfCopyConcat([first], rest, j, c);
      assert OfCopy([first], j, c) == if j == job && c == copy then [first] else [] by {
        assert [first][..0] == [];
      }
    }
  }

  lemma {:induction false} CopyPiecesOf(job: nat, request: Request, n: nat, j: nat, c: nat)
    requires n <= |request.sizes| && request.chunkBytes > 0
    ensures OfCopy(PiecesOfFirst(job, request, n), j, c)
         == if j == job && c < n then CopyPieces(job, request, c) else []
  {
    var parts := Parts(job, request, n);
    forall i: nat | i < n
      ensures LabelledPart(parts[i], job, i, j, c)
    {
      CopyLabels(job, request, i, j, c);
    }
    FlattenedPart(parts, job, j, c);
    PartsFlatten(job, request, n);
  }

  /** The pieces of the first `n` copies, copy by copy. */
  function Parts(job: nat, request: Request, n: nat): (r: seq<seq<Piece>>)
    requires n <= |request.sizes| && request.chunkBytes > 0
    ensures |r| == n
  {
    seq(n, i requires 0 <= i < n => CopyPieces(job, request, i))
  }

  function Flatten(parts: seq<seq<Piece>>): (r: seq<Piece>)
  {
    if parts == [] then [] else Flatten(parts[..|parts| - 1]) + parts[|parts| - 1]
  }

  lemma {:induction false} PartsFlatten(job: nat, request: Request, n: nat)
    requires n <= |request.sizes| && request.chunkBytes > 0
    ensures Flatten(Parts(job, request, n)) == PiecesOfFirst(job, request, n)
  {
    if n > 0 {
      PartsFlatten(job, request, n - 1);
      assert Parts(job, request, n)[..n - 1] == Parts(job, request, n - 1);
    }
  }

  /** All or none of a part is of copy `c` of job `j`. */
  predicate LabelledPart(part: seq<Piece>, job: nat, copy: nat, j: nat, c: nat)
  {
    OfCopy(part, j, c) == if j == job && c == copy then part else []
  }

  lemma {:induction false} FlattenedPart(parts: seq<seq<Piece>>, job: nat, j: nat, c: nat)
    requires forall i: nat :: i < |parts| ==> LabelledPart(parts[i], job, i, j, c)
    ensures OfCopy(Flatten(parts), j, c) == if j == job && c < |parts| then parts[c] else []
  {
    if parts != [] {
      var n := |parts| - 1;
      var front := parts[..n];
      forall i: nat | i < n
        ensures LabelledPart(front[i], job, i, j, c)
      {
        assert LabelledPart(parts[i], job, i, j, c);
      }
      FlattenedPart(front, job, j, c);
      assert LabelledPart(parts[n], job, n, j, c);
      OfCopyExtends(Flatten(front), parts[n], j, c);
    }
  }

  lemma OfCopyExtends(front: seq<Piece>, last: seq<Piece>, j: nat, c: nat)
    ensures OfCopy(front, j, c) == [] ==> OfCopy(front + last, j, c) == OfCopy(last, j, c)
    ensures OfCopy(last, j, c) == [] ==> OfCopy(front + last, j, c) == OfCopy(front, j, c)
  {
    OfCopyConcat(front, last, j, c);
  }

  lemma CopyLabels(job: nat, request: Request, n: nat, j: nat, c: nat)
    requires n < |request.sizes| && request.chunkBytes > 0
    ensures OfCopy(CopyPieces(job, request, n), j, c)
         == if j == job && c == n then CopyPieces(job, request, n) else []
  {
    var size := request.sizes[n];
    if size > 0 {
      SplitLabels(job, n, 0, size, if request.paced then request.chunkBytes else size, j, c);
    }
  }
}
