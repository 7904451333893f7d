/** The transfer ledger of TransferManager as a pure state machine: the latch
    and error maps, the completion handler each transfer installed, the local
    files and the notifications delivered to listeners. Every step of the
    manager (starting an upload, download or delete, and each completion
    callback) is one `Action`; `Step` is its effect. */
module Ledger {
  import opened Wrappers
  import opened Stream

  type FileName = string

  /** Identity of a BoxTransferListener object; `None` where the caller passed null. */
  type ListenerId = nat

  /** The IOException an okhttp call fails with. */
  datatype IoError = IoError(message: string)

  /** The two listener events: onProgressChanged(current, total) and onFinished(). */
  datatype Event = Progress(current: int, total: int) | Finished

  /** One event delivered to one listener. */
  datatype Notice = Notice(listener: ListenerId, event: Event)

  /** The anonymous Callback a start operation hands to the block server, with
      the file and listener it captured. */
  datatype Callback =
    | UploadCallback(source: FileName, listener: Option<ListenerId>)
    | DownloadCallback(destination: FileName, listener: Option<ListenerId>)
    | DeleteCallback

  datatype State = State(
    latches: map<int, bool>,          // id -> latch counted down ("done")
    errors: map<int, IoError>,        // id -> captured error; no key: no error
    callbacks: map<int, Callback>,    // id -> handler waiting for the server
    disk: map<FileName, seq<Byte>>,   // local files; no key: file does not exist
    notices: seq<Notice>)             // listener events, oldest first

  datatype Action =
    | StartUpload(id: int, source: FileName, listener: Option<ListenerId>)
    | StartDownload(id: int, destination: FileName, listener: Option<ListenerId>)
    | StartDelete(id: int)
    | Failure(id: int, error: IoError)                 // Callback.onFailure
    | Response(id: int, code: int, body: seq<Byte>)    // Callback.onResponse

  /** Everything the ledger holds about one id. */
  datatype Entry = Entry(latch: Option<bool>, error: Option<IoError>, callback: Option<Callback>)

  function EntryOf(s: State, id: int): Entry {
    Entry(if id in s.latches then Some(s.latches[id]) else None,
          if id in s.errors then Some(s.errors[id]) else None,
          if id in s.callbacks then Some(s.callbacks[id]) else None)
  }

  predicate Pending(s: State, id: int) {
    id in s.latches && !s.latches[id]
  }

  predicate Done(s: State, id: int) {
    id in s.latches && s.latches[id]
  }

  predicate IsStart(a: Action) {
    a.StartUpload? || a.StartDownload? || a.StartDelete?
  }

  /** What waitFor(id) reports once the latch is done: no error captured. */
  predicate Outcome(s: State, id: int) {
    id !in s.errors
  }

  /** A start needs a fresh id (getNextId never repeats one); a callback runs
      once, for an id whose latch is installed and still pending. */
  predicate Enabled(s: State, a: Action) {
    if IsStart(a) then a.id !in s.latches
    else Pending(s, a.id) && a.id in s.callbacks
  }

  /** The events a possibly-null listener receives
      (`if (boxTransferListener != null) ...`). */
  function Notify(l: Option<ListenerId>, e: Event): seq<Notice> {
    if l.Some? then [Notice(l.value, e)] else []
  }

  /** The ledger invariant: every latch has its handler and vice versa; an
      error exists only for a completed upload or download, never for a delete. */
  predicate Valid(s: State) {
    s.callbacks.Keys == s.latches.Keys &&
    forall id :: id in s.errors ==> Done(s, id) && !s.callbacks[id].DeleteCallback?
  }

  function Step(s: State, a: Action): (t: State)
    requires Enabled(s, a)
    ensures forall j :: j != a.id ==> EntryOf(t, j) == EntryOf(s, j)
    ensures IsStart(a) ==> Pending(t, a.id) && t.errors == s.errors && t.disk == s.disk && t.notices == s.notices
    ensures !IsStart(a) ==> Done(t, a.id) && t.callbacks == s.callbacks
  {
    match a
    case StartUpload(id, f, l) =>
      s.(latches := s.latches[id := false], callbacks := s.callbacks[id := UploadCallback(f, l)])
    case StartDownload(id, f, l) =>
      s.(latches := s.latches[id := false], callbacks := s.callbacks[id := DownloadCallback(f, l)])
    case StartDelete(id) =>
      s.(latches := s.latches[id := false], callbacks := s.callbacks[id := DeleteCallback])
    case Failure(id, e) => (
      match s.callbacks[id]
      case UploadCallback(_, l) =>
        s.(errors := s.errors[id := e], notices := s.notices + Notify(l, Finished),
           latches := s.latches[id := true])
      case DownloadCallback(_, l) =>
        s.(notices := s.notices + Notify(l, Finished), errors := s.errors[id := e],
           latches := s.latches[id := true])
      case DeleteCallback =>
        s.(latches := s.latches[id := true]))
    case Response(id, code, body) =>
      match s.callbacks[id]
      case UploadCallback(f, l) =>
        s.(latches := s.latches[id := true], notices := s.notices + Notify(l, Finished),
           disk := s.disk - {f})
      case DownloadCallback(f, l) =>
        if code == 200 then
          s.(disk := s.disk[f := body],
             notices := s.notices + Notify(l, Progress(|body|, |body|)) + Notify(l, Finished),
             latches := s.latches[id := true])
        else
          s.(latches := s.latches[id := true], notices := s.notices + Notify(l, Finished))
      case DeleteCallback =>
        s.(latches := s.latches[id := true])
  }

  /** A trace every action of which is enabled when it runs. */
  predicate Executable(s: State, trace: seq<Action>)
    decreases |trace|
  {
    trace == [] || (Enabled(s, trace[0]) && Executable(Step(s, trace[0]), trace[1..]))
  }

  /** The state after running a trace; no latch is ever removed or reset. */
  function Run(s: State, trace: seq<Action>): (t: State)
    requires Executable(s, trace)
    ensures s.latches.Keys <= t.latches.Keys
    ensures forall id :: Done(s, id) ==> Done(t, id)
    decreases |trace|
  {
    if trace == [] then s else Run(Step(s, trace[0]), trace[1..])
  }

  // ---- The ledger invariant is kept by every step and every run ----

  lemma StepPreservesValid(s: State, a: Action)
    requires Valid(s) && Enabled(s, a)
    ensures Valid(Step(s, a))
  {
  }

  lemma {:induction false} RunPreservesValid(s: State, trace: seq<Action>)
    requires Valid(s) && Executable(s, trace)
    ensures Valid(Run(s, trace))
    decreases |trace|
  {
    if trace != [] {
      StepPreservesValid(s, trace[0]);
      RunPreservesValid(Step(s, trace[0]), trace[1..]);
    }
  }

  // ---- Ids: installed before use, independent of each other, final once done ----

  /** Every id a start action of the trace handed out has a latch afterwards. */
  lemma {:induction false} IssuedIdsInstalled(s: State, trace: seq<Action>)
    requires Executable(s, trace)
    ensures forall k :: 0 <= k < |trace| && IsStart(trace[k]) ==> trace[k].id in Run(s, trace).latches
    decreases |trace|
  {
    if trace != [] {
      var t := Step(s, trace[0]);
      IssuedIdsInstalled(t, trace[1..]);
      forall k | 0 <= k < |trace| && IsStart(trace[k])
        ensures trace[k].id in Run(s, trace).latches
      {
        if k > 0 {
          assert trace[k] == trace[1..][k - 1];
        }
      }
    }
  }

  /** A run of actions on other ids leaves this id's latch, error and handler as they were. */
  lemma {:induction false} Untouched(s: State, trace: seq<Action>, id: int)
    requires Executable(s, trace)
    requires forall k :: 0 <= k < |trace| ==> trace[k].id != id
    ensures EntryOf(Run(s, trace), id) == EntryOf(s, id)
    decreases |trace|
  {
    if trace != [] {
      assert trace[0].id != id;
      forall k | 0 <= k < |trace[1..]| ensures trace[1..][k].id != id {
        assert trace[1..][k] == trace[k + 1];
      }
      Untouched(Step(s, trace[0]), trace[1..], id);
    }
  }

  /** No later action, start or callback, concerns an id that is already done. */
  lemma {:induction false} NothingAfterDone(s: State, trace: seq<Action>, id: int)
    requires Executable(s, trace) && Done(s, id)
    ensures forall k :: 0 <= k < |trace| ==> trace[k].id != id
    decreases |trace|
  {
    if trace != [] {
      assert trace[0].id != id;
      var t := Step(s, trace[0]);
      assert EntryOf(t, id) == EntryOf(s, id);
      NothingAfterDone(t, trace[1..], id);
      forall k | 0 <= k < |trace| ensures trace[k].id != id {
        if k > 0 {
          assert trace[k] == trace[1..][k - 1];
        }
      }
    }
  }

  /** Once an id is done it stays done with the same error, whatever runs
      afterwards: repeated waitFor(id) gives the same answer. */
  lemma DoneIsFinal(s: State, trace: seq<Action>, id: int)
    requires Executable(s, trace) && Done(s, id)
    ensures EntryOf(Run(s, trace), id) == EntryOf(s, id)
    ensures Done(Run(s, trace), id) && Outcome(Run(s, trace), id) == Outcome(s, id)
  {
    NothingAfterDone(s, trace, id);
    Untouched(s, trace, id);
  }

  /** The latch of an id is counted down at most once: after a callback for
      an id, no later action of the trace concerns that id. */
  lemma {:induction false} CompletionAtMostOnce(s: State, trace: seq<Action>)
    requires Executable(s, trace)
    ensures forall i, j :: 0 <= i < j < |trace| && !IsStart(trace[i]) ==> trace[j].id != trace[i].id
    decreases |trace|
  {
    if trace != [] {
      var t := Step(s, trace[0]);
      CompletionAtMostOnce(t, trace[1..]);
      if !IsStart(trace[0]) {
        NothingAfterDone(t, trace[1..], trace[0].id);
      }
      forall i, j | 0 <= i < j < |trace| && !IsStart(trace[i])
        ensures trace[j].id != trace[i].id
      {
        assert trace[j] == trace[1..][j - 1];
        if i > 0 {
          assert trace[i] == trace[1..][i - 1];
        }
      }
    }
  }

  // ---- What each completion callback does ----
  // Each lemma states the effect of one callback and, through DoneIsFinal,
  // what waitFor(id) reports at any later time, whatever runs in between.

  /** Upload onFailure: the error is recorded, so waitFor reports false from
      then on; the source file is kept; the listener hears onFinished once;
      the latch is done. */
  lemma UploadFailure(s: State, id: int, e: IoError, later: seq<Action>)
    requires Valid(s) && Enabled(s, Failure(id, e)) && s.callbacks[id].UploadCallback?
    requires Executable(Step(s, Failure(id, e)), later)
    ensures var t := Step(s, Failure(id, e));
      Done(t, id) && id in t.errors && t.errors[id] == e &&
      t.disk == s.disk && t.notices == s.notices + Notify(s.callbacks[id].listener, Finished)
    ensures var u := Run(Step(s, Failure(id, e)), later); Done(u, id) && !Outcome(u, id)
  {
    DoneIsFinal(Step(s, Failure(id, e)), later, id);
  }

  /** Upload onResponse, whatever the status code: no error, so waitFor
      reports true from then on; the source file is deleted and no other file
      changes; onFinished once; the latch is done. */
  lemma UploadResponse(s: State, id: int, code: int, body: seq<Byte>, later: seq<Action>)
    requires Valid(s) && Enabled(s, Response(id, code, body)) && s.callbacks[id].UploadCallback?
    requires Executable(Step(s, Response(id, code, body)), later)
    ensures var t := Step(s, Response(id, code, body));
      Done(t, id) && t.errors == s.errors &&
      s.callbacks[id].source !in t.disk && t.disk == s.disk - {s.callbacks[id].source} &&
      t.notices == s.notices + Notify(s.callbacks[id].listener, Finished)
    ensures var u := Run(Step(s, Response(id, code, body)), later); Done(u, id) && Outcome(u, id)
  {
    DoneIsFinal(Step(s, Response(id, code, body)), later, id);
  }

  /** Download onFailure: the error is recorded, so waitFor reports false from
      then on; the destination file is untouched; onFinished once; the latch
      is done. */
  lemma DownloadFailure(s: State, id: int, e: IoError, later: seq<Action>)
    requires Valid(s) && Enabled(s, Failure(id, e)) && s.callbacks[id].DownloadCallback?
    requires Executable(Step(s, Failure(id, e)), later)
    ensures var t := Step(s, Failure(id, e));
      Done(t, id) && id in t.errors && t.errors[id] == e &&
      t.disk == s.disk && t.notices == s.notices + Notify(s.callbacks[id].listener, Finished)
    ensures var u := Run(Step(s, Failure(id, e)), later); Done(u, id) && !Outcome(u, id)
  {
    DoneIsFinal(Step(s, Failure(id, e)), later, id);
  }

  /** Download onResponse: with 200 the destination holds exactly the body and
      one progress event (total, total) precedes onFinished; with any other
      code the destination is untouched and only onFinished is heard. Neither
      records an error, so waitFor reports true from then on. */
  lemma DownloadResponse(s: State, id: int, code: int, body: seq<Byte>, later: seq<Action>)
    requires Valid(s) && Enabled(s, Response(id, code, body)) && s.callbacks[id].DownloadCallback?
    requires Executable(Step(s, Response(id, code, body)), later)
    ensures var t := Step(s, Response(id, code, body));
      var f, l := s.callbacks[id].destination, s.callbacks[id].listener;
      Done(t, id) && t.errors == s.errors &&
      (code == 200 ==> f in t.disk && t.disk[f] == body && t.disk - {f} == s.disk - {f} &&
                       t.notices == s.notices + Notify(l, Progress(|body|, |body|)) + Notify(l, Finished)) &&
      (code != 200 ==> t.disk == s.disk && t.notices == s.notices + Notify(l, Finished))
    ensures var u := Run(Step(s, Response(id, code, body)), later); Done(u, id) && Outcome(u, id)
  {
    DoneIsFinal(Step(s, Response(id, code, body)), later, id);
  }

  /** Both delete callbacks only count the latch down: no error, no file, no
      listener; waitFor reports true from then on. */
  lemma DeleteCompletion(s: State, a: Action, later: seq<Action>)
    requires Valid(s) && Enabled(s, a) && !IsStart(a) && s.callbacks[a.id].DeleteCallback?
    requires Executable(Step(s, a), later)
    ensures Step(s, a) == s.(latches := s.latches[a.id := true])
    ensures var u := Run(Step(s, a), later); Done(u, a.id) && Outcome(u, a.id)
  {
    DoneIsFinal(Step(s, a), later, a.id);
  }
}
