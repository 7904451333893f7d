/** TransferManager: hands out transfer ids, installs a latch per id, and
    lets the block server's callbacks record errors, touch local files,
    notify listeners and count the latch down. Each start and callback
    method is proved to perform exactly one `Ledger.Step`. */
module Transfers {
  import opened Wrappers
  import opened Stream
  import opened Ledger

  class TransferManager {
    var latches: map<int, bool>
    var errors: map<int, IoError>
    var callbacks: map<int, Callback>
    /** The local file system the callbacks read, overwrite and delete. */
    var disk: map<FileName, seq<Byte>>
    /** Every event delivered to a listener so far. */
    var notices: seq<Notice>

    function Snapshot(): State
      reads this
    {
      State(latches, errors, callbacks, disk, notices)
    }

    ghost predicate Valid()
      reads this
    {
      Ledger.Valid(Snapshot())
    }

    /** A manager with an empty ledger over the given local files. */
    constructor (files: map<FileName, seq<Byte>>)
      ensures Valid()
      ensures latches == map[] && errors == map[] && callbacks == map[]
      ensures disk == files && notices == []
    {
      latches := map[];
      errors := map[];
      callbacks := map[];
      disk := files;
      notices := [];
    }

    /** Starts an upload of `file`; `id` is the fresh id getNextId supplies and
        `prefix`/`name` address the remote object. The pending latch is in
        place when the id is returned. */
    method Upload(id: int, prefix: string, name: string, file: FileName, listener: Option<ListenerId>)
      returns (r: int)
      requires Valid() && id !in latches
      modifies this
      ensures Valid() && r == id
      ensures latches == old(latches)[id := false]
      ensures callbacks == old(callbacks)[id := UploadCallback(file, listener)]
      ensures errors == old(errors) && disk == old(disk) && notices == old(notices)
      ensures Snapshot() == Step(old(Snapshot()), StartUpload(id, file, listener))
    {
      latches := latches[id := false];
      callbacks := callbacks[id := UploadCallback(file, listener)];
      r := id;
    }

    /** Starts a download into `file`, as Upload does. */
    method Download(id: int, prefix: string, name: string, file: FileName, listener: Option<ListenerId>)
      returns (r: int)
      requires Valid() && id !in latches
      modifies this
      ensures Valid() && r == id
      ensures latches == old(latches)[id := false]
      ensures callbacks == old(callbacks)[id := DownloadCallback(file, listener)]
      ensures errors == old(errors) && disk == old(disk) && notices == old(notices)
      ensures Snapshot() == Step(old(Snapshot()), StartDownload(id, file, listener))
    {
      latches := latches[id := false];
      callbacks := callbacks[id := DownloadCallback(file, listener)];
      r := id;
    }

    /** Starts a delete. Like the source it returns nothing: the id is kept
        only in the ledger. */
    method Delete(id: int, prefix: string, name: string)
      requires Valid() && id !in latches
      modifies this
      ensures Valid()
      ensures latches == old(latches)[id := false]
      ensures callbacks == old(callbacks)[id := DeleteCallback]
      ensures errors == old(errors) && disk == old(disk) && notices == old(notices)
      ensures Snapshot() == Step(old(Snapshot()), StartDelete(id))
    {
      latches := latches[id := false];
      callbacks := callbacks[id := DeleteCallback];
    }

    /** The method form of `Ledger.Notify`: tells a possibly-null listener
        about an event by appending to the event log. */
    method Tell(listener: Option<ListenerId>, e: Event)
      modifies this
      ensures notices == old(notices) + Notify(listener, e)
      ensures latches == old(latches) && errors == old(errors)
      ensures callbacks == old(callbacks) && disk == old(disk)
    {
      if listener.Some? {
        notices := notices + [Notice(listener.value, e)];
      }
    }

    /** The upload handler's onFailure. */
    method OnUploadFailure(id: int, e: IoError)
      requires Valid() && id in latches && !latches[id] && callbacks[id].UploadCallback?
      modifies this
      ensures Valid()
      ensures latches == old(latches)[id := true] && errors == old(errors)[id := e]
      ensures callbacks == old(callbacks) && disk == old(disk)
      ensures notices == old(notices) + Notify(callbacks[id].listener, Finished)
      ensures Snapshot() == Step(old(Snapshot()), Failure(id, e))
    {
      errors := errors[id := e];
      Tell(callbacks[id].listener, Finished);
      latches := latches[id := true];
    }

    /** The upload handler's onResponse: any status code counts as success and
        the source file is deleted. */
    method OnUploadResponse(id: int, code: int)
      requires Valid() && id in latches && !latches[id] && callbacks[id].UploadCallback?
      modifies this
      ensures Valid()
      ensures latches == old(latches)[id := true] && errors == old(errors)
      ensures callbacks == old(callbacks)
      ensures disk == old(disk) - {callbacks[id].source}
      ensures notices == old(notices) + Notify(callbacks[id].listener, Finished)
      ensures Snapshot() == Step(old(Snapshot()), Response(id, code, []))
    {
      latches := latches[id := true];
      Tell(callbacks[id].listener, Finished);
      disk := disk - {callbacks[id].source};
    }

    /** The download handler's onFailure. */
    method OnDownloadFailure(id: int, e: IoError)
      requires Valid() && id in latches && !latches[id] && callbacks[id].DownloadCallback?
      modifies this
      ensures Valid()
      ensures latches == old(latches)[id := true] && errors == old(errors)[id := e]
      ensures callbacks == old(callbacks) && disk == old(disk)
      ensures notices == old(notices) + Notify(callbacks[id].listener, Finished)
      ensures Snapshot() == Step(old(Snapshot()), Failure(id, e))
    {
      Tell(callbacks[id].listener, Finished);
      errors := errors[id := e];
      latches := latches[id := true];
    }

    /** The download handler's onResponse: only status 200 streams the body
        into the destination file; no path records an error. */
    method OnDownloadResponse(id: int, code: int, body: seq<Byte>)
      requires Valid() && id in latches && !latches[id] && callbacks[id].DownloadCallback?
      modifies this
      ensures Valid()
      ensures latches == old(latches)[id := true] && errors == old(errors)
      ensures callbacks == old(callbacks)
      ensures code == 200 ==> disk == old(disk)[callbacks[id].destination := body]
      ensures code != 200 ==> disk == old(disk)
      ensures var l := callbacks[id].listener;
        notices == old(notices) + (if code == 200 then Notify(l, Progress(|body|, |body|)) else [])
                                + Notify(l, Finished)
      ensures Snapshot() == Step(old(Snapshot()), Response(id, code, body))
    {
      var cb := callbacks[id];
      if code == 200 {
        ReadStreamFromServer(body, cb.destination, cb.listener);
      }
      latches := latches[id := true];
      Tell(cb.listener, Finished);
    }

    /** Streams a response body into `file`, replacing what it held, then
        reports the final size once as progress (total, total). */
    method ReadStreamFromServer(body: seq<Byte>, file: FileName, listener: Option<ListenerId>)
      modifies this
      ensures disk == old(disk)[file := body]
      ensures notices == old(notices) + Notify(listener, Progress(|body|, |body|))
      ensures latches == old(latches) && errors == old(errors) && callbacks == old(callbacks)
    {
      var written, total, _ := ReadStream(body);
      disk := disk[file := written];
      Tell(listener, Progress(total, total));
    }

    /** The delete handler's onFailure: only counts the latch down. */
    method OnDeleteFailure(id: int, e: IoError)
      requires Valid() && id in latches && !latches[id] && callbacks[id].DeleteCallback?
      modifies this
      ensures Valid()
      ensures latches == old(latches)[id := true]
      ensures errors == old(errors) && callbacks == old(callbacks)
      ensures disk == old(disk) && notices == old(notices)
      ensures Snapshot() == Step(old(Snapshot()), Failure(id, e))
    {
      latches := latches[id := true];
    }

    /** The delete handler's onResponse: only counts the latch down, whatever the code. */
    method OnDeleteResponse(id: int, code: int)
      requires Valid() && id in latches && !latches[id] && callbacks[id].DeleteCallback?
      modifies this
      ensures Valid()
      ensures latches == old(latches)[id := true]
      ensures errors == old(errors) && callbacks == old(callbacks)
      ensures disk == old(disk) && notices == old(notices)
      ensures Snapshot() == Step(old(Snapshot()), Response(id, code, []))
    {
      latches := latches[id := true];
    }

    /** waitFor(id) on a latch that is already done: true exactly when no
        error was captured for the id, and false when the waiting thread was
        interrupted. */
    method WaitFor(id: int, interrupted: bool) returns (ok: bool)
      requires id in latches && latches[id]
      ensures ok <==> !interrupted && id !in errors
      ensures !interrupted ==> ok == Outcome(Snapshot(), id)
    {
      if interrupted {
        return false;
      }
      var e := if id in errors then Some(errors[id]) else None;
      ok := e.None?;
    }
  }
}
