# TransferManager ledger, modelled in Dafny

This project models the transfer ledger of qabel-android's `TransferManager`.
It hands out an integer id for each upload, download or delete and installs a one-shot latch for that id.
The block server later calls back on a worker thread.
The callback may record an `IOException` in `errors`, touch a local file and notify the caller's `BoxTransferListener`, and it counts the latch down.
The failure callbacks count down last. The upload and download response callbacks count down before they send onFinished, and upload's also before it deletes the source file. A 200 download sends its progress event before the countdown.
`waitFor(id)` blocks until the latch is down and reports whether no error was recorded.

The model is sequential:

- `stream.dfy` (module `Stream`) holds the `readStreamFromServer` copy loop.
  It uses a 1024-byte `array` buffer.
  A `read` may return any chunk size between one byte and the buffer size, chosen nondeterministically.
  The method is proved to write exactly the body, in the order the chunks were read, with `total` equal to the number of bytes written.
- `ledger.dfy` (module `Ledger`) holds the ledger as a pure state machine.
  The state holds the latches (id to done flag), the errors (id to error; no key means no error), the handler each start installed, the local files (file name to bytes; no key means the file does not exist) and the log of listener events.
  `Step` gives the effect of one start or one callback, and `Run` gives the effect of a trace of them.
  The lemmas cover the invariant, each callback's effect, id independence and the finality of "done".
- `transfer_manager.dfy` (module `Transfers`) holds the class `TransferManager`.
  It has one field per map and one method per operation and per callback handler.
  Each method states its whole new state.
  Each start and callback method is proved to perform exactly one `Ledger.Step`.
  `Tell` and `ReadStreamFromServer` are parts of a step, and `WaitFor` changes nothing.
- `wrappers.dfy` holds `Option`, which stands in for a nullable listener.

What the environment supplies becomes parameters:

- the id that `BlockServer.getNextId` would return (it must be fresh);
- the response, as a status code plus the body bytes;
- the `IOException` of a failed call;
- whether the waiting thread was interrupted.

Where the repository's tests expect something the code does not do, the model follows the code:

- `delete` returns `void`, so its id cannot be waited on by a caller;
- there is no `lookupError`;
- a download answered with a status other than 200 records no error and leaves the destination file untouched.

The delete operation (TransferManager.java:203) sends the block server a *download* request, not a delete.
The model does not represent remote requests at all, so this shows up only as the fact that delete's callbacks never touch anything local.

## Model

| member | source | states |
|---|---|---|
| `Transfers.TransferManager.constructor` | qabelbox/src/main/java/de/qabel/qabelbox/storage/TransferManager.java:37-44 | a new manager starts with empty latch and error maps, over the given local files, with no listener events |
| `Transfers.TransferManager.Upload` | qabelbox/src/main/java/de/qabel/qabelbox/storage/TransferManager.java:64-96 | the fresh id gets a pending latch and an upload handler for the file and listener before it is returned; no other id's entry, no error, no file and no listener changes |
| `Transfers.TransferManager.Download` | qabelbox/src/main/java/de/qabel/qabelbox/storage/TransferManager.java:107-141 | as Upload, with a download handler for the destination file |
| `Transfers.TransferManager.Delete` | qabelbox/src/main/java/de/qabel/qabelbox/storage/TransferManager.java:197-218 | the fresh id gets a pending latch and a delete handler; nothing is returned; nothing else changes |
| `Transfers.TransferManager.OnUploadFailure` | qabelbox/src/main/java/de/qabel/qabelbox/storage/TransferManager.java:71-79 | records the error for the id, sends onFinished once to the listener if there is one, marks the id done; files unchanged |
| `Transfers.TransferManager.OnUploadResponse` | qabelbox/src/main/java/de/qabel/qabelbox/storage/TransferManager.java:82-92 | for every status code: marks the id done with no error, sends onFinished once, deletes the source file and nothing else |
| `Transfers.TransferManager.OnDownloadFailure` | qabelbox/src/main/java/de/qabel/qabelbox/storage/TransferManager.java:115-122 | sends onFinished once, records the error, marks the id done; the destination file is untouched |
| `Transfers.TransferManager.OnDownloadResponse` | qabelbox/src/main/java/de/qabel/qabelbox/storage/TransferManager.java:125-137 | with code 200: the destination holds exactly the body, and progress (size, size) then onFinished are sent; otherwise: the files are unchanged and only onFinished is sent; never an error; the id is done |
| `Transfers.TransferManager.Tell` | qabelbox/src/main/java/de/qabel/qabelbox/storage/TransferManager.java:75-77 | the null-guarded listener call, as a method: the event reaches the listener when there is one and nothing is sent otherwise (the log grows by exactly `Ledger.Notify`); the ledger and the files are unchanged |
| `Transfers.TransferManager.ReadStreamFromServer` | qabelbox/src/main/java/de/qabel/qabelbox/storage/TransferManager.java:151-173 | the file's content becomes the whole body, and one progress event (total, total) with total = body length goes to the listener; the ledger is unchanged |
| `Transfers.TransferManager.OnDeleteFailure` | qabelbox/src/main/java/de/qabel/qabelbox/storage/TransferManager.java:205-208 | only marks the id done: no error, no file, no listener |
| `Transfers.TransferManager.OnDeleteResponse` | qabelbox/src/main/java/de/qabel/qabelbox/storage/TransferManager.java:211-216 | only marks the id done, for every status code |
| `Transfers.TransferManager.WaitFor` | qabelbox/src/main/java/de/qabel/qabelbox/storage/TransferManager.java:181-195 | on a done latch: true exactly when no error is recorded for the id and the thread was not interrupted; false when interrupted |
| `Stream.Read` | qabelbox/src/main/java/de/qabel/qabelbox/storage/TransferManager.java:161 | `read(data)` gives -1 exactly at the end of the stream and then leaves the buffer alone; otherwise it gives 1 to 1024 bytes, which are the next bytes of the stream, at the front of the buffer, and leaves the rest of the buffer as it was |
| `Stream.ReadStream` | qabelbox/src/main/java/de/qabel/qabelbox/storage/TransferManager.java:158-164 | for every chunking the stream may deliver: what is written equals the body and equals the concatenation of the chunks read, each chunk has 1 to 1024 bytes, and total equals the number of bytes written |
| `Ledger.Step` | qabelbox/src/main/java/de/qabel/qabelbox/storage/TransferManager.java:64-218 | one start or callback changes no other id's latch, error or handler; a start leaves a pending latch and changes no error, file or listener; a callback leaves its id done and its handler in place |
| `Ledger.Run` | qabelbox/src/main/java/de/qabel/qabelbox/storage/TransferManager.java:32-33 | over any run, latches are never removed and a done latch stays done |
| `Ledger.StepPreservesValid` | qabelbox/src/main/java/de/qabel/qabelbox/storage/TransferManager.java:64-218 | every step keeps the invariant: each latch has its handler and vice versa, and an error exists only for a done upload or download, never for a delete |
| `Ledger.RunPreservesValid` | qabelbox/src/main/java/de/qabel/qabelbox/storage/TransferManager.java:64-218 | every run keeps that invariant |
| `Ledger.IssuedIdsInstalled` | qabelbox/src/main/java/de/qabel/qabelbox/storage/TransferManager.java:67-68 | every id that a start in a run handed out has a latch at the end of the run |
| `Ledger.Untouched` | qabelbox/src/main/java/de/qabel/qabelbox/storage/TransferManager.java:68-133 | a run of actions on other ids leaves an id's latch, error and handler exactly as they were |
| `Ledger.NothingAfterDone` | qabelbox/src/main/java/de/qabel/qabelbox/storage/TransferManager.java:185-191 | once an id is done, no later start or callback in a run concerns it |
| `Ledger.DoneIsFinal` | qabelbox/src/main/java/de/qabel/qabelbox/storage/TransferManager.java:181-195 | once an id is done it stays done with the same error, whatever runs later, so repeated waitFor(id) gives the same answer |
| `Ledger.CompletionAtMostOnce` | qabelbox/src/main/java/de/qabel/qabelbox/storage/TransferManager.java:68-92 | in any run in which each handler is called at most once, while its latch is pending, and ids are never repeated, no action after a callback for an id concerns that id; so each latch is counted down at most once |
| `Ledger.UploadFailure` | qabelbox/src/main/java/de/qabel/qabelbox/storage/TransferManager.java:71-79 | after upload onFailure the id is done with that error, so waitFor reports false then and after any later run; the source file is kept; onFinished is sent once |
| `Ledger.UploadResponse` | qabelbox/src/main/java/de/qabel/qabelbox/storage/TransferManager.java:82-92 | after upload onResponse, whatever the code, the id is done with no error, so waitFor reports true then and after any later run; the source file is gone and no other file changed; onFinished is sent once |
| `Ledger.DownloadFailure` | qabelbox/src/main/java/de/qabel/qabelbox/storage/TransferManager.java:115-122 | after download onFailure the id is done with that error, so waitFor reports false then and after any later run; the files are unchanged; onFinished is sent once |
| `Ledger.DownloadResponse` | qabelbox/src/main/java/de/qabel/qabelbox/storage/TransferManager.java:125-136 | after download onResponse the id is done with no error, so waitFor reports true then and after any later run; with 200 the destination holds exactly the body, no other file changed, and progress (size, size) precedes onFinished; with any other code the files are unchanged and only onFinished is sent |
| `Ledger.DeleteCompletion` | qabelbox/src/main/java/de/qabel/qabelbox/storage/TransferManager.java:203-217 | either delete callback changes only its own latch, to done; waitFor reports true then and after any later run |

## Left out

- BlockServer and okhttp (`Call`, `Response`, `Callback`): this is network I/O. Each callback invocation is a method call, the response is a status code plus the body bytes, and `getNextId` is a supplied id that must be fresh. That okhttp calls each handler at most once, and only while its latch is pending, and that `getNextId` never repeats an id, are assumed (they are the `Ledger.Enabled` precondition of every step), not proved: `TransferManager` itself does not check either. Remote requests, including the download request that delete sends, are not represented.
- Concurrency: `ConcurrentHashMap`, the unsynchronised `HashMap` behind `errors`, and `CountDownLatch` blocking and happens-before are not modelled. Each callback is one atomic step. So the model does not show that both onResponse paths count their latch down before the listener gets onFinished (TransferManager.java:84-88 and :133-136). It also does not show that upload onResponse counts down before it deletes the source file (:84, :91). In both cases a waiter can observe "done" before the listener has heard onFinished or while the source file still exists.
- Transfers.TransferManager.WaitFor: it requires the latch to be done and does not model the blocking wait on a pending latch. The `InterruptedException` branch is the `interrupted` parameter. For an id that was never installed, `latches.get(id)` is null and `await()` throws a NullPointerException (:185), which the `InterruptedException` handler does not catch; the requires `id in latches` excludes that case instead of modelling the crash.
- An `IOException` raised inside `readStreamFromServer` (the destination cannot be opened, a write fails) is not modelled. In the source it escapes `onResponse` before the latch is counted down, so `waitFor` would block forever. Failures of local file I/O also include `file.delete()` failing, which likewise is not modelled.
- `flush`/`close` of the streams: sequential model, so the file holds its final content at once.
- `total` is a Java `long`; its 64-bit range is not modelled, since no body can be near 2^63 bytes.
- `createTempFile`, the Android `Context` lookup, and the `Log`/`logger` calls are platform and logging code.
- `prefix` and `name` only address the remote object; the model passes them through unused.
- MainFileBrowserPresenter.kt, SplashActivity.java and MockBlockServer.java are not part of this model (UI, platform code and a test mock). TransferManagerTest.java is an instrumentation test against a live server, and several of its assertions are ones the code does not meet (listed above).
