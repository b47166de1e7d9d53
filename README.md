# CrossClip in Dafny

A model of CrossClip, a clipboard relay. One relay server (`main.py`)
keeps a bounded history of clips. It holds an *armed* flag that lets
exactly one upload through before it disarms itself. It pushes every new
clip to the registered push-channel sessions. Two sync agents,
the command-line `client.py` and the Tkinter `desktop_gui.py`,
poll the local clipboard, upload local changes and apply the clips
pushed to them.

| file | module | models |
|---|---|---|
| `protocol.dfy` | `Protocol` | the clip record, push events, HTTP error outcomes |
| `relay.dfy` | `Relay` | `main.py`: token check, upload, arm/disarm, status, latest, the connection manager, the push-channel handshake |
| `clipboard.dfy` | `Clipboard` | policy both agents share: sampler, `str.strip`, remote apply, upload form, reply handling, change detection |
| `agent.dfy` | `Client` | `client.py`: its global state as the `Agent` class |
| `desktop.dfy` | `Desktop` | `desktop_gui.py`: the `CrossBoardApp` class |

How the source maps to the model:

- The relay's state is the class `Relay.Server`:
  - the armed flag;
  - the history, oldest first;
  - the set of file names in the upload directory;
  - a `ConnectionManager` whose `connections` list is updated in place.
- Every broadcast appends one `Delivery` per registered session to the
  manager's `log`. What each session received is read off that log.
- The ghost fields `usedIds` and `evictedFiles` support the storage
  invariant `StoreValid`:
  - the history holds at most 50 clips, with distinct ids;
  - every image clip's file is stored, and its file name's stem is the clip id;
  - no file of an evicted image is ever stored again.
- Each agent's module-level `last_content` and `pause_monitoring` become
  the fields of one object. One pass of the poll loop is `Tick`:
  - `TickBegin` is the pause check and the sample;
  - `TickFinish` is the compare and the record;
  - `Tick` runs the two back to back;
  - `TickRacingApply` lets a remote apply land between them.
- The poll loop over a finite run of clipboard views is `MonitorLoop`.
  It is proved against the reference functions `Track` (the local
  snapshot) and `Detect` (the uploads made).
- The apply in `set_clipboard_content` is split into three atomic steps.
  Together they model the window in which the poll loop is paused:
  - `BeginApply` sets the pause;
  - `ApplyClip` writes the clip and updates the snapshot;
  - `EndApply` clears the pause (the `finally:` block).

Inputs that the source draws from its environment become parameters:

- the fresh uuid and the timestamp of an upload;
- which push-channel sends raise (`failing`);
- the clipboard contents (`ClipboardView`);
- the upload replies (`UploadReply`);
- the outcome of writing a clip to the clipboard and of downloading an image (`ApplyEnv`);
- whether the relay is reachable when the desktop polls the status.

Behaviour the code has that a reader might not expect:

- **Failed sends are not pruned.** A session whose send raises stays in
  the registry: `ConnectionManager.broadcast` (`main.py:64-70`) swallows
  the exception and keeps the session.
  `Broadcast` leaves `connections` unchanged, and `BroadcastIsolation`
  shows the three-session case with every session still registered.
- **401 comes before 403.** The token dependency runs before the armed
  check. An upload with a wrong key therefore gets 401 even when the relay
  is disarmed.
- **`type` "image" without a file is text.** An upload with `type` "image",
  no file and non-empty `content` is stored as a text clip
  (`main.py:133-157`).
- **The push-channel check is in the endpoint.** The token is compared in
  `websocket_endpoint`. `verify_token_ws` is a stub that returns `True`,
  nothing calls it, and it is not modelled.

## Model

| member | source | states |
|---|---|---|
| Protocol.HttpError.Code | main.py:77 | the status of each error the relay raises, always 4xx: 401 for a rejected key, 403 while disarmed, 400 for no content, 404 for an empty history |
| Relay.VerifyToken | main.py:75-78 | passes exactly when the key equals the secret, returning the key; otherwise 401; with no secret configured, exactly key-less requests pass |
| Relay.LastSegment | main.py:135 | `split(".")[-1]`: a dot-free suffix that is the whole name iff the name has no dot, and is otherwise preceded by a dot |
| Relay.Extension | main.py:135 | "png" for a missing or empty file name, otherwise the name's last dot-separated segment; never contains a dot |
| Relay.FileName | main.py:136 | the stored name is the id, a dot, then the extension |
| Relay.FileNameExtension | main.py:135-136 | for a dot-free extension, splitting the stored name on "." gives back the extension as its last segment |
| Relay.DropLastSegmentOfFileName | main.py:136 | removing the last dot segment of `<id>.<ext>` gives back the id, for every id and every dot-free extension |
| Relay.StemOfFileName | main.py:136 | the stored file name determines the clip id, so distinct clips never share a file |
| Relay.NewItem | main.py:133-157 | an image item iff type is "image" and a file came, named `<id>.<ext>`; else a text item iff content is non-empty; else no item (400) |
| Relay.Window | main.py:159-162 | the last min(n, 50) entries of a sequence: its length is min(n, 50) and it is a suffix |
| Relay.Admit | main.py:159-162 | append, then drop the oldest when over 50: never more than 50, the new clip last |
| Relay.Evicted | main.py:161-164 | a clip is evicted iff the history was full, and it is the oldest one |
| Relay.AdmitLosesOnlyEvicted | main.py:159-162 | the old history plus the new clip equals the evicted clip (if any) followed by the new history |
| Relay.ImageFiles | main.py:164-168 | the file owned by a clip: its content for an image, none for text |
| Relay.WindowDropFirst | main.py:161-162 | dropping the head of an overfull sequence does not change its 50-window |
| Relay.AdmitAllIsWindow | main.py:159-162 | any run of uploads leaves exactly the last 50 clips of the old history plus the uploads |
| Relay.FiftyOneUploads | main.py:159-162 | after 51 uploads into an empty history, the first is gone and the 51st is latest |
| Relay.FilesAfter | main.py:139-170 | after an accepted upload only the new image's file is added, only the evicted image's file is removed (and it is gone), every other file is kept |
| Relay.DropOldestKeepsStore | main.py:161-170 | evicting the oldest clip and deleting its image keeps the store invariant |
| Relay.AppendKeepsStore | main.py:139-160 | appending a fresh clip to a non-full history, with its file stored, keeps the store invariant |
| Relay.AdmitKeepsStore | main.py:139-170 | every upload keeps the store invariant: capacity, distinct ids, every image's file present, evicted files gone for good |
| Relay.Deliveries | main.py:64-70 | one send per registered session, in order; it goes through iff that session's send does not raise |
| Relay.DeliveriesSnoc | main.py:65-70 | broadcasting to one more session appends exactly that session's send |
| Relay.ReceivedAppend | main.py:64-70 | what a session receives from two logs in turn is the concatenation |
| Relay.ReceivedBroadcast | main.py:64-70 | a broadcast gives a session the event exactly once iff it is registered and its send does not fail; otherwise nothing |
| Relay.UploadNotification | main.py:172-180 | each live session receives `system_disarmed` and then `new_clip`, in that order |
| Relay.IndexOf | main.py:62 | the position of the first occurrence of a session |
| Relay.RemoveFirst | main.py:62 | `list.remove`: the list without its first occurrence of the session |
| Relay.RemoveFirstDistinct | main.py:61-62 | in a duplicate-free list, removal keeps it duplicate-free and removes exactly that one session |
| Relay.ConnectionManager.constructor | main.py:54-55 | no sessions and nothing sent |
| Relay.ConnectionManager.Connect | main.py:57-59 | the session is appended; nothing is sent |
| Relay.ConnectionManager.Disconnect | main.py:61-62 | removes the session iff registered (the `ValueError` case is the `false` result, state unchanged), no other session changes |
| Relay.ConnectionManager.Broadcast | main.py:64-70 | sends to every registered session in order, isolating failures; the registry is unchanged |
| Relay.Server.constructor | main.py:49-50 | disarmed, empty history, no sessions |
| Relay.Server.GetStatus | main.py:95-101 | 401 for a wrong key; else the armed flag, the history length and the number of sessions |
| Relay.Server.GetLatest | main.py:184-188 | 401 for a wrong key; with the right key, 404 iff the history is empty, otherwise exactly the newest clip |
| Relay.Server.Arm | main.py:103-107 | with the right key: armed, `system_armed` broadcast, "System ARMED."; wrong key: 401 and no change |
| Relay.Server.Disarm | main.py:109-113 | with the right key: disarmed, `system_disarmed` broadcast, "System DISARMED."; wrong key: 401 and no change |
| Relay.Server.Upload | main.py:115-182 | 401, then 403 while disarmed, then 400 with no content, each with nothing changed; on success: the clip is admitted, files follow, relay disarmed, disarm then clip broadcast, and `latest` returns the clip |
| Relay.Server.Accept | main.py:159-180 | the success path: store, disarm, notify, keeping the store invariant |
| Relay.Server.StoreItem | main.py:159-170 | history admits the clip, its file is stored and the evicted clip's file is deleted |
| Relay.Server.NotifyUpload | main.py:172-180 | every live session receives the disarm and then the clip |
| Relay.Server.OpenSession | main.py:190-197 | accepted and registered iff the token equals the secret; otherwise closed with code 1008 and not registered |
| Relay.Server.CloseSession | main.py:203-204 | the session leaves the registry |
| Relay.BroadcastIsolation | main.py:64-70 | a failing second session does not stop delivery to the first and third, and all stay registered |
| Relay.SecurityScenario | test_security.py:13-56 | disarm, upload then 403; arm, upload then accepted; upload again then 403 (one-shot) |
| Clipboard.SpaceClasses | client.py:39 | the whitespace `str.strip()` removes, `IsSpace`, which is exactly Python's `str.isspace` set (U+0009–U+000D, U+001C–U+001F, space, U+0085, U+00A0, U+1680, U+2000–U+200A, U+2028, U+2029, U+202F, U+205F, U+3000): every ASCII blank is in it, no letter, digit or `_` is |
| Clipboard.StripLeft | client.py:39 | removes exactly the leading Python whitespace; empty iff the text is all whitespace |
| Clipboard.StripRight | client.py:39 | removes exactly the trailing Python whitespace; empty iff the text is all whitespace |
| Clipboard.Strip | client.py:39 | `str.strip()`: the text with its leading whitespace (exactly what `StripLeft` cuts) and its trailing whitespace cut off, so the result is a middle slice of the text with blank text on both sides; neither end is whitespace; empty iff every character is whitespace |
| Clipboard.SampleStripsText | client.py:38-40 | text is sampled exactly when it is non-empty and its `strip()` is non-empty, and then as it is |
| Clipboard.Sample | client.py:28-43 | an image if there is one; else the text if it has a non-whitespace character; else nothing (also for an unreadable clipboard) |
| Clipboard.BlankTextIsNothing | desktop_gui.py:138-142 | a whitespace-only clipboard samples as nothing |
| Clipboard.ImageBeatsText | desktop_gui.py:123-142 | with image and text both present, the image is sampled |
| Clipboard.Applied | client.py:52-90 | a written text clip becomes the text snapshot; an image with a 200 download becomes the PNG snapshot; a failed write or a failed download changes nothing |
| Clipboard.UploadOutcome | client.py:139-156 | 403 is "disarmed", other 4xx/5xx are HTTP errors, transport failures are caught, anything else is uploaded |
| Clipboard.UploadRequest | client.py:133-147 | text goes as the `content` field with type "text"; an image goes as the file "clipboard.png", with type "image" stated for it |
| Clipboard.SampledUploadsAccepted | main.py:133-157 | the relay never answers 400 to an agent's upload: the item has the sample's kind, the same text, or the image stored as `<id>.png` |
| Clipboard.Samples | client.py:112 | one sample per clipboard view |
| Clipboard.TrackStep | client.py:112-131 | one more tick moves the snapshot and the uploads by exactly what that tick does |
| Clipboard.DetectAppend | client.py:104-131 | polling two runs in turn equals polling the first, then the second from where the snapshot was left |
| Clipboard.TrackIsLatestUpload | client.py:128-131 | the snapshot is always the latest upload, or the start value if there was none |
| Clipboard.UploadsWereSampled | client.py:112-131 | every upload is a value the loop sampled |
| Clipboard.UploadsDiffer | client.py:115-131 | no upload repeats the previous one, and the first differs from the start value |
| Clipboard.StartupContentNotUploaded | client.py:100-126 | content on the clipboard at start, even if cleared in between, is never uploaded |
| Clipboard.ClearsIgnored | client.py:117-119 | a tick that samples nothing changes neither the snapshot nor the uploads that follow |
| Clipboard.AppliedClipIsNoChange | client.py:55-57 | after a successful apply, sampling what was written is not a local change (no echo) |
| Client.Changed | client.py:115-126 | the comparison as written equals the reference: there is a sample and it differs from the snapshot |
| Client.Agent.constructor | client.py:24-26 | no snapshot, not paused, nothing uploaded |
| Client.Agent.Start | client.py:100-102 | the snapshot is the initial sample |
| Client.Agent.Tick | client.py:104-156 | one pass with its lock regions run back to back: skipped while paused; otherwise a local change updates the snapshot before the upload and is uploaded once; the reply is classified |
| Client.Agent.TickBegin | client.py:108-112 | the pause check and the sample: proceeds iff not paused, with the sample of the view; nothing changes |
| Client.Agent.TickFinish | client.py:114-131 | compares an earlier sample with the snapshot as it is now: on a local change it is recorded and uploaded once, otherwise nothing changes |
| Client.Agent.TickRacingApply | client.py:49-131 | a pass whose sample is taken before an apply and compared after it: the stale sample wins over the applied clip whenever it differs from it |
| Client.Agent.BeginApply | client.py:49-50 | pause the poll loop |
| Client.Agent.ApplyClip | client.py:52-90 | the snapshot becomes what a successful apply wrote |
| Client.Agent.EndApply | client.py:91-94 | resume the poll loop whatever happened |
| Client.Agent.SetClipboardContent | client.py:45-94 | apply and resume: the snapshot is `Applied`, the loop is not paused |
| Client.Agent.OnMessage | client.py:159-169 | only `new_clip` is applied; other events change nothing |
| Client.Agent.MonitorLoop | client.py:96-156 | over a run of views, the snapshot is `Track`, the uploads are `Detect`, and each tick's outcome is as expected; all ticks are skipped while paused |
| Client.Agent.SkipTicks | client.py:108-110 | while paused, every tick is skipped and nothing changes |
| Client.Agent.RunTicks | client.py:104-156 | unpaused ticks follow `Track`/`Detect` from the current snapshot |
| Client.EchoWindow | client.py:45-131 | a remote clip whose apply completes between two ticks is not uploaded back: a tick inside the apply is skipped, the one after finds no change |
| Client.EchoRace | client.py:45-131 | with the apply landing between a pass's sample and its compare, the local sample is recorded and the applied remote clip is then uploaded back |
| Client.EchoRaceLocked | client.py:104-131 | the same inputs with each pass under one lock: only the local sample is uploaded |
| Desktop.ChangedDesktop | desktop_gui.py:203-211 | the desktop comparison also equals the reference change predicate |
| Desktop.CrossBoardApp.constructor | desktop_gui.py:25-51 | no snapshot, not paused, indicator "System Disarmed" |
| Desktop.CrossBoardApp.UpdateUiStatus | desktop_gui.py:82-86 | the indicator shows the given armed flag |
| Desktop.CrossBoardApp.FetchStatus | desktop_gui.py:106-113 | a reachable relay accepting the key sets the indicator to its armed flag; otherwise it is unchanged |
| Desktop.CrossBoardApp.Start | desktop_gui.py:192-193 | the snapshot is the initial sample |
| Desktop.CrossBoardApp.Tick | desktop_gui.py:195-239 | as the command-line tick, lock regions back to back: skipped while paused, local change recorded before upload, reply classified |
| Desktop.CrossBoardApp.TickBegin | desktop_gui.py:198-202 | the pause check and the sample; nothing changes |
| Desktop.CrossBoardApp.TickFinish | desktop_gui.py:203-215 | compares an earlier sample with the current snapshot; on a local change records and uploads it |
| Desktop.CrossBoardApp.TickRacingApply | desktop_gui.py:155-215 | the apply landing between sample and compare: the stale sample wins whenever it differs from the applied clip |
| Desktop.CrossBoardApp.BeginApply | desktop_gui.py:155-156 | pause the poll loop |
| Desktop.CrossBoardApp.ApplyClip | desktop_gui.py:158-184 | the snapshot becomes what a successful apply wrote |
| Desktop.CrossBoardApp.EndApply | desktop_gui.py:185-188 | resume the poll loop whatever happened |
| Desktop.CrossBoardApp.SetClipboardContent | desktop_gui.py:152-188 | apply and resume; uploads and indicator unchanged |
| Desktop.CrossBoardApp.OnMessage | desktop_gui.py:241-251 | `new_clip` is applied, `system_armed`/`system_disarmed` set the indicator, other events change nothing |
| Desktop.CrossBoardApp.MonitorLoop | desktop_gui.py:190-239 | over a run of views, the snapshot is `Track` and the uploads are `Detect`, as for the command-line agent |
| Desktop.CrossBoardApp.SkipTicks | desktop_gui.py:198-200 | while paused, every tick is skipped |
| Desktop.CrossBoardApp.RunTicks | desktop_gui.py:195-239 | unpaused ticks follow `Track`/`Detect` |
| Desktop.ArmedIndicatorFollowsRelay | desktop_gui.py:241-251 | with the desktop session registered through the token handshake and not failing, the event the relay delivers to it on arm sets the indicator, and a status poll then also shows armed |
| Desktop.EchoRace | desktop_gui.py:152-215 | the same echo as the command-line agent when the apply lands between sample and compare |
| Desktop.EchoRaceLocked | desktop_gui.py:195-215 | the same inputs with each pass under one lock: only the local sample is uploaded |

## Findings

| source | as written | input that shows it | evidently intended | confidence | as-written member | corrected member |
|---|---|---|---|---|---|---|
| client.py:104-131 | the pause check, the sample, the compare and the record take `content_lock` in separate regions, so an apply can start and finish its text write between the sample and the compare | empty clipboard at start; local text `y` is sampled; remote text `x` is applied; the pass then compares `y` with `x`, records and uploads `y`; the next pass samples `x` and uploads it back | a clip applied from the relay is never sent back to it | not executed | Client.EchoRace (through Client.Agent.TickRacingApply) | Client.EchoRaceLocked (through Client.Agent.Tick, used by MonitorLoop) |
| desktop_gui.py:195-215 | the same separate lock regions in `CrossBoardApp.monitor_loop` | the same interleaving as for the command-line agent | the same | not executed | Desktop.EchoRace (through Desktop.CrossBoardApp.TickRacingApply) | Desktop.EchoRaceLocked (through Desktop.CrossBoardApp.Tick, used by MonitorLoop) |

## Left out

- Transport (HTTP, multipart parsing, WebSocket framing, JSON) is left out. Requests and replies are method calls and values.
- CORS, the static `/uploads` mount and `read_root` (serving `index.html`) are left out: they do no logic.
- Reading, writing and deleting upload files is left out. The upload directory is a set of names. A failing `open` or `os.remove` is not modelled, and `os.remove` errors are ignored as in the source.
- An extension containing `/` yields a path into a directory that does not exist. The model does not capture the resulting write error.
- `uuid.uuid4()` and `datetime.now()` are parameters. Their freshness is the precondition `clipId !in usedIds`.
- `verify_token_ws` is a stub that always passes and is never called, so it is not modelled.
- `generate_qr.py` is not part of this model.
- Concurrency is left out: threads, `content_lock`, the sleeps, and async interleavings such as a session joining or leaving during a broadcast's awaits. Each operation is atomic. The pause window is modelled by the separate `BeginApply`/`ApplyClip`/`EndApply` steps.
- Client.Agent.Tick and Desktop.CrossBoardApp.Tick: each runs the pass's lock regions back to back. The interleaving in which an apply lands between the sample and the compare is modelled separately, by `TickRacingApply`, and exhibited by `EchoRace`. An apply landing between the compare and the record (`client.py:116-131`) is not modelled: `TickFinish` compares and records in one step.
- Client.Agent.ApplyClip and Desktop.CrossBoardApp.ApplyClip: each writes the clipboard and records `last_content` in one step. In the source the write (`pyperclip.copy`, `client.py:54`, `desktop_gui.py:160`) happens outside the lock and the record (`client.py:56-57`, `desktop_gui.py:161-162`) inside it. So a pass that samples the written `x` and compares before the record, then uploads `x` itself, is not expressible; that is a second echo, besides the one `EchoRace` shows.
- Relay.Server.Upload and Relay.Server.Accept: one `failing` set decides both of an upload's broadcasts. A session whose `system_disarmed` send succeeds but whose `new_clip` send raises cannot be expressed.
- The push-channel receive loop and `manager.disconnect` on `WebSocketDisconnect` are modelled as `CloseSession` alone.
- Reconnecting after `on_close` is left out.
- The listener's token query string is left out; the relay side is `OpenSession`.
- Clipboard access and image codecs (`ImageGrab`, `win32clipboard`, PIL, BMP/DIB conversion) are left out. An image is the PNG byte string the codec produced. A clipboard image that cannot be decoded is an `Unreadable` view.
- Clipboard.AppliedClipIsNoChange: for images it assumes the later sample is byte-for-byte the PNG the apply stored. The codec round trip that would decide this is not modelled.
- Clipboard.Applied: any exception during the apply is one flag, `writeOk`. A transport error on the image download counts as a non-200 status, which has the same effect.
- Malformed push messages (bad JSON, a `new_clip` without `data`) are caught and ignored by both agents. They are not modelled beyond `Other` events.
- The desktop arm/disarm buttons (`arm_system`, `disarm_system`) are left out. They only log the reply; the relay side is `Relay.Server.Arm`/`Disarm`.
- Tkinter widgets and all logging and printing are left out.
- `fetch_status`'s re-scheduling every 3 seconds is left out.
- Desktop.CrossBoardApp.FetchStatus: a malformed reply body is not modelled.
- Client.Agent.MonitorLoop and Desktop.CrossBoardApp.MonitorLoop: the loops are modelled over a finite run of ticks. The pause flag is constant within the run, because the apply runs on another thread.
