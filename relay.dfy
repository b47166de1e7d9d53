/**
 * The relay (main.py): the arm/disarm gate with its one-shot disarm, the
 * bounded clip history with eviction of stored image files, the registry
 * of push-channel sessions with its best-effort broadcast, and the
 * token-checked request surface around them.
 *
 * HTTP and WebSocket transport become method calls and `Response` values;
 * the upload directory becomes the set of stored file names; fresh clip ids,
 * timestamps and the sends that fail are parameters.
 */
module Relay {
  import opened Protocol

  /** Clip history capacity (main.py:161). */
  const MaxHistory := 50

  /** Close code sent to a push-channel session with a wrong token. */
  const PolicyViolation := 1008

  /** The uploaded multipart file, reduced to its client-side file name. */
  datatype UploadFile = UploadFile(filename: Option<string>)

  datatype SystemStatus = SystemStatus(armed: bool, itemCount: nat, connectedClients: nat)

  /** A push-channel session handle. */
  type ConnId = nat

  /** One attempted send of `event` to session `conn`, and whether it went through. */
  datatype Delivery = Delivery(conn: ConnId, event: Event, delivered: bool)

  datatype Handshake = Accepted | Closed(code: int)

  // ---------------------------------------------------------------------
  // Authentication
  // ---------------------------------------------------------------------

  /**
   * verify_token: the `x-api-key` header must equal the configured secret.
   * Both may be absent; when no secret is configured, exactly the requests
   * that carry no key get through.
   */
  function VerifyToken(key: Option<string>, secret: Option<string>): (r: Response<Option<string>>)
    ensures r.Ok? <==> key == secret
    ensures r.Ok? ==> r.value == key
    ensures r.Err? ==> r.error == Unauthorized && r.error.Code() == 401
    ensures secret.None? ==> (r.Ok? <==> key.None?)
  {
    if key != secret then Err(Unauthorized) else Ok(key)
  }

  // ---------------------------------------------------------------------
  // Stored file names
  // ---------------------------------------------------------------------

  /** The last "."-separated segment of `s`, as `s.split(".")[-1]`. */
  function LastSegment(s: string): (r: string)
    ensures '.' !in r
    ensures |r| <= |s| && r == s[|s| - |r|..]
    ensures |r| == |s| <==> '.' !in s
    ensures |r| < |s| ==> s[|s| - |r| - 1] == '.'
    decreases |s|
  {
    if |s| == 0 then ""
    else if s[|s| - 1] == '.' then ""
    else LastSegment(s[..|s| - 1]) + [s[|s| - 1]]
  }

  /** The extension kept for an uploaded image: "png" for a missing or empty file name. */
  function Extension(filename: Option<string>): (e: string)
    ensures '.' !in e
    ensures filename.None? || filename == Some("") ==> e == "png"
    ensures filename.Some? && filename.value != "" ==>
              |e| <= |filename.value| && e == filename.value[|filename.value| - |e|..] &&
              (|e| == |filename.value| || filename.value[|filename.value| - |e| - 1] == '.')
  {
    if filename.None? || filename.value == "" then "png" else LastSegment(filename.value)
  }

  /** The stored name of an image clip: its id, a dot, its extension. */
  function FileName(id: string, ext: string): (f: string)
    ensures |f| == |id| + 1 + |ext|
    ensures f[..|id|] == id && f[|id|] == '.' && f[|id| + 1..] == ext
  {
    id + "." + ext
  }

  /** Splitting a stored name on "." gives back its extension as the last segment. */
  lemma {:induction false} FileNameExtension(id: string, ext: string)
    requires '.' !in ext
    ensures LastSegment(FileName(id, ext)) == ext
    decreases |ext|
  {
    if ext != [] {
      var e' := ext[..|ext| - 1];
      var f := FileName(id, ext);
      assert f[..|f| - 1] == FileName(id, e');
      assert f[|f| - 1] == ext[|ext| - 1];
      FileNameExtension(id, e');
      assert ext == e' + [ext[|ext| - 1]];
    }
  }

  /** `s` without its last "."-separated segment and that dot. */
  function DropLastSegment(s: string): string
    decreases |s|
  {
    if s == [] then []
    else if s[|s| - 1] == '.' then s[..|s| - 1]
    else DropLastSegment(s[..|s| - 1])
  }

  /** The part of a file name before its last dot: the inverse of FileName. */
  function StemOf(f: string): string
  {
    if '.' in f then DropLastSegment(f) else f
  }

  lemma {:induction false} DropLastSegmentOfFileName(id: string, ext: string)
    requires '.' !in ext
    ensures DropLastSegment(FileName(id, ext)) == id
    decreases |ext|
  {
    var s := FileName(id, ext);
    if ext == [] {
      assert s[|s| - 1] == '.' && s[..|s| - 1] == id;
    } else {
      var init := ext[..|ext| - 1];
      assert s[..|s| - 1] == FileName(id, init);
      assert s[|s| - 1] == ext[|ext| - 1];
      assert ext[|ext| - 1] in ext;
      assert '.' !in init by {
        forall k | 0 <= k < |init| ensures init[k] != '.' {
          assert init[k] == ext[k];
        }
      }
      DropLastSegmentOfFileName(id, init);
    }
  }

  /** A stored image name determines the clip id it was made from. */
  lemma StemOfFileName(id: string, ext: string)
    requires '.' !in ext
    ensures StemOf(FileName(id, ext)) == id
  {
    var f := FileName(id, ext);
    assert f[|id|] == '.';
    DropLastSegmentOfFileName(id, ext);
  }

  // ---------------------------------------------------------------------
  // Item construction (main.py:133-157)
  // ---------------------------------------------------------------------

  /**
   * The item an accepted upload builds, or None for the 400 case:
   * an image item when the type is "image" and a file was sent, otherwise
   * a text item when the content is non-empty.
   */
  function NewItem(file: Option<UploadFile>, content: Option<string>, typ: string,
                   clipId: string, timestamp: string): (r: Option<ClipItem>)
    ensures r.Some? ==> r.value.id == clipId && r.value.timestamp == timestamp
    ensures (r.Some? && r.value.kind == Image) <==> (typ == "image" && file.Some?)
    ensures r.Some? && r.value.kind == Image ==>
              r.value.content == FileName(clipId, Extension(file.value.filename))
    ensures (r.Some? && r.value.kind == Text) <==>
              (!(typ == "image" && file.Some?) && content.Some? && content.value != "")
    ensures r.Some? && r.value.kind == Text ==> r.value.content == content.value
  {
    if typ == "image" && file.Some? then
      var ext := Extension(file.value.filename);
      Some(ClipItem(clipId, Image, FileName(clipId, ext), timestamp))
    else if content.Some? && content.value != "" then
      Some(ClipItem(clipId, Text, content.value, timestamp))
    else
      None
  }

  // ---------------------------------------------------------------------
  // History (main.py:159-170)
  // ---------------------------------------------------------------------

  /** The last min(|s|, MaxHistory) elements of `s`. */
  function Window<T>(s: seq<T>): (w: seq<T>)
    ensures |w| == if |s| <= MaxHistory then |s| else MaxHistory
    ensures |w| <= MaxHistory && |w| <= |s| && w == s[|s| - |w|..]
    ensures |s| <= MaxHistory ==> w == s
  {
    if |s| <= MaxHistory then s else s[|s| - MaxHistory..]
  }

  /** History after appending `item` and dropping the oldest entry past capacity. */
  function Admit(history: seq<ClipItem>, item: ClipItem): (h: seq<ClipItem>)
    ensures |history| <= MaxHistory ==> |h| <= MaxHistory
    ensures |history| < MaxHistory ==> h == history + [item]
    ensures |history| >= MaxHistory ==> h == history[1..] + [item]
  {
    var appended := history + [item];
    if |appended| > MaxHistory then appended[1..] else appended
  }

  /** The entry `Admit` drops, if any. */
  function Evicted(history: seq<ClipItem>, item: ClipItem): (e: Option<ClipItem>)
    ensures e.Some? <==> |history| >= MaxHistory
    ensures e.Some? ==> e.value == history[0]
  {
    if |history| + 1 > MaxHistory then Some(history[0]) else None
  }

  /**
   * Admitting an item loses nothing but the evicted entry: the old history
   * followed by the item is the evicted entry (if any) followed by the new
   * history, and the new item is the newest entry.
   */
  lemma AdmitLosesOnlyEvicted(history: seq<ClipItem>, item: ClipItem)
    ensures var h := Admit(history, item);
            && |h| > 0 && h[|h| - 1] == item
            && history + [item] == (if Evicted(history, item).Some? then [history[0]] else []) + h
  {
    if |history| >= MaxHistory {
      assert history == [history[0]] + history[1..];
    }
  }

  /** The stored file that belongs to an item: its content when it is an image. */
  function ImageFiles(item: Option<ClipItem>): (fs: set<string>)
    ensures fs == {} || (item.Some? && item.value.kind == Image && fs == {item.value.content})
    ensures item.Some? && item.value.kind == Image ==> item.value.content in fs
  {
    if item.Some? && item.value.kind == Image then {item.value.content} else {}
  }

  /** History after a run of accepted uploads. */
  function AdmitAll(history: seq<ClipItem>, items: seq<ClipItem>): seq<ClipItem>
    decreases |items|
  {
    if items == [] then history else AdmitAll(Admit(history, items[0]), items[1..])
  }

  lemma WindowDropFirst<T>(s: seq<T>)
    requires |s| > MaxHistory
    ensures Window(s[1..]) == Window(s)
  {
    if |s| - 1 > MaxHistory {
      assert s[1..][|s| - 1 - MaxHistory..] == s[|s| - MaxHistory..];
    }
  }

  /** However many uploads are accepted, history holds exactly the latest MaxHistory of them. */
  lemma {:induction false} AdmitAllIsWindow(history: seq<ClipItem>, items: seq<ClipItem>)
    requires |history| <= MaxHistory
    ensures AdmitAll(history, items) == Window(history + items)
    decreases |items|
  {
    if items == [] {
      assert history + items == history;
    } else {
      var x, rest := items[0], items[1..];
      var t := history + [x];
      var a := Admit(history, x);
      AdmitAllIsWindow(a, rest);
      assert history + items == t + rest;
      if |history| == MaxHistory {
        assert a == t[1..];
        assert a + rest == (t + rest)[1..];
        WindowDropFirst(t + rest);
      }
    }
  }

  /** 51 accepted uploads into an empty history keep the last 50 and drop the first. */
  lemma FiftyOneUploads(items: seq<ClipItem>)
    requires |items| == MaxHistory + 1
    ensures AdmitAll([], items) == items[1..]
    ensures |AdmitAll([], items)| == MaxHistory
    ensures AdmitAll([], items)[MaxHistory - 1] == items[MaxHistory]
  {
    AdmitAllIsWindow([], items);
    assert [] + items == items;
  }

  // ---------------------------------------------------------------------
  // Stored files against history
  // ---------------------------------------------------------------------

  /**
   * The relay's storage invariant: history within capacity, clip ids
   * distinct and handed out, every image in history backed by its stored
   * file, and no file of an evicted image left behind.
   */
  ghost predicate StoreValid(history: seq<ClipItem>, files: set<string>, usedIds: set<string>, evictedFiles: set<string>)
  {
    && |history| <= MaxHistory
    && (forall i :: 0 <= i < |history| ==> history[i].id in usedIds)
    && (forall i, j :: 0 <= i < j < |history| ==> history[i].id != history[j].id)
    && (forall i :: 0 <= i < |history| && history[i].kind == Image ==>
          history[i].content in files && StemOf(history[i].content) == history[i].id)
    && evictedFiles !! files
    && (forall f :: f in evictedFiles ==> StemOf(f) in usedIds)
  }

  /** Files after an accepted upload: the new image stored, the evicted image deleted, every other file kept. */
  function FilesAfter(files: set<string>, history: seq<ClipItem>, item: ClipItem): (fs: set<string>)
    ensures fs - files <= ImageFiles(Some(item))
    ensures files - fs <= ImageFiles(Evicted(history, item))
    ensures ImageFiles(Evicted(history, item)) !! fs
    ensures files - ImageFiles(Evicted(history, item)) <= fs
    ensures ImageFiles(Some(item)) !! ImageFiles(Evicted(history, item)) ==> ImageFiles(Some(item)) <= fs
  {
    (files + ImageFiles(Some(item))) - ImageFiles(Evicted(history, item))
  }

  /** The invariant survives dropping the oldest entry together with its file. */
  lemma DropOldestKeepsStore(history: seq<ClipItem>, files: set<string>, usedIds: set<string>, evictedFiles: set<string>)
    requires StoreValid(history, files, usedIds, evictedFiles)
    requires history != []
    ensures StoreValid(history[1..], files - ImageFiles(Some(history[0])), usedIds, evictedFiles + ImageFiles(Some(history[0])))
  {
    var h, gone := history[1..], ImageFiles(Some(history[0]));
    forall i | 0 <= i < |h| && h[i].kind == Image
      ensures h[i].content !in gone
    {
      assert h[i] == history[i + 1];
      if history[0].kind == Image {
        assert StemOf(history[0].content) == history[0].id != history[i + 1].id;
      }
    }
    forall i, j | 0 <= i < j < |h| ensures h[i].id != h[j].id {
      assert h[i] == history[i + 1] && h[j] == history[j + 1];
    }
  }

  /** The invariant survives appending an item with a fresh id together with its file. */
  lemma AppendKeepsStore(history: seq<ClipItem>, files: set<string>, usedIds: set<string>, evictedFiles: set<string>, item: ClipItem)
    requires StoreValid(history, files, usedIds, evictedFiles)
    requires |history| < MaxHistory
    requires item.id !in usedIds
    requires item.kind == Image ==> StemOf(item.content) == item.id
    ensures StoreValid(history + [item], files + ImageFiles(Some(item)), usedIds + {item.id}, evictedFiles)
  {
    var h := history + [item];
    forall i | 0 <= i < |h| ensures h[i] == if i < |history| then history[i] else item {
    }
    if item.kind == Image {
      assert StemOf(item.content) !in usedIds;
      assert item.content !in evictedFiles;
    }
  }

  /** An accepted upload with a fresh id keeps the storage invariant and keeps its own file. */
  lemma {:induction false} AdmitKeepsStore(history: seq<ClipItem>, files: set<string>, usedIds: set<string>, evictedFiles: set<string>, item: ClipItem)
    requires StoreValid(history, files, usedIds, evictedFiles)
    requires item.id !in usedIds
    requires item.kind == Image ==> StemOf(item.content) == item.id
    ensures ImageFiles(Some(item)) <= FilesAfter(files, history, item)
    ensures StoreValid(Admit(history, item), FilesAfter(files, history, item), usedIds + {item.id},
                       evictedFiles + ImageFiles(Evicted(history, item)))
  {
    var added := ImageFiles(Some(item));
    if |history| < MaxHistory {
      assert Evicted(history, item) == None;
      assert Admit(history, item) == history + [item];
      assert FilesAfter(files, history, item) == files + added;
      assert evictedFiles + ImageFiles(None) == evictedFiles;
      AppendKeepsStore(history, files, usedIds, evictedFiles, item);
    } else {
      var first := history[0];
      var dropped := ImageFiles(Some(first));
      assert Evicted(history, item) == Some(first);
      assert Admit(history, item) == history[1..] + [item];
      DropOldestKeepsStore(history, files, usedIds, evictedFiles);
      assert first.id in usedIds;
      assert added !! dropped by {
        if item.kind == Image && first.kind == Image {
          assert StemOf(first.content) == first.id;
        }
      }
      assert FilesAfter(files, history, item) == (files - dropped) + added;
      AppendKeepsStore(history[1..], files - dropped, usedIds, evictedFiles + dropped, item);
    }
  }

  // ---------------------------------------------------------------------
  // Broadcast log (main.py:64-70)
  // ---------------------------------------------------------------------

  ghost predicate Distinct(conns: seq<ConnId>)
  {
    forall i, j :: 0 <= i < j < |conns| ==> conns[i] != conns[j]
  }

  /** One send attempt per session, in registry order; a failing send is recorded and skipped. */
  function Deliveries(conns: seq<ConnId>, ev: Event, failing: set<ConnId>): (d: seq<Delivery>)
    ensures |d| == |conns|
    ensures forall k :: 0 <= k < |conns| ==> d[k] == Delivery(conns[k], ev, conns[k] !in failing)
    decreases |conns|
  {
    if conns == [] then []
    else [Delivery(conns[0], ev, conns[0] !in failing)] + Deliveries(conns[1..], ev, failing)
  }

  lemma {:induction false} DeliveriesSnoc(conns: seq<ConnId>, c: ConnId, ev: Event, failing: set<ConnId>)
    ensures Deliveries(conns + [c], ev, failing) == Deliveries(conns, ev, failing) + [Delivery(c, ev, c !in failing)]
  {
    var l, r := Deliveries(conns + [c], ev, failing), Deliveries(conns, ev, failing) + [Delivery(c, ev, c !in failing)];
    assert |l| == |r|;
    forall k | 0 <= k < |l| ensures l[k] == r[k] {
      if k < |conns| {
        assert (conns + [c])[k] == conns[k];
      }
    }
  }

  /** The events session `c` actually received, in the order it received them. */
  function Received(log: seq<Delivery>, c: ConnId): seq<Event>
    decreases |log|
  {
    if log == [] then []
    else (if log[0].conn == c && log[0].delivered then [log[0].event] else []) + Received(log[1..], c)
  }

  lemma {:induction false} ReceivedAppend(a: seq<Delivery>, b: seq<Delivery>, c: ConnId)
    ensures Received(a + b, c) == Received(a, c) + Received(b, c)
    decreases |a|
  {
    if a == [] {
      assert a + b == b;
    } else {
      assert (a + b)[1..] == a[1..] + b;
      ReceivedAppend(a[1..], b, c);
    }
  }

  /** A broadcast reaches each registered, non-failing session exactly once, and nobody else. */
  lemma {:induction false} ReceivedBroadcast(conns: seq<ConnId>, ev: Event, failing: set<ConnId>, c: ConnId)
    requires Distinct(conns)
    ensures Received(Deliveries(conns, ev, failing), c) == if c in conns && c !in failing then [ev] else []
    decreases |conns|
  {
    if conns != [] {
      assert Distinct(conns[1..]) by {
        forall i, j | 0 <= i < j < |conns[1..]| ensures conns[1..][i] != conns[1..][j] {
          assert conns[1..][i] == conns[i + 1] && conns[1..][j] == conns[j + 1];
        }
      }
      ReceivedBroadcast(conns[1..], ev, failing, c);
      var d := Deliveries(conns, ev, failing);
      assert d[1..] == Deliveries(conns[1..], ev, failing);
      if conns[0] == c {
        assert c !in conns[1..] by {
          forall k | 0 <= k < |conns[1..]| ensures conns[1..][k] != c {
            assert conns[1..][k] == conns[k + 1];
          }
        }
      } else {
        assert c in conns <==> c in conns[1..];
      }
    }
  }

  /**
   * The two broadcasts of an accepted upload: every registered, non-failing
   * session receives `system_disarmed` and then `new_clip`, and nothing else.
   */
  lemma UploadNotification(log: seq<Delivery>, conns: seq<ConnId>, item: ClipItem, failing: set<ConnId>, c: ConnId)
    requires Distinct(conns)
    ensures Received(log + Deliveries(conns, SystemDisarmed, failing) + Deliveries(conns, NewClip(item), failing), c)
            == Received(log, c) + (if c in conns && c !in failing then [SystemDisarmed, NewClip(item)] else [])
  {
    var d1, d2 := Deliveries(conns, SystemDisarmed, failing), Deliveries(conns, NewClip(item), failing);
    ReceivedAppend(log + d1, d2, c);
    ReceivedAppend(log, d1, c);
    ReceivedBroadcast(conns, SystemDisarmed, failing, c);
    ReceivedBroadcast(conns, NewClip(item), failing, c);
  }

  // ---------------------------------------------------------------------
  // Session registry
  // ---------------------------------------------------------------------

  /** The position of the first occurrence of `c` in `s`. */
  function IndexOf(s: seq<ConnId>, c: ConnId): (k: nat)
    requires c in s
    ensures k < |s| && s[k] == c && c !in s[..k]
    decreases |s|
  {
    if s[0] == c then 0
    else
      var k := IndexOf(s[1..], c);
      assert s[..k + 1] == [s[0]] + s[1..][..k];
      k + 1
  }

  /** `s` without its first occurrence of `c`, as Python's `list.remove`. */
  function RemoveFirst(s: seq<ConnId>, c: ConnId): (r: seq<ConnId>)
    requires c in s
    ensures |r| == |s| - 1
    ensures var k := IndexOf(s, c); r == s[..k] + s[k + 1..]
  {
    var k := IndexOf(s, c);
    s[..k] + s[k + 1..]
  }

  lemma RemoveFirstDistinct(s: seq<ConnId>, c: ConnId)
    requires c in s && Distinct(s)
    ensures Distinct(RemoveFirst(s, c))
    ensures forall x :: x in RemoveFirst(s, c) <==> x in s && x != c
  {
    var r := RemoveFirst(s, c);
    var k := IndexOf(s, c);
    assert forall i :: 0 <= i < |r| ==> r[i] == s[if i < k then i else i + 1];
    forall i, j | 0 <= i < j < |r| ensures r[i] != r[j] {
      var i', j' := if i < k then i else i + 1, if j < k then j else j + 1;
      assert i' < j' && r[i] == s[i'] && r[j] == s[j'];
    }
    forall x | x in r ensures x in s && x != c {
      var i :| 0 <= i < |r| && r[i] == x;
      var i' := if i < k then i else i + 1;
      assert s[i'] == x && i' != k;
    }
    forall x | x in s && x != c ensures x in r {
      var j :| 0 <= j < |s| && s[j] == x;
      assert j != k;
      assert r[if j < k then j else j - 1] == x;
    }
  }

  /** ConnectionManager: the live push-channel sessions and every send attempted to them. */
  class ConnectionManager {
    var connections: seq<ConnId>
    var log: seq<Delivery>

    ghost predicate Valid()
      reads this
    {
      Distinct(connections)
    }

    constructor ()
      ensures Valid() && connections == [] && log == []
    {
      connections := [];
      log := [];
    }

    /** connect: an accepted session joins the end of the registry. */
    method Connect(c: ConnId)
      requires Valid()
      requires c !in connections   // a session is accepted once
      modifies this
      ensures Valid()
      ensures connections == old(connections) + [c] && log == old(log)
    {
      connections := connections + [c];
    }

    /** disconnect: `list.remove`, which fails when the session is not registered. */
    method Disconnect(c: ConnId) returns (ok: bool)
      requires Valid()
      modifies this
      ensures Valid() && log == old(log)
      ensures ok <==> c in old(connections)
      ensures ok ==> connections == RemoveFirst(old(connections), c) && c !in connections
      ensures !ok ==> connections == old(connections)
      ensures forall x :: x != c ==> (x in connections <==> x in old(connections))
    {
      ok := c in connections;
      if ok {
        RemoveFirstDistinct(connections, c);
        connections := RemoveFirst(connections, c);
      }
    }

    /**
     * broadcast: try every registered session in order. A failing send is
     * swallowed; it neither stops later sends nor unregisters the session.
     */
    method Broadcast(ev: Event, failing: set<ConnId>)
      modifies this`log
      ensures log == old(log) + Deliveries(connections, ev, failing)
    {
      var conns, start := connections, log;
      var i := 0;
      while i < |conns|
        invariant 0 <= i <= |conns|
        invariant log == start + Deliveries(conns[..i], ev, failing)
      {
        var c := conns[i];
        var d := Delivery(c, ev, c !in failing);
        DeliveriesSnoc(conns[..i], c, ev, failing);
        assert conns[..i + 1] == conns[..i] + [c];
        assert start + Deliveries(conns[..i + 1], ev, failing) == log + [d];
        log := log + [d];
        i := i + 1;
      }
      assert conns[..i] == conns;
    }
  }

  // ---------------------------------------------------------------------
  // The relay
  // ---------------------------------------------------------------------

  class Server {
    /** API_SECRET; None when it is not configured. */
    const secret: Option<string>
    const manager: ConnectionManager
    /** system_state["armed"] */
    var armed: bool
    /** clipboard_history, oldest first */
    var history: seq<ClipItem>
    /** names of the files in the upload directory */
    var files: set<string>
    /** every clip id handed out so far */
    ghost var usedIds: set<string>
    /** the stored files of evicted image clips */
    ghost var evictedFiles: set<string>

    ghost predicate Valid()
      reads this, manager
    {
      manager.Valid() && StoreValid(history, files, usedIds, evictedFiles)
    }

    /** A fresh relay: disarmed, empty history, no sessions; `stored` is what the upload directory already holds. */
    constructor (secret: Option<string>, stored: set<string>)
      ensures Valid() && fresh(manager)
      ensures this.secret == secret && !armed && history == [] && files == stored
      ensures manager.connections == [] && manager.log == [] && usedIds == {}
    {
      this.secret := secret;
      manager := new ConnectionManager();
      armed := false;
      history := [];
      files := stored;
      usedIds := {};
      evictedFiles := {};
    }

    /** GET /status */
    function GetStatus(key: Option<string>): (r: Response<SystemStatus>)
      reads this, manager
      ensures r.Err? <==> key != secret
      ensures r.Err? ==> r.error == Unauthorized
      ensures r.Ok? ==> r.value.armed == armed && r.value.itemCount == |history|
                        && r.value.connectedClients == |manager.connections|
    {
      if VerifyToken(key, secret).Err? then Err(Unauthorized)
      else Ok(SystemStatus(armed, |history|, |manager.connections|))
    }

    /** GET /latest: the newest clip, 404 on an empty history. */
    function GetLatest(key: Option<string>): (r: Response<ClipItem>)
      reads this
      ensures key != secret ==> r == Err(Unauthorized)
      ensures key == secret ==> (r == Err(NotFound) <==> history == [])
      ensures r.Ok? ==> key == secret && history != [] && r.value == history[|history| - 1]
      ensures key == secret && history != [] ==> r == Ok(history[|history| - 1])
    {
      if VerifyToken(key, secret).Err? then Err(Unauthorized)
      else if history == [] then Err(NotFound)
      else Ok(history[|history| - 1])
    }

    /** POST /arm */
    method Arm(key: Option<string>, failing: set<ConnId>) returns (r: Response<string>)
      requires Valid()
      modifies this, manager
      ensures Valid()
      ensures key != secret ==> r == Err(Unauthorized) && armed == old(armed) && manager.log == old(manager.log)
      ensures key == secret ==>
                r == Ok("System ARMED.") && armed &&
                manager.log == old(manager.log) + Deliveries(manager.connections, SystemArmed, failing)
      ensures history == old(history) && files == old(files) && manager.connections == old(manager.connections)
      ensures usedIds == old(usedIds) && evictedFiles == old(evictedFiles)
    {
      if VerifyToken(key, secret).Err? {
        return Err(Unauthorized);
      }
      armed := true;
      manager.Broadcast(SystemArmed, failing);
      r := Ok("System ARMED.");
    }

    /** POST /disarm */
    method Disarm(key: Option<string>, failing: set<ConnId>) returns (r: Response<string>)
      requires Valid()
      modifies this, manager
      ensures Valid()
      ensures key != secret ==> r == Err(Unauthorized) && armed == old(armed) && manager.log == old(manager.log)
      ensures key == secret ==>
                r == Ok("System DISARMED.") && !armed &&
                manager.log == old(manager.log) + Deliveries(manager.connections, SystemDisarmed, failing)
      ensures history == old(history) && files == old(files) && manager.connections == old(manager.connections)
      ensures usedIds == old(usedIds) && evictedFiles == old(evictedFiles)
    {
      if VerifyToken(key, secret).Err? {
        return Err(Unauthorized);
      }
      armed := false;
      manager.Broadcast(SystemDisarmed, failing);
      r := Ok("System DISARMED.");
    }

    /**
     * POST /upload. Refused with 403 while disarmed and with 400 when there
     * is neither an image file nor content; both leave everything as it was
     * (a 400 leaves the relay armed). An accepted upload stores the image
     * file, appends the item, evicts the oldest item past capacity together
     * with its image file, disarms, and broadcasts `system_disarmed` and
     * then `new_clip`.
     */
    method Upload(key: Option<string>, file: Option<UploadFile>, content: Option<string>, typ: string,
                  clipId: string, timestamp: string, failing: set<ConnId>) returns (r: Response<ClipItem>)
      requires Valid()
      requires clipId !in usedIds   // uuid4 is fresh
      modifies this, manager
      ensures Valid()
      ensures manager.connections == old(manager.connections)
      ensures key != secret ==> r == Err(Unauthorized)
      ensures key == secret && !old(armed) ==> r == Err(Forbidden)
      ensures key == secret && old(armed) && NewItem(file, content, typ, clipId, timestamp).None? ==> r == Err(BadRequest)
      ensures key == secret && old(armed) && NewItem(file, content, typ, clipId, timestamp).Some? ==>
                r == Ok(NewItem(file, content, typ, clipId, timestamp).value)
      ensures r.Err? ==> armed == old(armed) && history == old(history) && files == old(files)
                         && manager.log == old(manager.log) && usedIds == old(usedIds)
      ensures r.Ok? ==> !armed
      ensures r.Ok? ==> history == Admit(old(history), r.value)
      ensures r.Ok? ==> files == FilesAfter(old(files), old(history), r.value) && usedIds == old(usedIds) + {clipId}
      ensures r.Ok? ==> manager.log == old(manager.log) + Deliveries(manager.connections, SystemDisarmed, failing)
                                      + Deliveries(manager.connections, NewClip(r.value), failing)
      ensures r.Ok? ==> GetLatest(key) == Ok(r.value)
    {
      if VerifyToken(key, secret).Err? {
        return Err(Unauthorized);
      }
      if !armed {
        return Err(Forbidden);
      }
      var built := NewItem(file, content, typ, clipId, timestamp);
      if built.None? {
        return Err(BadRequest);
      }
      var item := built.value;
      if item.kind == Image {
        StemOfFileName(clipId, Extension(file.value.filename));
      }
      Accept(item, failing);
      r := Ok(item);
    }

    /**
     * The accepted path of an upload: store the item, disarm (one shot),
     * then tell every session `system_disarmed` followed by `new_clip`.
     */
    method Accept(item: ClipItem, failing: set<ConnId>)
      requires Valid()
      requires item.id !in usedIds
      requires item.kind == Image ==> StemOf(item.content) == item.id
      modifies this, manager
      ensures Valid() && !armed
      ensures history == Admit(old(history), item)
      ensures files == FilesAfter(old(files), old(history), item) && usedIds == old(usedIds) + {item.id}
      ensures ImageFiles(Some(item)) <= files && ImageFiles(Evicted(old(history), item)) !! files
      ensures manager.connections == old(manager.connections)
      ensures manager.log == old(manager.log) + Deliveries(manager.connections, SystemDisarmed, failing)
                             + Deliveries(manager.connections, NewClip(item), failing)
      ensures forall c :: c in manager.connections ==>
                Received(manager.log, c) == Received(old(manager.log), c) + (if c in failing then [] else [SystemDisarmed, NewClip(item)])
    {
      StoreItem(item);
      armed := false;
      NotifyUpload(item, failing);
    }

    /** Write the new image file, append the item, evict the oldest past capacity with its image file. */
    method StoreItem(item: ClipItem)
      requires Valid()
      requires item.id !in usedIds
      requires item.kind == Image ==> StemOf(item.content) == item.id
      modifies this
      ensures Valid() && armed == old(armed)
      ensures history == Admit(old(history), item)
      ensures files == FilesAfter(old(files), old(history), item) && usedIds == old(usedIds) + {item.id}
      ensures ImageFiles(Some(item)) <= files && ImageFiles(Evicted(old(history), item)) !! files
    {
      AdmitKeepsStore(history, files, usedIds, evictedFiles, item);
      var stored := files;
      if item.kind == Image {
        stored := stored + {item.content};    // the new image file is written
      }
      var h := history + [item];
      if |h| > MaxHistory {
        var popped := h[0];
        h := h[1..];
        if popped.kind == Image {
          stored := stored - {popped.content};  // the evicted image file is removed
        }
      }
      assert h == Admit(history, item);
      assert stored == FilesAfter(files, history, item);
      evictedFiles := evictedFiles + ImageFiles(Evicted(history, item));
      history, files, usedIds := h, stored, usedIds + {item.id};
    }

    /** The two broadcasts of an accepted upload: `system_disarmed`, then `new_clip`. */
    method NotifyUpload(item: ClipItem, failing: set<ConnId>)
      requires manager.Valid()
      modifies manager
      ensures manager.connections == old(manager.connections)
      ensures manager.log == old(manager.log) + Deliveries(manager.connections, SystemDisarmed, failing)
                             + Deliveries(manager.connections, NewClip(item), failing)
      ensures forall c :: c in manager.connections ==>
                Received(manager.log, c) == Received(old(manager.log), c) + (if c in failing then [] else [SystemDisarmed, NewClip(item)])
    {
      manager.Broadcast(SystemDisarmed, failing);
      manager.Broadcast(NewClip(item), failing);
      forall c | c in manager.connections
        ensures Received(manager.log, c) == Received(old(manager.log), c) + (if c in failing then [] else [SystemDisarmed, NewClip(item)])
      {
        UploadNotification(old(manager.log), manager.connections, item, failing, c);
      }
    }

    /** The token check of websocket_endpoint, then connect. */
    method OpenSession(c: ConnId, token: Option<string>) returns (h: Handshake)
      requires Valid()
      requires c !in manager.connections
      modifies manager
      ensures Valid() && manager.log == old(manager.log)
      ensures h == Accepted <==> token == secret
      ensures h != Accepted ==> h == Closed(PolicyViolation) && manager.connections == old(manager.connections)
      ensures h == Accepted ==> manager.connections == old(manager.connections) + [c]
    {
      if token != secret {
        return Closed(PolicyViolation);
      }
      manager.Connect(c);
      h := Accepted;
    }

    /** A registered session's receive loop ended: unregister it. */
    method CloseSession(c: ConnId)
      requires Valid()
      requires c in manager.connections
      modifies manager
      ensures Valid() && manager.log == old(manager.log)
      ensures manager.connections == RemoveFirst(old(manager.connections), c) && c !in manager.connections
    {
      var ok := manager.Disconnect(c);
    }
  }

  /**
   * Three sessions, the second of which fails to receive: the first and
   * the third still get the event, and all three stay registered.
   */
  method BroadcastIsolation(ev: Event) returns (first: seq<Event>, second: seq<Event>, third: seq<Event>, after: seq<ConnId>)
    ensures first == [ev] && second == [] && third == [ev]
    ensures after == [1, 2, 3]
  {
    var m := new ConnectionManager();
    m.Connect(1);
    m.Connect(2);
    m.Connect(3);
    assert m.connections == [1, 2, 3] && m.log == [];
    m.Broadcast(ev, {2});
    assert m.log == Deliveries([1, 2, 3], ev, {2});
    ReceivedBroadcast([1, 2, 3], ev, {2}, 1);
    ReceivedBroadcast([1, 2, 3], ev, {2}, 2);
    ReceivedBroadcast([1, 2, 3], ev, {2}, 3);
    first, second, third := Received(m.log, 1), Received(m.log, 2), Received(m.log, 3);
    after := m.connections;
  }

  /**
   * The arming scenario of test_security.py: an upload while disarmed gets
   * 403, an upload after arming gets 200, and an immediate second upload
   * gets 403 again.
   */
  method SecurityScenario(token: string) returns (first: Response<ClipItem>, second: Response<ClipItem>, third: Response<ClipItem>)
    ensures first == Err(Forbidden) && first.error.Code() == 403
    ensures second.Ok? && second.value.kind == Text && second.value.content == "Should Succeed"
    ensures third == Err(Forbidden)
  {
    var relay := new Server(Some(token), {});
    var key := Some(token);
    var _ := relay.Disarm(key, {});
    first := relay.Upload(key, None, Some("Should Fail"), "text", "clip-1", "t1", {});
    var _ := relay.Arm(key, {});
    second := relay.Upload(key, None, Some("Should Succeed"), "text", "clip-2", "t2", {});
    assert relay.history == [second.value];
    third := relay.Upload(key, None, Some("Should Fail 2"), "text", "clip-3", "t3", {});
  }
}
