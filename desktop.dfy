/**
 * The desktop sync agent (desktop_gui.py, class CrossBoardApp): the same
 * poll loop and remote apply as the command-line agent, its own change
 * comparison, and an armed indicator driven by the push channel and by
 * polling GET /status. Window layout and the activity log are not modelled.
 */
module Desktop {
  import opened Protocol
  import opened Clipboard
  import Relay

  /** The comparison in CrossBoardApp.monitor_loop, which has no explicit branch for a clear. */
  predicate ChangedDesktop(opts: Option<Snapshot>, last: Option<Snapshot>)
    ensures ChangedDesktop(opts, last) <==> IsLocalChange(opts, last)
  {
    if opts.Some? && last.None? then true
    else if opts.Some? && last.Some? then
      if opts.value.kind != last.value.kind then true
      else opts.value.content != last.value.content
    else false
  }

  class CrossBoardApp {
    /** The last snapshot seen or written locally. */
    var lastContent: Option<Snapshot>
    /** Set while a remote clip is being applied; the poll loop skips its ticks. */
    var paused: bool
    /** The uploads the poll loop has sent, in order, whatever their replies. */
    var uploads: seq<Snapshot>
    /** The status label: true shows "SYSTEM ARMED", false "System Disarmed". */
    var armedIndicator: bool

    constructor ()
      ensures lastContent == None && !paused && uploads == [] && !armedIndicator
    {
      lastContent := None;
      paused := false;
      uploads := [];
      armedIndicator := false;
    }

    /** update_ui_status. */
    method UpdateUiStatus(armed: bool)
      modifies this`armedIndicator
      ensures armedIndicator == armed
    {
      armedIndicator := armed;
    }

    /**
     * fetch_status against the relay: a reachable relay that accepts the
     * key sets the indicator to its armed flag; an unreachable relay or a
     * rejected key leaves the indicator as it was.
     */
    method FetchStatus(server: Relay.Server, key: Option<string>, reachable: bool)
      modifies this`armedIndicator
      ensures reachable && key == server.secret ==> armedIndicator == server.armed
      ensures !(reachable && key == server.secret) ==> armedIndicator == old(armedIndicator)
    {
      if reachable {
        var res := server.GetStatus(key);
        if res.Ok? {
          UpdateUiStatus(res.value.armed);
        }
      }
    }

    /** monitor_loop's start: the snapshot is whatever the clipboard holds. */
    method Start(v: ClipboardView)
      modifies this`lastContent
      ensures lastContent == Sample(v)
    {
      lastContent := Sample(v);
    }

    /**
     * One pass of the poll loop with its lock regions run back to back, as
     * if the lock were held for the whole pass: skipped while paused;
     * otherwise a local change replaces the snapshot before it is uploaded,
     * so a failed upload is not retried.
     */
    method Tick(v: ClipboardView, reply: UploadReply) returns (o: TickOutcome)
      modifies this`lastContent, this`uploads
      ensures paused ==> o == Skipped && lastContent == old(lastContent) && uploads == old(uploads)
      ensures !paused && !IsLocalChange(Sample(v), old(lastContent)) ==>
                o == NoChange && lastContent == old(lastContent) && uploads == old(uploads)
      ensures !paused && IsLocalChange(Sample(v), old(lastContent)) ==>
                && o == UploadOutcome(reply)
                && lastContent == Sample(v)
                && uploads == old(uploads) + [Sample(v).value]
    {
      var proceed, opts := TickBegin(v);
      if !proceed {
        return Skipped;
      }
      o := TickFinish(opts, reply);
    }

    /**
     * The first part of a pass as written: the pause check under the lock,
     * then the sample with the lock released. Nothing changes.
     */
    method TickBegin(v: ClipboardView) returns (proceed: bool, opts: Option<Snapshot>)
      ensures proceed <==> !paused
      ensures opts == if proceed then Sample(v) else None
    {
      if paused {
        return false, None;
      }
      return true, Sample(v);
    }

    /**
     * The rest of a pass as written: the sample taken earlier is compared with
     * the snapshot as it is now, without checking the pause again, and on a
     * change it is recorded and uploaded.
     */
    method TickFinish(opts: Option<Snapshot>, reply: UploadReply) returns (o: TickOutcome)
      modifies this`lastContent, this`uploads
      ensures !IsLocalChange(opts, old(lastContent)) ==>
                o == NoChange && lastContent == old(lastContent) && uploads == old(uploads)
      ensures IsLocalChange(opts, old(lastContent)) ==>
                && o == UploadOutcome(reply)
                && lastContent == opts
                && uploads == old(uploads) + [opts.value]
    {
      if ChangedDesktop(opts, lastContent) {
        lastContent := opts;
        uploads := uploads + [opts.value];
        o := UploadOutcome(reply);
      } else {
        o := NoChange;
      }
    }

    /**
     * A pass as written with a remote apply landing in its open window: the
     * pass samples `v`, `item` is applied before the pass compares, and the
     * apply's `finally` resumes the loop after the pass has finished.
     */
    method TickRacingApply(v: ClipboardView, item: ClipItem, env: ApplyEnv, reply: UploadReply)
      returns (o: TickOutcome)
      requires !paused
      modifies this`lastContent, this`uploads, this`paused
      ensures var applied := Applied(old(lastContent), item, env);
              if IsLocalChange(Sample(v), applied) then
                && o == UploadOutcome(reply)
                && lastContent == Sample(v)
                && uploads == old(uploads) + [Sample(v).value]
              else
                o == NoChange && lastContent == applied && uploads == old(uploads)
      ensures !paused
    {
      var proceed, opts := TickBegin(v);
      BeginApply();
      ApplyClip(item, env);
      o := TickFinish(opts, reply);
      EndApply();
    }

    /** set_clipboard_content's first step: pause the poll loop. */
    method BeginApply()
      modifies this`paused
      ensures paused
    {
      paused := true;
    }

    /** Writing the clip to the clipboard and, if that succeeded, to the snapshot. */
    method ApplyClip(item: ClipItem, env: ApplyEnv)
      modifies this`lastContent
      ensures lastContent == Applied(old(lastContent), item, env)
    {
      match item.kind
      case Text =>
        if env.writeOk {
          lastContent := Some(Snapshot(Text, Chars(item.content)));
        }
      case Image =>
        if env.downloadStatus == 200 && env.writeOk {
          lastContent := Some(Snapshot(Image, Bytes(env.png)));
        }
    }

    /** set_clipboard_content's `finally`: resume the poll loop, whatever happened. */
    method EndApply()
      modifies this`paused
      ensures !paused
    {
      paused := false;
    }

    /** set_clipboard_content, run without a tick in between. */
    method SetClipboardContent(item: ClipItem, env: ApplyEnv)
      modifies this`paused, this`lastContent
      ensures lastContent == Applied(old(lastContent), item, env)
      ensures !paused
      ensures uploads == old(uploads) && armedIndicator == old(armedIndicator)
    {
      BeginApply();
      ApplyClip(item, env);
      EndApply();
    }

    /** on_message: a new clip is applied; arm and disarm events drive the indicator. */
    method OnMessage(ev: Event, env: ApplyEnv)
      modifies this`paused, this`lastContent, this`armedIndicator
      ensures ev.NewClip? ==>
                && lastContent == Applied(old(lastContent), ev.item, env) && !paused
                && armedIndicator == old(armedIndicator)
      ensures ev == SystemArmed ==> armedIndicator
      ensures ev == SystemDisarmed ==> !armedIndicator
      ensures !ev.NewClip? ==> lastContent == old(lastContent) && paused == old(paused)
      ensures ev.Other? ==> armedIndicator == old(armedIndicator)
      ensures uploads == old(uploads)
    {
      match ev
      case NewClip(item) => SetClipboardContent(item, env);
      case SystemArmed => UpdateUiStatus(true);
      case SystemDisarmed => UpdateUiStatus(false);
      case Other(_) =>
    }

    /**
     * monitor_loop over a finite run of clipboard views, one upload reply
     * per view: the snapshot and the uploads are those of the reference
     * policy `Track`/`Detect` over the samples.
     */
    method MonitorLoop(initial: ClipboardView, views: seq<ClipboardView>, replies: seq<UploadReply>)
      returns (outcomes: seq<TickOutcome>)
      requires |replies| == |views|
      modifies this`lastContent, this`uploads
      ensures |outcomes| == |views|
      ensures paused ==>
                && lastContent == Sample(initial) && uploads == old(uploads)
                && forall k :: 0 <= k < |views| ==> outcomes[k] == Skipped
      ensures !paused ==>
                && lastContent == Track(Sample(initial), Samples(views))
                && uploads == old(uploads) + Detect(Sample(initial), Samples(views))
                && forall k :: 0 <= k < |views| ==>
                     outcomes[k] == ExpectedOutcome(Sample(initial), Samples(views), replies, k)
    {
      Start(initial);
      if paused {
        outcomes := SkipTicks(views, replies);
      } else {
        outcomes := RunTicks(views, replies);
      }
    }

    /** Ticks while an apply holds the pause: each one is skipped. */
    method SkipTicks(views: seq<ClipboardView>, replies: seq<UploadReply>) returns (outcomes: seq<TickOutcome>)
      requires |replies| == |views|
      requires paused
      modifies this`lastContent, this`uploads
      ensures lastContent == old(lastContent) && uploads == old(uploads)
      ensures |outcomes| == |views| && forall k :: 0 <= k < |views| ==> outcomes[k] == Skipped
    {
      outcomes := [];
      var i := 0;
      while i < |views|
        invariant 0 <= i <= |views|
        invariant |outcomes| == i
        invariant lastContent == old(lastContent) && uploads == old(uploads)
        invariant forall k :: 0 <= k < i ==> outcomes[k] == Skipped
      {
        var o := Tick(views[i], replies[i]);
        outcomes := outcomes + [o];
        i := i + 1;
      }
    }

    /** Ticks with no apply in progress, from the current snapshot. */
    method RunTicks(views: seq<ClipboardView>, replies: seq<UploadReply>) returns (outcomes: seq<TickOutcome>)
      requires |replies| == |views|
      requires !paused
      modifies this`lastContent, this`uploads
      ensures lastContent == Track(old(lastContent), Samples(views))
      ensures uploads == old(uploads) + Detect(old(lastContent), Samples(views))
      ensures |outcomes| == |views|
      ensures forall k :: 0 <= k < |views| ==> outcomes[k] == ExpectedOutcome(old(lastContent), Samples(views), replies, k)
    {
      ghost var init := lastContent;
      ghost var ss := Samples(views);
      outcomes := [];
      var i := 0;
      while i < |views|
        invariant 0 <= i <= |views|
        invariant |outcomes| == i
        invariant lastContent == Track(init, ss[..i])
        invariant uploads == old(uploads) + Detect(init, ss[..i])
        invariant forall k :: 0 <= k < i ==> outcomes[k] == ExpectedOutcome(init, ss, replies, k)
      {
        TrackStep(init, ss, i);
        var o := Tick(views[i], replies[i]);
        assert o == ExpectedOutcome(init, ss, replies, i);
        outcomes := outcomes + [o];
        i := i + 1;
      }
      assert ss[..i] == ss;
    }
  }

  /**
   * A relay arm with the desktop's session `c` registered: the event the
   * relay delivers to `c` makes the indicator show the relay armed, and
   * polling the status keeps it so.
   */
  method ArmedIndicatorFollowsRelay(secret: string, c: Relay.ConnId, failing: set<Relay.ConnId>)
    returns (shown: bool, polled: bool)
    requires c !in failing
    ensures shown && polled
  {
    var server := new Relay.Server(Some(secret), {});
    var app := new CrossBoardApp();
    var h := server.OpenSession(c, Some(secret));
    assert server.manager.connections == [c] && server.manager.log == [];
    var r := server.Arm(Some(secret), failing);
    assert server.manager.log == Relay.Deliveries([c], SystemArmed, failing);
    assert Relay.Distinct([c]);
    Relay.ReceivedBroadcast([c], SystemArmed, failing, c);
    var pushed := Relay.Received(server.manager.log, c);
    assert pushed == [SystemArmed];
    app.OnMessage(pushed[0], ApplyEnv(false, 0, []));
    shown := app.armedIndicator;
    app.FetchStatus(server, Some(secret), true);
    polled := app.armedIndicator;
  }

  /**
   * The window the lock regions of a pass leave open. The clipboard is
   * empty at start; a pass samples the local view `v`, the remote text clip
   * `item` is applied before the pass compares, so the stale sample is
   * recorded and uploaded; the next pass then samples the applied text `w`,
   * finds it changed and sends the remote clip back to the relay.
   */
  method EchoRace(start: ClipboardView, v: ClipboardView, item: ClipItem, w: ClipboardView, reply: UploadReply)
    returns (sent: seq<Snapshot>)
    requires Sample(start) == None && Sample(v).Some?
    requires item.kind == Text && Sample(w) == Some(Snapshot(Text, Chars(item.content)))
    requires Sample(v) != Sample(w)
    ensures sent == [Sample(v).value, Sample(w).value]
  {
    var app := new CrossBoardApp();
    app.Start(start);
    assert app.lastContent == None && !app.paused && app.uploads == [];
    assert Applied(app.lastContent, item, ApplyEnv(true, 0, [])) == Sample(w);
    var first := app.TickRacingApply(v, item, ApplyEnv(true, 0, []), reply);
    assert app.lastContent == Sample(v) && app.uploads == [Sample(v).value];
    assert IsLocalChange(Sample(w), app.lastContent);
    var second := app.Tick(w, reply);
    sent := app.uploads;
  }

  /**
   * The same inputs with the pass run under one lock: the apply waits for
   * the pass, and the pass after the apply finds no change, so only the
   * local view is uploaded.
   */
  method EchoRaceLocked(start: ClipboardView, v: ClipboardView, item: ClipItem, w: ClipboardView, reply: UploadReply)
    returns (sent: seq<Snapshot>)
    requires Sample(start) == None && Sample(v).Some?
    requires item.kind == Text && Sample(w) == Some(Snapshot(Text, Chars(item.content)))
    requires Sample(v) != Sample(w)
    ensures sent == [Sample(v).value]
  {
    var app := new CrossBoardApp();
    app.Start(start);
    assert app.lastContent == None && !app.paused && app.uploads == [];
    assert IsLocalChange(Sample(v), app.lastContent);
    var first := app.Tick(v, reply);
    assert app.uploads == [Sample(v).value];
    app.SetClipboardContent(item, ApplyEnv(true, 0, []));
    assert app.lastContent == Sample(w);
    var second := app.Tick(w, reply);
    sent := app.uploads;
  }
}
