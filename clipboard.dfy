/**
 * Client-side logic shared by both sync agents (client.py and
 * desktop_gui.py): the clipboard sample and its selection policy, the
 * effect of applying a remote clip on the local snapshot, and how an upload
 * reply is reported by the poll loop.
 *
 * The platform clipboard is an opaque `ClipboardView`; image codecs are
 * out of the model, so an image is the PNG byte string the codec produced.
 */
module Clipboard {
  import opened Protocol
  import Relay

  newtype byte = x: int | 0 <= x < 256

  /** The `content` of a sample: text, or PNG bytes. */
  datatype Payload = Chars(text: string) | Bytes(data: seq<byte>)

  /** A sample or the local snapshot `last_content`: `{"type": kind, "content": content}`. */
  datatype Snapshot = Snapshot(kind: Kind, content: Payload)

  /** A text snapshot holds characters and an image snapshot holds bytes. */
  predicate WellFormed(s: Snapshot)
  {
    s.kind == Text <==> s.content.Chars?
  }

  /**
   * What the platform clipboard offers at one instant: the PNG encoding of
   * its image and its text, each if present; or a clipboard that could not
   * be read (the provider raised).
   */
  datatype ClipboardView = Unreadable | Readable(image: Option<seq<byte>>, text: Option<string>)

  // ---------------------------------------------------------------------
  // Whitespace and str.strip()
  // ---------------------------------------------------------------------

  /** Python's `str.isspace` for one character. */
  predicate IsSpace(c: char)
  {
    || ('\t' <= c <= '\r')
    || ('\U{1C}' <= c <= '\U{1F}')
    || c == ' ' || c == '\U{85}' || c == '\U{A0}' || c == '\U{1680}'
    || ('\U{2000}' <= c <= '\U{200A}')
    || c == '\U{2028}' || c == '\U{2029}' || c == '\U{202F}' || c == '\U{205F}' || c == '\U{3000}'
  }

  /** The ASCII blanks are whitespace; no letter, digit or `_` is. */
  lemma SpaceClasses(c: char)
    ensures c in " \t\n\r\U{0B}\U{0C}" ==> IsSpace(c)
    ensures '0' <= c <= '9' || 'A' <= c <= 'Z' || 'a' <= c <= 'z' || c == '_' ==> !IsSpace(c)
  {
  }

  predicate IsBlank(t: string)
  {
    forall k :: 0 <= k < |t| ==> IsSpace(t[k])
  }

  /** `t` without its leading whitespace. */
  function StripLeft(t: string): (r: string)
    ensures |r| <= |t| && r == t[|t| - |r|..]
    ensures IsBlank(t[..|t| - |r|])
    ensures r == [] || !IsSpace(r[0])
    ensures r == [] <==> IsBlank(t)
    decreases |t|
  {
    if t != [] && IsSpace(t[0]) then
      var r := StripLeft(t[1..]);
      assert t[..|t| - |r|] == [t[0]] + t[1..][..|t| - 1 - |r|];
      r
    else t
  }

  /** `t` without its trailing whitespace. */
  function StripRight(t: string): (r: string)
    ensures |r| <= |t| && r == t[..|r|]
    ensures IsBlank(t[|r|..])
    ensures r == [] || !IsSpace(r[|r| - 1])
    ensures r == [] <==> IsBlank(t)
    decreases |t|
  {
    if t != [] && IsSpace(t[|t| - 1]) then
      var r := StripRight(t[..|t| - 1]);
      assert t[|r|..] == t[..|t| - 1][|r|..] + [t[|t| - 1]];
      r
    else t
  }

  /**
   * Python's `str.strip()`: the text with its leading and trailing
   * whitespace cut off; neither end of the result is whitespace, and it
   * is empty exactly when the text is whitespace only.
   */
  function Strip(t: string): (r: string)
    ensures |r| <= |t|
    ensures |t| - |StripLeft(t)| + |r| <= |t|
    ensures r == t[|t| - |StripLeft(t)|..][..|r|]
    ensures IsBlank(t[..|t| - |StripLeft(t)|]) && IsBlank(t[|t| - |StripLeft(t)|..][|r|..])
    ensures r == [] || (!IsSpace(r[0]) && !IsSpace(r[|r| - 1]))
    ensures r == [] <==> IsBlank(t)
  {
    var l := StripLeft(t);
    assert l == [] || !IsSpace(l[0]);
    StripRight(l)
  }

  // ---------------------------------------------------------------------
  // The sampler (client.py:28-43, desktop_gui.py:117-150)
  // ---------------------------------------------------------------------

  /**
   * get_clipboard_content: an image wins over text; text counts only when
   * it is non-empty and not whitespace only (the `strip()` test, written
   * with IsBlank; SampleStripsText ties the two); an unreadable clipboard
   * gives nothing.
   */
  function Sample(v: ClipboardView): (r: Option<Snapshot>)
    ensures (r.Some? && r.value.kind == Image) <==> (v.Readable? && v.image.Some?)
    ensures r.Some? && r.value.kind == Image ==> r.value.content == Bytes(v.image.value)
    ensures (r.Some? && r.value.kind == Text) <==>
              (v.Readable? && v.image.None? && v.text.Some? && !IsBlank(v.text.value))
    ensures r.Some? && r.value.kind == Text ==> r.value.content == Chars(v.text.value)
    ensures r.Some? ==> WellFormed(r.value)
  {
    match v
    case Unreadable => None
    case Readable(image, text) =>
      if image.Some? then Some(Snapshot(Image, Bytes(image.value)))
      else if text.None? then None
      else
        if text.value != "" && !IsBlank(text.value) then Some(Snapshot(Text, Chars(text.value)))
        else None
  }

  /** Text is sampled exactly when it is non-empty and its `strip()` is non-empty. */
  lemma SampleStripsText(t: string)
    ensures Sample(Readable(None, Some(t))).Some? <==> (t != "" && Strip(t) != "")
    ensures Sample(Readable(None, Some(t))).Some? ==> Sample(Readable(None, Some(t))) == Some(Snapshot(Text, Chars(t)))
  {
  }

  /** A whitespace-only text clipboard yields nothing, even though it is not empty. */
  lemma BlankTextIsNothing(t: string)
    requires IsBlank(t)
    ensures Sample(Readable(None, Some(t))) == None
  {
  }

  /** With both an image and text on the clipboard, the image is sampled. */
  lemma ImageBeatsText(png: seq<byte>, t: string)
    ensures Sample(Readable(Some(png), Some(t))) == Some(Snapshot(Image, Bytes(png)))
  {
  }

  // ---------------------------------------------------------------------
  // Applying a remote clip (client.py:45-94, desktop_gui.py:152-188)
  // ---------------------------------------------------------------------

  /**
   * The environment of one remote apply: whether the clipboard write (and
   * for an image, decoding it) raised nothing, the status of the image
   * download, and the PNG re-encoding of the downloaded image.
   */
  datatype ApplyEnv = ApplyEnv(writeOk: bool, downloadStatus: int, png: seq<byte>)

  /** What a remote apply leaves in the local snapshot. */
  function Applied(last: Option<Snapshot>, item: ClipItem, env: ApplyEnv): (r: Option<Snapshot>)
    ensures env.writeOk && item.kind == Text ==> r == Some(Snapshot(Text, Chars(item.content)))
    ensures env.writeOk && item.kind == Image && env.downloadStatus == 200 ==> r == Some(Snapshot(Image, Bytes(env.png)))
    ensures !env.writeOk ==> r == last
    ensures r == last || r.Some?
    ensures r != last ==> env.writeOk && r.value.kind == item.kind
    ensures item.kind == Image && env.downloadStatus != 200 ==> r == last
  {
    match item.kind
    case Text =>
      if env.writeOk then Some(Snapshot(Text, Chars(item.content))) else last
    case Image =>
      if env.downloadStatus == 200 && env.writeOk then Some(Snapshot(Image, Bytes(env.png))) else last
  }

  // ---------------------------------------------------------------------
  // Upload replies as the poll loop reports them
  // ---------------------------------------------------------------------

  /** The reply to an upload: an HTTP status, or a transport failure. */
  datatype UploadReply = Status(code: int) | TransportError

  /** What one poll tick did. */
  datatype TickOutcome =
    | Skipped             // paused: the tick did nothing
    | NoChange            // the sample is not a local change
    | Uploaded            // the change was uploaded
    | Disarmed            // 403: the relay is disarmed; the change is dropped
    | HttpFailure(code: int)
    | Failed              // any other exception

  /** `raise_for_status` plus the handlers: 4xx/5xx are errors, 403 is reported on its own. */
  function UploadOutcome(reply: UploadReply): (o: TickOutcome)
    ensures o == Disarmed <==> reply == Status(403)
    ensures o == Uploaded <==> reply.Status? && !(400 <= reply.code < 600)
    ensures o.HttpFailure? <==> reply.Status? && 400 <= reply.code < 600 && reply.code != 403
    ensures o == Failed <==> reply == TransportError
  {
    match reply
    case TransportError => Failed
    case Status(code) =>
      if 400 <= code < 600 then (if code == 403 then Disarmed else HttpFailure(code))
      else Uploaded
  }

  // ---------------------------------------------------------------------
  // The upload a local change causes (client.py:133-147, desktop_gui.py:217-231)
  // ---------------------------------------------------------------------

  /** The form fields of POST /upload: the file part, the `content` field and the `type` field. */
  datatype UploadForm = UploadForm(file: Option<Relay.UploadFile>, content: Option<string>, typ: string)

  /** Text goes as the `content` field; an image as the file part "clipboard.png". */
  function UploadRequest(s: Snapshot): (f: UploadForm)
    requires WellFormed(s)
    ensures f.typ == "text" <==> s.kind == Text
    ensures s.kind == Text ==> f.file.None? && f.content == Some(s.content.text)
    ensures s.kind == Image ==> f.typ == "image"
    ensures s.kind == Image ==> f.file == Some(Relay.UploadFile(Some("clipboard.png"))) && f.content.None?
  {
    match s.kind
    case Text => UploadForm(None, Some(s.content.text), "text")
    case Image => UploadForm(Some(Relay.UploadFile(Some("clipboard.png"))), None, "image")
  }

  /**
   * The relay never rejects an agent's upload as malformed: every sample
   * makes an item of the same kind, text verbatim, an image stored as
   * "<id>.png".
   */
  lemma SampledUploadsAccepted(v: ClipboardView, clipId: string, timestamp: string)
    requires Sample(v).Some?
    ensures var s := Sample(v).value;
            var f := UploadRequest(s);
            var r := Relay.NewItem(f.file, f.content, f.typ, clipId, timestamp);
            && r.Some?
            && r.value.kind == s.kind
            && (s.kind == Text ==> Chars(r.value.content) == s.content)
            && (s.kind == Image ==> r.value.content == clipId + ".png")
  {
    var s := Sample(v).value;
    if s.kind == Image {
      var e := Relay.Extension(Some("clipboard.png"));
      assert e == "png";
    }
  }

  // ---------------------------------------------------------------------
  // Change detection, the policy both poll loops follow
  // ---------------------------------------------------------------------

  /** A local change: there is a sample and it differs from the snapshot. A clear is never one. */
  predicate IsLocalChange(sample: Option<Snapshot>, last: Option<Snapshot>)
  {
    sample.Some? && sample != last
  }

  /** The samples a poll loop takes from a run of clipboard views. */
  function Samples(views: seq<ClipboardView>): (ss: seq<Option<Snapshot>>)
    ensures |ss| == |views|
    ensures forall k :: 0 <= k < |views| ==> ss[k] == Sample(views[k])
  {
    seq(|views|, k requires 0 <= k < |views| => Sample(views[k]))
  }

  /** The snapshot once the poll loop has seen `samples`, starting from `last`. */
  function Track(last: Option<Snapshot>, samples: seq<Option<Snapshot>>): Option<Snapshot>
    decreases |samples|
  {
    if samples == [] then last
    else
      var before := Track(last, samples[..|samples| - 1]);
      var x := samples[|samples| - 1];
      if IsLocalChange(x, before) then x else before
  }

  /** The uploads the poll loop makes while it sees `samples`, starting from `last`. */
  function Detect(last: Option<Snapshot>, samples: seq<Option<Snapshot>>): seq<Snapshot>
    decreases |samples|
  {
    if samples == [] then []
    else
      var p := samples[..|samples| - 1];
      var x := samples[|samples| - 1];
      Detect(last, p) + (if IsLocalChange(x, Track(last, p)) then [x.value] else [])
  }

  /** One more sample: the step the poll loop takes. */
  lemma TrackStep(last: Option<Snapshot>, samples: seq<Option<Snapshot>>, i: nat)
    requires i < |samples|
    ensures var before := Track(last, samples[..i]);
            var x := samples[i];
            && Track(last, samples[..i + 1]) == (if IsLocalChange(x, before) then x else before)
            && Detect(last, samples[..i + 1]) ==
                 Detect(last, samples[..i]) + (if IsLocalChange(x, before) then [x.value] else [])
  {
    assert samples[..i + 1][..i] == samples[..i];
  }

  /** What the tick on the `k`-th sample reports when the loop is not paused. */
  function ExpectedOutcome(init: Option<Snapshot>, samples: seq<Option<Snapshot>>, replies: seq<UploadReply>, k: nat): TickOutcome
    requires k < |samples| && k < |replies|
  {
    if IsLocalChange(samples[k], Track(init, samples[..k])) then UploadOutcome(replies[k]) else NoChange
  }

  /** Seeing `a` and then `b` is seeing `a`, then seeing `b` from where `a` left the snapshot. */
  lemma {:induction false} DetectAppend(last: Option<Snapshot>, a: seq<Option<Snapshot>>, b: seq<Option<Snapshot>>)
    ensures Track(last, a + b) == Track(Track(last, a), b)
    ensures Detect(last, a + b) == Detect(last, a) + Detect(Track(last, a), b)
    decreases |b|
  {
    if b == [] {
      assert a + b == a;
    } else {
      var b' := b[..|b| - 1];
      assert (a + b)[..|a + b| - 1] == a + b';
      assert (a + b)[|a + b| - 1] == b[|b| - 1];
      DetectAppend(last, a, b');
    }
  }

  /** The snapshot is always the latest upload, or the start value when nothing was uploaded. */
  lemma {:induction false} TrackIsLatestUpload(last: Option<Snapshot>, samples: seq<Option<Snapshot>>)
    ensures var d := Detect(last, samples);
            Track(last, samples) == if d == [] then last else Some(d[|d| - 1])
    decreases |samples|
  {
    if samples != [] {
      TrackIsLatestUpload(last, samples[..|samples| - 1]);
    }
  }

  /** Every upload is a sample the loop saw. */
  lemma {:induction false} UploadsWereSampled(last: Option<Snapshot>, samples: seq<Option<Snapshot>>)
    ensures forall k :: 0 <= k < |Detect(last, samples)| ==> Some(Detect(last, samples)[k]) in samples
    decreases |samples|
  {
    if samples != [] {
      var p := samples[..|samples| - 1];
      UploadsWereSampled(last, p);
      forall k | 0 <= k < |Detect(last, samples)|
        ensures Some(Detect(last, samples)[k]) in samples
      {
        if k < |Detect(last, p)| {
          assert Detect(last, samples)[k] == Detect(last, p)[k];
          assert Some(Detect(last, p)[k]) in p;
        } else {
          assert samples[|samples| - 1] == Some(Detect(last, samples)[k]);
        }
      }
    }
  }

  /**
   * No upload repeats the one before it, and the first one differs from
   * the start value: the loop never uploads the same content twice in a row.
   */
  lemma {:induction false} UploadsDiffer(last: Option<Snapshot>, samples: seq<Option<Snapshot>>)
    ensures var d := Detect(last, samples);
            && (d != [] ==> Some(d[0]) != last)
            && forall k :: 0 <= k < |d| - 1 ==> d[k] != d[k + 1]
    decreases |samples|
  {
    if samples != [] {
      var p := samples[..|samples| - 1];
      UploadsDiffer(last, p);
      TrackIsLatestUpload(last, p);
      var d := Detect(last, samples);
      var dp := Detect(last, p);
      assert dp == d[..|dp|];
    }
  }

  /** Content already on the clipboard at start-up, possibly cleared at times, is never uploaded. */
  lemma {:induction false} StartupContentNotUploaded(init: Option<Snapshot>, samples: seq<Option<Snapshot>>)
    requires forall k :: 0 <= k < |samples| ==> samples[k].None? || samples[k] == init
    ensures Detect(init, samples) == []
    ensures Track(init, samples) == init
    decreases |samples|
  {
    if samples != [] {
      var p := samples[..|samples| - 1];
      assert forall k :: 0 <= k < |p| ==> p[k] == samples[k];
      StartupContentNotUploaded(init, p);
    }
  }

  /** A tick that samples nothing (a clear, an unreadable clipboard) changes nothing downstream. */
  lemma ClearsIgnored(last: Option<Snapshot>, a: seq<Option<Snapshot>>, b: seq<Option<Snapshot>>)
    ensures Track(last, a + [None] + b) == Track(last, a + b)
    ensures Detect(last, a + [None] + b) == Detect(last, a + b)
  {
    DetectAppend(last, a + [None], b);
    DetectAppend(last, a, b);
    assert (a + [None])[..|a + [None]| - 1] == a;
  }

  /**
   * Applying a remote clip whose write succeeded, and then sampling the
   * clipboard as the write left it, detects no change: no echo upload.
   */
  lemma AppliedClipIsNoChange(last: Option<Snapshot>, item: ClipItem, env: ApplyEnv, v: ClipboardView)
    requires env.writeOk
    requires item.kind == Text ==> v == Readable(None, Some(item.content))
    requires item.kind == Image ==> env.downloadStatus == 200 && v.Readable? && v.image == Some(env.png)
    ensures !IsLocalChange(Sample(v), Applied(last, item, env))
  {
  }
}
