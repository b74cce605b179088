/**
 * The two scripts together, meeting in the store: what the uploader writes for
 * a window is what the predictor reads back, a hole in the upload makes the
 * predictor reject the whole window, and the notifications the uploader's
 * writes raise never reach a prediction.
 */
module Pipeline {
  import opened Wrappers
  import opened Text
  import opened Store
  import opened Layout
  import Producer
  import Consumer

  /** `str` and `float` agree as a token codec on the amplitudes of `xs`: each printed
      amplitude is a non-blank token without a comma, and `float` reads it back. */
  predicate CodecOn(format: Producer.Format, parse: string -> Option<real>, xs: Producer.Packet)
  {
    forall k :: 0 <= k < |xs| ==> ',' !in format(xs[k]) && !IsBlank(format(xs[k])) && parse(format(xs[k])) == Some(xs[k])
  }

  /** The codec agrees on every packet the predictor reads. */
  predicate WindowCodec(format: Producer.Format, parse: string -> Option<real>, csi: seq<Producer.Packet>)
  {
    forall i :: 0 <= i < |csi| && i < Consumer.WindowSize ==> CodecOn(format, parse, csi[i])
  }

  /** The predictor parses an uploaded packet string back into the packet. */
  lemma RowRoundTrip(amplitudes: Producer.Packet, format: Producer.Format, parse: string -> Option<real>)
    requires CodecOn(format, parse, amplitudes)
    ensures Consumer.ParseRow(Leaf(Text(Producer.Serialize(amplitudes, format))), parse) == Consumer.Ready(amplitudes)
  {
    var tokens := Producer.Tokens(amplitudes, format);
    forall k | 0 <= k < |tokens| ensures ',' !in tokens[k] && !IsBlank(tokens[k]) && parse(tokens[k]) == Some(amplitudes[k]) {
      assert tokens[k] == format(amplitudes[k]);
    }
    TokensRoundTrip(tokens, ',');
    var r := Consumer.ParseAll(tokens, parse);
    assert r.Some?;
    assert r.value == amplitudes;
  }

  /** Every packet the predictor needs is among the uploader's writes. */
  predicate Complete(csi: seq<Producer.Packet>, failAt: Option<nat>)
  {
    forall i :: 0 <= i < Consumer.WindowSize ==> Producer.Delivered(csi, i, failAt)
  }

  /** Nothing is stored at or below the window before the upload. */
  predicate Fresh(data: map<Path, Value>, timestampId: int)
  {
    forall q :: q in data ==> !IsPrefix(WindowPath("realtime", timestampId), q)
  }

  /** A delivered packet is a child of the window snapshot that the predictor reads back as the packet. */
  lemma DeliveredRead(data: map<Path, Value>, timestampId: int, csi: seq<Producer.Packet>,
                      format: Producer.Format, parse: string -> Option<real>, failAt: Option<nat>, i: nat)
    requires Producer.Delivered(csi, i, failAt) && CodecOn(format, parse, csi[i])
    ensures var snapshot := Read(Producer.Uploaded(data, timestampId, csi, format, failAt), WindowPath("realtime", timestampId));
      && snapshot.Object?
      && PacketKey(i) in snapshot.children
      && Consumer.ParseRow(snapshot.children[PacketKey(i)], parse) == Consumer.Ready(csi[i])
  {
    var after := Producer.Uploaded(data, timestampId, csi, format, failAt);
    var base := WindowPath("realtime", timestampId);
    Producer.DeliveredStored(data, timestampId, csi, format, failAt, i);
    Producer.UploadedNoLeafAtWindow(data, timestampId, csi, format, failAt, i);
    assert IsPrefix(base + [PacketKey(i)], base + [PacketKey(i)]);
    RowRoundTrip(csi[i], format, parse);
  }

  /** After a complete upload the predictor reads exactly the first WindowSize packets,
      in order, whatever the store held before (stale packets of the same window included). */
  lemma UploadReadBack(data: map<Path, Value>, timestampId: int, csi: seq<Producer.Packet>,
                       format: Producer.Format, parse: string -> Option<real>, failAt: Option<nat>)
    requires WindowCodec(format, parse, csi)
    requires Complete(csi, failAt)
    ensures |csi| >= Consumer.WindowSize
    ensures Consumer.ReadWindow(Read(Producer.Uploaded(data, timestampId, csi, format, failAt), WindowPath("realtime", timestampId)), parse)
            == Consumer.Ready(csi[..Consumer.WindowSize])
  {
    var n := Consumer.WindowSize;
    assert Producer.Delivered(csi, n - 1, failAt);
    var snapshot := Read(Producer.Uploaded(data, timestampId, csi, format, failAt), WindowPath("realtime", timestampId));
    DeliveredRead(data, timestampId, csi, format, parse, failAt, 0);
    var children := snapshot.children;
    forall i | 0 <= i < n
      ensures PacketKey(i) in children && Consumer.ParseRow(children[PacketKey(i)], parse) == Consumer.Ready(csi[i])
    {
      DeliveredRead(data, timestampId, csi, format, parse, failAt, i);
    }
    Consumer.ReadPacketsOf(children, csi, n, parse);
  }

  /** The first packet that is not delivered, at or before a given undelivered one. */
  lemma {:induction false} FirstUndelivered(csi: seq<Producer.Packet>, failAt: Option<nat>, i: nat) returns (j: nat)
    requires !Producer.Delivered(csi, i, failAt)
    ensures j <= i && !Producer.Delivered(csi, j, failAt)
    ensures forall m :: 0 <= m < j ==> Producer.Delivered(csi, m, failAt)
    decreases i
  {
    if forall m :: 0 <= m < i ==> Producer.Delivered(csi, m, failAt) {
      j := i;
    } else {
      var m :| 0 <= m < i && !Producer.Delivered(csi, m, failAt);
      j := FirstUndelivered(csi, failAt, m);
    }
  }

  /** In a fresh window, a packet that was not delivered is not a child of the snapshot. */
  lemma UndeliveredAbsent(data: map<Path, Value>, timestampId: int, csi: seq<Producer.Packet>,
                          format: Producer.Format, failAt: Option<nat>, j: nat)
    requires Fresh(data, timestampId)
    requires !Producer.Delivered(csi, j, failAt)
    ensures var after := Producer.Uploaded(data, timestampId, csi, format, failAt);
      var base := WindowPath("realtime", timestampId);
      && base !in after
      && forall q :: q in after ==> !IsPrefix(base + [PacketKey(j)], q)
  {
    var after := Producer.Uploaded(data, timestampId, csi, format, failAt);
    var base := WindowPath("realtime", timestampId);
    if base in after {
      Producer.UploadedOrigin(data, timestampId, csi, format, failAt, base);
      assert IsPrefix(base, base);
    }
    forall q | q in after ensures !IsPrefix(base + [PacketKey(j)], q) {
      UndeliveredNotBelow(data, timestampId, csi, format, failAt, j, q);
    }
  }

  lemma UndeliveredNotBelow(data: map<Path, Value>, timestampId: int, csi: seq<Producer.Packet>,
                            format: Producer.Format, failAt: Option<nat>, j: nat, q: Path)
    requires Fresh(data, timestampId)
    requires !Producer.Delivered(csi, j, failAt)
    requires q in Producer.Uploaded(data, timestampId, csi, format, failAt)
    ensures !IsPrefix(WindowPath("realtime", timestampId) + [PacketKey(j)], q)
  {
    var base := WindowPath("realtime", timestampId);
    if IsPrefix(base + [PacketKey(j)], q) {
      assert q[..|base|] == (base + [PacketKey(j)])[..|base|];
      assert IsPrefix(base, q);
      Producer.UploadedOrigin(data, timestampId, csi, format, failAt, q);
      var w :| Producer.Delivered(csi, w, failAt) && q == base + [PacketKey(w)];
      assert q[|base|] == PacketKey(j);
      PacketKeyInjective(j, w);
    }
  }

  /** In a fresh window, an upload that leaves any of the first WindowSize packets out
      (an empty amplitude vector, a short capture, or a write that raised) makes the
      predictor find no data: never a partial window. */
  lemma GapRejectsWindow(data: map<Path, Value>, timestampId: int, csi: seq<Producer.Packet>,
                         format: Producer.Format, parse: string -> Option<real>, failAt: Option<nat>, i: nat)
    requires WindowCodec(format, parse, csi)
    requires Fresh(data, timestampId)
    requires i < Consumer.WindowSize && !Producer.Delivered(csi, i, failAt)
    ensures Consumer.ReadWindow(Read(Producer.Uploaded(data, timestampId, csi, format, failAt), WindowPath("realtime", timestampId)), parse)
            == Consumer.Missing
  {
    var after := Producer.Uploaded(data, timestampId, csi, format, failAt);
    var base := WindowPath("realtime", timestampId);
    var j := FirstUndelivered(csi, failAt, i);
    UndeliveredAbsent(data, timestampId, csi, format, failAt, j);
    var snapshot := Read(after, base);
    if snapshot.Object? {
      var children := snapshot.children;
      forall m | 0 <= m < j ensures Consumer.PacketOk(children, m, parse) {
        DeliveredRead(data, timestampId, csi, format, parse, failAt, m);
      }
      Consumer.FirstGapIsMissing(children, Consumer.WindowSize, j, parse);
    }
  }

  /** Whatever the codec: in a fresh window, an upload that leaves any of the first
      WindowSize packets out never gives the predictor a window to classify. */
  lemma GapNotReady(data: map<Path, Value>, timestampId: int, csi: seq<Producer.Packet>,
                    format: Producer.Format, parse: string -> Option<real>, failAt: Option<nat>, i: nat)
    requires Fresh(data, timestampId)
    requires i < Consumer.WindowSize && !Producer.Delivered(csi, i, failAt)
    ensures !Consumer.ReadWindow(Read(Producer.Uploaded(data, timestampId, csi, format, failAt), WindowPath("realtime", timestampId)), parse).Ready?
  {
    var snapshot := Read(Producer.Uploaded(data, timestampId, csi, format, failAt), WindowPath("realtime", timestampId));
    UndeliveredAbsent(data, timestampId, csi, format, failAt, i);
    if snapshot.Object? {
      assert !Consumer.PacketOk(snapshot.children, i, parse);
      Consumer.ReadPacketsReady(snapshot.children, Consumer.WindowSize, parse);
    }
  }

  /** Both directions together: on a fresh window the predictor gets the uploaded rows
      exactly when the upload is complete, and no data otherwise. */
  lemma FreshWindowRead(data: map<Path, Value>, timestampId: int, csi: seq<Producer.Packet>,
                        format: Producer.Format, parse: string -> Option<real>, failAt: Option<nat>)
    requires WindowCodec(format, parse, csi)
    requires Fresh(data, timestampId)
    ensures var r := Consumer.ReadWindow(Read(Producer.Uploaded(data, timestampId, csi, format, failAt), WindowPath("realtime", timestampId)), parse);
      && (Complete(csi, failAt) ==> |csi| >= Consumer.WindowSize && r == Consumer.Ready(csi[..Consumer.WindowSize]))
      && (!Complete(csi, failAt) ==> r == Consumer.Missing)
  {
    if Complete(csi, failAt) {
      UploadReadBack(data, timestampId, csi, format, parse, failAt);
    } else {
      var i :| 0 <= i < Consumer.WindowSize && !Producer.Delivered(csi, i, failAt);
      GapRejectsWindow(data, timestampId, csi, format, parse, failAt, i);
    }
  }

  // ---------------------------------------------------------------------
  // Notifications

  /** The notification a listener on /csidata receives for a write at `path` below it:
      the written location relative to /csidata, with a leading '/'. */
  function WriteEvent(path: Path): Consumer.Event
    requires |path| >= 1
  {
    Consumer.Event("/" + Join(path[1..], '/'), false)
  }

  /** The notification of packet i's write splits into its three keys. */
  lemma PacketEventParts(timestampId: int, i: nat)
    ensures Consumer.PathParts(WriteEvent(WindowPath("realtime", timestampId) + [PacketKey(i)]).path)
            == ["realtime", IntToString(timestampId), PacketKey(i)]
  {
    var parts := ["realtime", IntToString(timestampId), PacketKey(i)];
    assert (WindowPath("realtime", timestampId) + [PacketKey(i)])[1..] == parts;
    Consumer.NoSlashInNumber(timestampId);
    Consumer.NoSlashInNumber(i);
    assert PacketKey(i) == "packet_" + IntToString(i);
    assert '/' !in "realtime";
    assert '/' !in PacketKey(i);
    Consumer.PathPartsOfJoin(parts);
  }

  /** As written: every write of an upload raises a three-segment notification, which the
      listener ignores, so no upload ever leads to a prediction. */
  lemma UploadEventsIgnored(data: map<Path, Value>, timestampId: int, i: nat, env: Consumer.Env, now: int)
    requires Consumer.ClassifierFits(env)
    ensures Consumer.RouteEvent(WriteEvent(WindowPath("realtime", timestampId) + [PacketKey(i)])) == Consumer.Ignore
    ensures Consumer.Handle(data, WriteEvent(WindowPath("realtime", timestampId) + [PacketKey(i)]), env, now) == Consumer.Ignored
  {
    PacketEventParts(timestampId, i);
  }

  /** Corrected: with the dispatch that accepts packet notifications, the notification of
      any packet of a complete upload, handled once the upload is done, publishes the
      classification of the uploaded rows at the window's prediction key. */
  lemma UploadPredicted(data: map<Path, Value>, timestampId: int, csi: seq<Producer.Packet>,
                        format: Producer.Format, env: Consumer.Env, failAt: Option<nat>, i: nat, now: int)
    requires WindowCodec(format, env.parse, csi) && Consumer.ClassifierFits(env)
    requires Complete(csi, failAt)
    requires |csi| >= Consumer.WindowSize && Consumer.Rectangular(csi[..Consumer.WindowSize]) && |csi[0]| > 0
    requires i < Consumer.WindowSize
    ensures |csi| >= Consumer.WindowSize
    ensures Consumer.HandleCorrected(Producer.Uploaded(data, timestampId, csi, format, failAt),
                                     WriteEvent(WindowPath("realtime", timestampId) + [PacketKey(i)]), env, now)
            == Consumer.Published(PredictionPath("realtime", timestampId),
                                  Consumer.Select(env.classify(Consumer.ToTensor(env.resize(csi[..Consumer.WindowSize]))), now))
  {
    var e := WriteEvent(WindowPath("realtime", timestampId) + [PacketKey(i)]);
    var after := Producer.Uploaded(data, timestampId, csi, format, failAt);
    var rows := csi[..Consumer.WindowSize];
    PacketEventParts(timestampId, i);
    ParseIntToString(timestampId);
    assert Consumer.RouteEventCorrected(e) == Consumer.Predict("realtime", timestampId);
    UploadReadBack(data, timestampId, csi, format, env.parse, failAt);
    assert Consumer.ReadWindow(Read(after, WindowPath("realtime", timestampId)), env.parse) == Consumer.Ready(rows);
    assert Consumer.Heatmap(after, "realtime", timestampId, env) == Consumer.Reconstruct(rows, env);
    Consumer.ReconstructReady(rows, env);
  }
}
