/**
 * The edge-side uploader (raspi_csi_to_firebase.py): each cycle captures
 * PacketCount frames to a pcap file named after the current second, decodes it,
 * writes up to PacketCount amplitude vectors as comma-joined strings under
 * /csidata/realtime/{timestamp_id}/packet_i, deletes the file and sleeps.
 */
module Producer {
  import opened Wrappers
  import opened Text
  import opened Store
  import opened Layout

  const CaptureDir: string := "/home/pi/capston/"
  const PacketCount: nat := 20

  /** One decoded packet: the magnitudes `np.abs(csi_entry)`, flattened. */
  type Packet = seq<real>

  /** `str(x)` for a float; what it prints is not modelled. */
  type Format = real -> string

  // ---------------------------------------------------------------------
  // Keys and serialisation

  function Tokens(amplitudes: Packet, format: Format): (tokens: seq<string>)
    ensures |tokens| == |amplitudes|
    ensures forall k :: 0 <= k < |amplitudes| ==> tokens[k] == format(amplitudes[k])
  {
    seq(|amplitudes|, k requires 0 <= k < |amplitudes| => format(amplitudes[k]))
  }

  /** `",".join(map(str, amplitudes))`. */
  function Serialize(amplitudes: Packet, format: Format): string
  {
    Join(Tokens(amplitudes, format), ',')
  }

  // ---------------------------------------------------------------------
  // What one upload writes

  /** The write of packet `failAt` is attempted (and raises) among the first `n` packets;
      a failing index whose packet is empty is never written, so nothing raises there. */
  predicate Raised(csi: seq<Packet>, n: nat, failAt: Option<nat>)
    requires n <= |csi|
  {
    failAt.Some? && failAt.value < n && csi[failAt.value] != []
  }

  /** Packet i is written: it is non-empty and no write up to and including its own raised. */
  predicate IsWritten(csi: seq<Packet>, i: nat, failAt: Option<nat>)
    requires i < |csi|
  {
    csi[i] != [] && !Raised(csi, i + 1, failAt)
  }

  /** The (index, string) pairs written for the first `n` decoded packets, in write order. */
  function Written(csi: seq<Packet>, n: nat, format: Format, failAt: Option<nat>): seq<(nat, string)>
    requires n <= |csi|
  {
    if n == 0 then []
    else
      var earlier := Written(csi, n - 1, format, failAt);
      if IsWritten(csi, n - 1, failAt) then earlier + [(n - 1, Serialize(csi[n - 1], format))]
      else earlier
  }

  /** Each write is of a written packet, under its own position, as its serialisation. */
  lemma {:induction false} WrittenSound(csi: seq<Packet>, n: nat, format: Format, failAt: Option<nat>)
    requires n <= |csi|
    ensures |Written(csi, n, format, failAt)| <= n
    ensures forall k :: 0 <= k < |Written(csi, n, format, failAt)| ==>
              var w := Written(csi, n, format, failAt)[k];
              w.0 < n && IsWritten(csi, w.0, failAt) && w.1 == Serialize(csi[w.0], format)
  {
    if n > 0 {
      WrittenSound(csi, n - 1, format, failAt);
    }
  }

  /** Writes happen in increasing packet order, so no key is written twice. */
  lemma {:induction false} WrittenOrdered(csi: seq<Packet>, n: nat, format: Format, failAt: Option<nat>)
    requires n <= |csi|
    ensures forall k, l :: 0 <= k < l < |Written(csi, n, format, failAt)| ==>
              Written(csi, n, format, failAt)[k].0 < Written(csi, n, format, failAt)[l].0
  {
    if n > 0 {
      WrittenOrdered(csi, n - 1, format, failAt);
      WrittenSound(csi, n - 1, format, failAt);
    }
  }

  /** Every packet that is written appears among the writes. */
  lemma {:induction false} WrittenComplete(csi: seq<Packet>, n: nat, format: Format, failAt: Option<nat>, i: nat)
    requires i < n <= |csi|
    requires IsWritten(csi, i, failAt)
    ensures exists k :: 0 <= k < |Written(csi, n, format, failAt)| && Written(csi, n, format, failAt)[k].0 == i
  {
    var earlier := Written(csi, n - 1, format, failAt);
    var ws := Written(csi, n, format, failAt);
    if i == n - 1 {
      assert ws[|ws| - 1].0 == i;
    } else {
      WrittenComplete(csi, n - 1, format, failAt, i);
      var k :| 0 <= k < |earlier| && earlier[k].0 == i;
      assert ws[k] == earlier[k];
    }
  }

  lemma {:induction false} WrittenStops(csi: seq<Packet>, i: nat, n: nat, format: Format, failAt: Option<nat>)
    requires i < n <= |csi|
    requires failAt == Some(i) && csi[i] != []
    ensures Written(csi, n, format, failAt) == Written(csi, i, format, failAt)
    decreases n
  {
    if n > i + 1 {
      WrittenStops(csi, i, n - 1, format, failAt);
    }
  }

  /** All writes one call of `upload_csi_to_firebase` makes; nothing when decoding raised. */
  function UploadWrites(decoded: Option<seq<Packet>>, format: Format, failAt: Option<nat>): seq<(nat, string)>
  {
    match decoded
    case None => []
    case Some(csi) => Written(csi, Min(|csi|, PacketCount), format, failAt)
  }

  /** Whether the call reaches its success message instead of the `except` branch. */
  predicate UploadSucceeds(decoded: Option<seq<Packet>>, failAt: Option<nat>)
  {
    decoded.Some? && !Raised(decoded.value, Min(|decoded.value|, PacketCount), failAt)
  }

  /** The store after the writes `ws` below `base`, in order. */
  function ApplyWrites(data: map<Path, Value>, base: Path, ws: seq<(nat, string)>): map<Path, Value>
  {
    if |ws| == 0 then data
    else
      var last := ws[|ws| - 1];
      Put(ApplyWrites(data, base, ws[..|ws| - 1]), base + [PacketKey(last.0)], Text(last.1))
  }

  /** Sibling keys do not contain each other. */
  lemma SiblingsUnrelated(base: Path, a: string, b: string)
    requires a != b
    ensures !Related(base + [a], base + [b])
  {
    assert (base + [a])[|base|] == a && (base + [b])[|base|] == b;
  }

  /** After the writes, packet key i holds the string of the write (index i) that made it. */
  lemma {:induction false} ApplyWritesAt(data: map<Path, Value>, base: Path, ws: seq<(nat, string)>, k: nat)
    requires k < |ws|
    requires forall a, b :: 0 <= a < b < |ws| ==> ws[a].0 < ws[b].0
    ensures base + [PacketKey(ws[k].0)] in ApplyWrites(data, base, ws)
    ensures ApplyWrites(data, base, ws)[base + [PacketKey(ws[k].0)]] == Text(ws[k].1)
    decreases |ws|
  {
    var last := ws[|ws| - 1];
    if k < |ws| - 1 {
      ApplyWritesAt(data, base, ws[..|ws| - 1], k);
      if PacketKey(ws[k].0) == PacketKey(last.0) {
        PacketKeyInjective(ws[k].0, last.0);
      }
      SiblingsUnrelated(base, PacketKey(ws[k].0), PacketKey(last.0));
    }
  }

  /** A location related to none of the written keys keeps what it held. */
  lemma {:induction false} ApplyWritesFrame(data: map<Path, Value>, base: Path, ws: seq<(nat, string)>, q: Path)
    requires forall k :: 0 <= k < |ws| ==> !Related(q, base + [PacketKey(ws[k].0)])
    ensures q in ApplyWrites(data, base, ws) <==> q in data
    ensures q in data ==> ApplyWrites(data, base, ws)[q] == data[q]
    decreases |ws|
  {
    if |ws| > 0 {
      ApplyWritesFrame(data, base, ws[..|ws| - 1], q);
    }
  }

  lemma {:induction false} ApplyWritesTree(data: map<Path, Value>, base: Path, ws: seq<(nat, string)>)
    requires IsTree(data)
    ensures IsTree(ApplyWrites(data, base, ws))
    decreases |ws|
  {
    if |ws| > 0 {
      ApplyWritesTree(data, base, ws[..|ws| - 1]);
      var last := ws[|ws| - 1];
      PutTree(ApplyWrites(data, base, ws[..|ws| - 1]), base + [PacketKey(last.0)], Text(last.1));
    }
  }

  /** Packet i of a decoded list is among the writes of its upload. */
  predicate Delivered(csi: seq<Packet>, i: nat, failAt: Option<nat>)
  {
    i < Min(|csi|, PacketCount) && IsWritten(csi, i, failAt)
  }

  /** The store after the upload of the decoded list `csi` for window `timestampId`. */
  function Uploaded(data: map<Path, Value>, timestampId: int, csi: seq<Packet>, format: Format, failAt: Option<nat>): map<Path, Value>
  {
    ApplyWrites(data, WindowPath("realtime", timestampId), UploadWrites(Some(csi), format, failAt))
  }

  /** At most PacketCount packets are written, each once, under an index below
      PacketCount, as the serialisation of the packet at that position. */
  lemma UploadWritesSound(csi: seq<Packet>, format: Format, failAt: Option<nat>)
    ensures var ws := UploadWrites(Some(csi), format, failAt);
      && |ws| <= PacketCount
      && (forall k :: 0 <= k < |ws| ==> ws[k].0 < PacketCount && Delivered(csi, ws[k].0, failAt)
                                         && ws[k].1 == Serialize(csi[ws[k].0], format))
      && (forall k, l :: 0 <= k < l < |ws| ==> ws[k].0 < ws[l].0)
  {
    var n := Min(|csi|, PacketCount);
    WrittenSound(csi, n, format, failAt);
    WrittenOrdered(csi, n, format, failAt);
  }

  /** A delivered packet is stored under its own key, as its serialisation. */
  lemma DeliveredStored(data: map<Path, Value>, timestampId: int, csi: seq<Packet>, format: Format, failAt: Option<nat>, i: nat)
    requires Delivered(csi, i, failAt)
    ensures var p := WindowPath("realtime", timestampId) + [PacketKey(i)];
      p in Uploaded(data, timestampId, csi, format, failAt)
      && Uploaded(data, timestampId, csi, format, failAt)[p] == Text(Serialize(csi[i], format))
  {
    var n := Min(|csi|, PacketCount);
    var ws := Written(csi, n, format, failAt);
    WrittenComplete(csi, n, format, failAt, i);
    var k :| 0 <= k < |ws| && ws[k].0 == i;
    WrittenSound(csi, n, format, failAt);
    WrittenOrdered(csi, n, format, failAt);
    ApplyWritesAt(data, WindowPath("realtime", timestampId), ws, k);
  }

  /** Everything the writes leave is either old or one of the written keys. */
  lemma {:induction false} ApplyWritesOrigin(data: map<Path, Value>, base: Path, ws: seq<(nat, string)>, q: Path)
    requires q in ApplyWrites(data, base, ws)
    ensures q in data || exists k :: 0 <= k < |ws| && q == base + [PacketKey(ws[k].0)]
    decreases |ws|
  {
    if |ws| > 0 {
      var last := ws[|ws| - 1];
      if q != base + [PacketKey(last.0)] {
        var earlier := ws[..|ws| - 1];
        ApplyWritesOrigin(data, base, earlier, q);
        if q !in data {
          var k :| 0 <= k < |earlier| && q == base + [PacketKey(earlier[k].0)];
          assert ws[k] == earlier[k];
        }
      }
    }
  }

  /** After an upload, a location below the window is an old one or a delivered packet's key. */
  lemma UploadedOrigin(data: map<Path, Value>, timestampId: int, csi: seq<Packet>, format: Format, failAt: Option<nat>, q: Path)
    requires q in Uploaded(data, timestampId, csi, format, failAt)
    ensures q in data || exists i :: Delivered(csi, i, failAt) && q == WindowPath("realtime", timestampId) + [PacketKey(i)]
  {
    var ws := UploadWrites(Some(csi), format, failAt);
    ApplyWritesOrigin(data, WindowPath("realtime", timestampId), ws, q);
    UploadWritesSound(csi, format, failAt);
  }

  /** The upload changes nothing unrelated to a delivered packet's key: other windows,
      other data, and stale packets of an earlier upload to the same window stay. */
  lemma UploadFrame(data: map<Path, Value>, timestampId: int, csi: seq<Packet>, format: Format, failAt: Option<nat>, q: Path)
    requires forall i :: Delivered(csi, i, failAt) ==> !Related(q, WindowPath("realtime", timestampId) + [PacketKey(i)])
    ensures q in Uploaded(data, timestampId, csi, format, failAt) <==> q in data
    ensures q in data ==> Uploaded(data, timestampId, csi, format, failAt)[q] == data[q]
  {
    var ws := UploadWrites(Some(csi), format, failAt);
    UploadWritesSound(csi, format, failAt);
    ApplyWritesFrame(data, WindowPath("realtime", timestampId), ws, q);
  }

  /** Once a packet is delivered, the window location itself holds no leaf. */
  lemma UploadedNoLeafAtWindow(data: map<Path, Value>, timestampId: int, csi: seq<Packet>, format: Format, failAt: Option<nat>, i: nat)
    requires Delivered(csi, i, failAt)
    ensures WindowPath("realtime", timestampId) !in Uploaded(data, timestampId, csi, format, failAt)
  {
    var base := WindowPath("realtime", timestampId);
    var ws := UploadWrites(Some(csi), format, failAt);
    WrittenComplete(csi, Min(|csi|, PacketCount), format, failAt, i);
    var last := ws[|ws| - 1];
    assert IsPrefix(base, base + [PacketKey(last.0)]);
  }

  /** The store after the loop has handled packets 0 .. i-1, packet by packet. */
  function Progress(data: map<Path, Value>, base: Path, csi: seq<Packet>, i: nat, format: Format, failAt: Option<nat>): map<Path, Value>
    requires i <= |csi|
  {
    if i == 0 then data
    else
      var d := Progress(data, base, csi, i - 1, format, failAt);
      if IsWritten(csi, i - 1, failAt) then Put(d, base + [PacketKey(i - 1)], Text(Serialize(csi[i - 1], format))) else d
  }

  lemma ApplyWritesSnoc(data: map<Path, Value>, base: Path, ws: seq<(nat, string)>, w: (nat, string))
    ensures ApplyWrites(data, base, ws + [w]) == Put(ApplyWrites(data, base, ws), base + [PacketKey(w.0)], Text(w.1))
  {
    assert (ws + [w])[..|ws|] == ws;
  }

  /** Writing packet by packet is applying the writes in order. */
  lemma {:induction false} ProgressWrites(data: map<Path, Value>, base: Path, csi: seq<Packet>, i: nat, format: Format, failAt: Option<nat>)
    requires i <= |csi|
    ensures Progress(data, base, csi, i, format, failAt) == ApplyWrites(data, base, Written(csi, i, format, failAt))
  {
    if i > 0 {
      ProgressWrites(data, base, csi, i - 1, format, failAt);
      if IsWritten(csi, i - 1, failAt) {
        ApplyWritesSnoc(data, base, Written(csi, i - 1, format, failAt), (i - 1, Serialize(csi[i - 1], format)));
      }
    }
  }

  /** `upload_csi_to_firebase(pcap_file, timestamp_id)`. `decoded` is what the decoder
      produced from the file (None when reading or unpacking it raised), `format` is
      `str` on floats, and `failAt` names the packet whose write raises, if any. */
  method Upload(db: Database, decoded: Option<seq<Packet>>, timestampId: int, format: Format, failAt: Option<nat>)
    returns (ok: bool)
    modifies db
    ensures ok == UploadSucceeds(decoded, failAt)
    ensures db.data == ApplyWrites(old(db.data), WindowPath("realtime", timestampId), UploadWrites(decoded, format, failAt))
  {
    if decoded.None? {
      return false;
    }
    var csi := decoded.value;
    var base := WindowPath("realtime", timestampId);
    var n := Min(|csi|, PacketCount);
    var i := 0;
    while i < n
      invariant 0 <= i <= n
      invariant !Raised(csi, i, failAt)
      invariant db.data == Progress(old(db.data), base, csi, i, format, failAt)
    {
      var amplitudes := csi[i];
      if |amplitudes| == 0 {
        i := i + 1;
        continue;
      }
      if failAt == Some(i) {
        WrittenStops(csi, i, n, format, failAt);
        ProgressWrites(old(db.data), base, csi, i, format, failAt);
        return false;
      }
      db.Set(base + [PacketKey(i)], Text(Serialize(amplitudes, format)));
      i := i + 1;
    }
    ProgressWrites(old(db.data), base, csi, n, format, failAt);
    return true;
  }

  // ---------------------------------------------------------------------
  // The capture loop

  /** The external side effects of the loop, in the order they happen. */
  datatype Action =
    | Capture(command: string)   // os.system("sudo tcpdump ...")
    | UploadWindow(id: int)      // upload_csi_to_firebase(pcap_path, id)
    | Remove(path: string)       // os.remove(pcap_path)
    | Sleep(seconds: nat)        // time.sleep(1)

  /** What one cycle meets: the clock (`int(time.time())`), whether tcpdump left a
      capture file, what the decoder makes of it, and which write (if any) raises. */
  datatype Cycle = Cycle(clock: int, fileCreated: bool, decoded: Option<seq<Packet>>, failAt: Option<nat>)

  function PcapPath(timestampId: int): string
  {
    CaptureDir + "csi_" + IntToString(timestampId) + ".pcap"
  }

  function CaptureCommand(pcapPath: string): string
  {
    "sudo tcpdump -i wlan0 -s 0 -c " + IntToString(PacketCount) + " -w " + pcapPath + " udp port 5500"
  }

  /** Reading a file tcpdump never wrote raises inside the upload, which then writes nothing. */
  function Decoded(c: Cycle): Option<seq<Packet>>
  {
    if c.fileCreated then c.decoded else None
  }

  /** One cycle's actions. Without a capture file, `os.remove` raises, nothing catches
      it, and the loop ends before it sleeps. */
  function CycleActions(c: Cycle): (acts: seq<Action>)
  {
    [Capture(CaptureCommand(PcapPath(c.clock))), UploadWindow(c.clock), Remove(PcapPath(c.clock))]
      + (if c.fileCreated then [Sleep(1)] else [])
  }

  predicate AllCaptured(cycles: seq<Cycle>)
  {
    forall k :: 0 <= k < |cycles| ==> cycles[k].fileCreated
  }

  /** The cycles that actually run: all of them, or those up to and including the
      first one without a capture file, whose failed `os.remove` ends the loop. */
  function Run(cycles: seq<Cycle>): (ran: seq<Cycle>)
    ensures |ran| <= |cycles|
  {
    if |cycles| == 0 then []
    else if !cycles[0].fileCreated then [cycles[0]]
    else [cycles[0]] + Run(cycles[1..])
  }

  /** The actions of the cycles, one block per cycle, in cycle order. */
  function Blocks(cycles: seq<Cycle>): seq<Action>
  {
    FlatMap(cycles, CycleActions)
  }

  /** `f` of each element, concatenated in order. */
  function FlatMap<A, B>(xs: seq<A>, f: A -> seq<B>): seq<B>
  {
    if |xs| == 0 then []
    else FlatMap(xs[..|xs| - 1], f) + f(xs[|xs| - 1])
  }

  lemma {:induction false} FlatMapAppend<A, B>(xs: seq<A>, ys: seq<A>, f: A -> seq<B>)
    ensures FlatMap(xs + ys, f) == FlatMap(xs, f) + FlatMap(ys, f)
    decreases |ys|
  {
    if |ys| == 0 {
      assert xs + ys == xs;
    } else {
      var init := ys[..|ys| - 1];
      assert (xs + ys)[..|xs + ys| - 1] == xs + init;
      FlatMapAppend(xs, init, f);
    }
  }

  /** The store after the uploads of the cycles, in cycle order. */
  function Uploads(data: map<Path, Value>, cycles: seq<Cycle>, format: Format): map<Path, Value>
  {
    if |cycles| == 0 then data
    else
      var c := cycles[|cycles| - 1];
      ApplyWrites(Uploads(data, cycles[..|cycles| - 1], format), WindowPath("realtime", c.clock), UploadWrites(Decoded(c), format, c.failAt))
  }

  lemma {:induction false} RunAfterCaptured(cycles: seq<Cycle>, k: nat)
    requires k <= |cycles|
    requires AllCaptured(cycles[..k])
    ensures Run(cycles) == cycles[..k] + Run(cycles[k..])
    decreases k
  {
    if k > 0 {
      assert cycles[..k][0] == cycles[0];
      var rest := cycles[1..];
      assert AllCaptured(rest[..k - 1]) by {
        var head := rest[..k - 1];
        forall j | 0 <= j < k - 1 ensures head[j].fileCreated {
          assert head[j] == cycles[..k][j + 1];
        }
      }
      RunAfterCaptured(rest, k - 1);
      assert rest[k - 1..] == cycles[k..];
      assert [cycles[0]] + rest[..k - 1] == cycles[..k];
    }
  }

  lemma RunStep(data: map<Path, Value>, cycles: seq<Cycle>, k: nat, format: Format)
    requires k < |cycles|
    ensures Blocks(cycles[..k + 1]) == Blocks(cycles[..k]) + CycleActions(cycles[k])
    ensures Uploads(data, cycles[..k + 1], format)
            == ApplyWrites(Uploads(data, cycles[..k], format), WindowPath("realtime", cycles[k].clock),
                           UploadWrites(Decoded(cycles[k]), format, cycles[k].failAt))
  {
    assert cycles[..k + 1][..k] == cycles[..k];
  }

  lemma CapturedStep(cycles: seq<Cycle>, k: nat)
    requires k < |cycles|
    requires AllCaptured(cycles[..k]) && cycles[k].fileCreated
    ensures AllCaptured(cycles[..k + 1])
  {
    var done := cycles[..k + 1];
    forall j | 0 <= j < k + 1 ensures done[j].fileCreated {
      if j < k { assert done[j] == cycles[..k][j]; }
    }
  }

  /** The four steps of one captured cycle, all named after its clock reading. */
  function CapturedCycle(c: Cycle): seq<Action>
  {
    [Capture(CaptureCommand(PcapPath(c.clock))), UploadWindow(c.clock), Remove(PcapPath(c.clock)), Sleep(1)]
  }

  lemma BlocksAppend(xs: seq<Cycle>, ys: seq<Cycle>)
    ensures Blocks(xs + ys) == Blocks(xs) + Blocks(ys)
  {
    FlatMapAppend(xs, ys, CycleActions);
  }

  lemma {:induction false} CapturedLength(cycles: seq<Cycle>)
    requires AllCaptured(cycles)
    ensures |Blocks(cycles)| == 4 * |cycles|
  {
    if |cycles| > 0 {
      var init := cycles[..|cycles| - 1];
      assert AllCaptured(init) by {
        forall j | 0 <= j < |init| ensures init[j].fileCreated {
          assert init[j] == cycles[j];
        }
      }
      CapturedLength(init);
    }
  }

  lemma CapturedPrefix(cycles: seq<Cycle>, k: nat)
    requires AllCaptured(cycles) && k <= |cycles|
    ensures AllCaptured(cycles[..k])
  {
    var before := cycles[..k];
    forall j | 0 <= j < |before| ensures before[j].fileCreated {
      assert before[j] == cycles[j];
    }
  }

  lemma BlocksSingle(c: Cycle)
    ensures Blocks([c]) == CycleActions(c)
  {
    assert [c][..0] == [];
    assert FlatMap([c], CycleActions) == FlatMap([], CycleActions) + CycleActions(c);
  }

  /** While every capture leaves its file, the trace is cycle after cycle of the four
      steps, capture to csi_{id}.pcap, upload of window id, removal of that file, sleep:
      cycle k's block follows the 4k actions of the cycles before it. */
  lemma CapturedBlocks(before: seq<Cycle>, c: Cycle, after: seq<Cycle>)
    requires AllCaptured(before) && c.fileCreated
    ensures |Blocks(before)| == 4 * |before|
    ensures Blocks(before + [c] + after) == Blocks(before) + CapturedCycle(c) + Blocks(after)
  {
    CapturedLength(before);
    BlocksSingle(c);
    BlocksAppend(before, [c]);
    BlocksAppend(before + [c], after);
  }

  /** The run stops at the first cycle without a capture file: it is the last cycle run. */
  lemma {:induction false} RunEndsAtMissingFile(cycles: seq<Cycle>)
    requires !AllCaptured(cycles)
    ensures |Run(cycles)| > 0 && !Run(cycles)[|Run(cycles)| - 1].fileCreated
    ensures AllCaptured(Run(cycles)[..|Run(cycles)| - 1])
  {
    if cycles[0].fileCreated {
      var rest := cycles[1..];
      assert !AllCaptured(rest) by {
        var j :| 0 <= j < |cycles| && !cycles[j].fileCreated;
        assert rest[j - 1] == cycles[j];
      }
      RunEndsAtMissingFile(rest);
      var ran := Run(cycles);
      assert ran == [cycles[0]] + Run(rest);
      var head, restHead := ran[..|ran| - 1], Run(rest)[..|Run(rest)| - 1];
      forall j | 0 <= j < |head| ensures head[j].fileCreated {
        if j > 0 {
          assert head[j] == restHead[j - 1];
        }
      }
    }
  }

  /** A run that meets a missing capture file ends on its `os.remove`, never on a sleep. */
  lemma CrashEndsOnRemove(cycles: seq<Cycle>)
    requires !AllCaptured(cycles)
    ensures var trace := Blocks(Run(cycles));
      var c := Run(cycles)[|Run(cycles)| - 1];
      |trace| > 0 && trace[|trace| - 1] == Remove(PcapPath(c.clock))
  {
    RunEndsAtMissingFile(cycles);
  }

  /** A cycle without a capture file after captured ones is the last one run. */
  lemma CrashAt(cycles: seq<Cycle>, k: nat)
    requires k < |cycles| && AllCaptured(cycles[..k]) && !cycles[k].fileCreated
    ensures Run(cycles) == cycles[..k + 1] && !AllCaptured(cycles)
  {
    RunAfterCaptured(cycles, k);
    assert cycles[..k] + [cycles[k]] == cycles[..k + 1];
  }

  /** With every capture file present, every cycle runs. */
  lemma AllRun(cycles: seq<Cycle>)
    requires AllCaptured(cycles[..|cycles|])
    ensures Run(cycles) == cycles && AllCaptured(cycles)
  {
    assert cycles[..|cycles|] == cycles;
    RunAfterCaptured(cycles, |cycles|);
    assert cycles[|cycles|..] == [];
  }

  /** One pass of the loop body (lines 76-92): the actions it takes, in order, and the
      upload it makes of its window. */
  method RunCycle(db: Database, c: Cycle, format: Format) returns (acts: seq<Action>)
    modifies db
    ensures acts == CycleActions(c)
    ensures db.data == ApplyWrites(old(db.data), WindowPath("realtime", c.clock), UploadWrites(Decoded(c), format, c.failAt))
  {
    var timestampId := c.clock;
    var pcapPath := PcapPath(timestampId);
    acts := [Capture(CaptureCommand(pcapPath))];
    var _ := Upload(db, Decoded(c), timestampId, format, c.failAt);
    acts := acts + [UploadWindow(timestampId), Remove(pcapPath)];
    if c.fileCreated {
      acts := acts + [Sleep(1)];
    }
  }

  /** `capture_and_upload()` over a finite run of cycles (the source loops forever).
      `crashed` tells that the run ended on the exception from `os.remove`. */
  method CaptureAndUpload(db: Database, cycles: seq<Cycle>, format: Format) returns (trace: seq<Action>, crashed: bool)
    modifies db
    ensures trace == Blocks(Run(cycles))
    ensures crashed == !AllCaptured(cycles)
    ensures db.data == Uploads(old(db.data), Run(cycles), format)
  {
    trace := [];
    crashed := false;
    var k := 0;
    while k < |cycles|
      invariant 0 <= k <= |cycles|
      invariant AllCaptured(cycles[..k])
      invariant trace == Blocks(cycles[..k])
      invariant db.data == Uploads(old(db.data), cycles[..k], format)
    {
      var c := cycles[k];
      RunStep(old(db.data), cycles, k, format);
      var acts := RunCycle(db, c, format);
      trace := trace + acts;
      if !c.fileCreated {
        CrashAt(cycles, k);
        crashed := true;
        return;
      }
      CapturedStep(cycles, k);
      k := k + 1;
    }
    assert cycles[..k] == cycles;
    AllRun(cycles);
  }
}
