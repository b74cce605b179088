/**
 * The server-side predictor (heatmappredict.py): on each notification below
 * /csidata it parses the path into (category, index), reads the window
 * /csidata/{category}/{index}, rebuilds it as a [1, 224, 224, 3] tensor,
 * classifies it and writes {label, confidence, timestamp} to
 * /prediction/{category}/{index}.
 */
module Consumer {
  import opened Wrappers
  import opened Text
  import opened Store
  import opened Layout

  /** `class_labels`. */
  const ClassLabels: seq<string> := ["empty", "sitdown"]

  /** `range(20)`: the packets a window must hold. */
  const WindowSize: nat := 20

  type Matrix = seq<seq<real>>
  type Tensor = seq<seq<seq<seq<real>>>>

  /** The library calls, left opaque: `float(v)` (None when it raises ValueError),
      `cv2.resize(m, (224, 224))`, and the classifier's output for one input. */
  datatype Env = Env(parse: string -> Option<real>, resize: Matrix -> Matrix, classify: Tensor -> seq<real>)

  /** The classifier scores exactly the labels the consumer knows. */
  ghost predicate ClassifierFits(env: Env)
  {
    forall t :: |env.classify(t)| == |ClassLabels|
  }

  /** The exceptions the handler can meet; only ValueError is caught, by `listener`. */
  datatype Error =
    | ValueError        // float() on a bad token, or rows of unequal length for np.array
    | TypeError         // a scalar snapshot probed with `in` or indexed by a key
    | AttributeError    // `.split` on a child that is not a string
    | ResizeError       // cv2.resize on an empty matrix

  /** The result of a step that may find nothing (`return None`), succeed, or raise. */
  datatype Outcome<T> = Missing | Ready(value: T) | Raised(error: Error)

  // ---------------------------------------------------------------------
  // Reading the window

  /** `[float(v) for v in tokens]`, None when some token does not parse. */
  function ParseAll(tokens: seq<string>, parse: string -> Option<real>): (r: Option<seq<real>>)
    ensures r.Some? <==> forall k :: 0 <= k < |tokens| ==> parse(tokens[k]).Some?
    ensures r.Some? ==> |r.value| == |tokens| && forall k :: 0 <= k < |tokens| ==> parse(tokens[k]) == Some(r.value[k])
  {
    if |tokens| == 0 then Some([])
    else
      match parse(tokens[0])
      case None => None
      case Some(x) =>
        match ParseAll(tokens[1..], parse)
        case None => None
        case Some(xs) => Some([x] + xs)
  }

  /** One stored packet turned into a row: `[float(v) for v in s.split(',') if v.strip()]`. */
  function ParseRow(node: Node, parse: string -> Option<real>): (r: Outcome<seq<real>>)
    ensures !r.Missing?
  {
    match node
    case Leaf(Text(s)) =>
      (match ParseAll(NonBlank(Split(s, ',')), parse)
       case None => Raised(ValueError)
       case Some(row) => Ready(row))
    case _ => Raised(AttributeError)
  }

  /** A row exists exactly for a string child whose non-blank tokens all parse, and then it
      holds their values in order; a string with a bad token raises ValueError, and any
      other child AttributeError. */
  lemma ParseRowMeaning(node: Node, parse: string -> Option<real>)
    ensures !ParseRow(node, parse).Missing?
    ensures ParseRow(node, parse).Ready? <==>
              node.Leaf? && node.v.Text? && forall k :: 0 <= k < |NonBlank(Split(node.v.s, ','))| ==> parse(NonBlank(Split(node.v.s, ','))[k]).Some?
    ensures ParseRow(node, parse).Ready? ==>
              var tokens := NonBlank(Split(node.v.s, ','));
              var row := ParseRow(node, parse).value;
              |row| == |tokens| && forall k :: 0 <= k < |tokens| ==> parse(tokens[k]) == Some(row[k])
    ensures ParseRow(node, parse).Raised? ==>
              ParseRow(node, parse).error == (if node.Leaf? && node.v.Text? then ValueError else AttributeError)
  {
    if node.Leaf? && node.v.Text? {
      var tokens := NonBlank(Split(node.v.s, ','));
      var parsed := ParseAll(tokens, parse);
      assert ParseRow(node, parse) == if parsed.Some? then Ready(parsed.value) else Raised(ValueError);
    }
  }

  /** The rows of packets 0 .. n-1, read in order; the first missing key gives None,
      the first failing packet raises. */
  function ReadPackets(children: map<string, Node>, n: nat, parse: string -> Option<real>): Outcome<Matrix>
  {
    if n == 0 then Ready([])
    else
      match ReadPackets(children, n - 1, parse)
      case Ready(rows) =>
        var key := PacketKey(n - 1);
        if key !in children then Missing
        else
          var row := ParseRow(children[key], parse);
          if row.Ready? then Ready(rows + [row.value]) else Raised(row.error)
      case other => other
  }

  /** Python truthiness of a scalar snapshot. */
  predicate Truthy(v: Value)
  {
    match v
    case Text(s) => s != ""
    case Number(x) => x != 0.0
    case Integer(n) => n != 0
  }

  /** `get_heatmap_from_firebase` up to the list of rows. */
  function ReadWindow(snapshot: Snapshot, parse: string -> Option<real>): Outcome<Matrix>
  {
    match snapshot
    case Null => Missing
    case Scalar(v) =>
      if !Truthy(v) then Missing
      else if v.Text? && !Contains(v.s, PacketKey(0)) then Missing
      else Raised(TypeError)
    case Object(children) => ReadPackets(children, WindowSize, parse)
  }

  // ---------------------------------------------------------------------
  // From rows to the classifier input

  predicate Rectangular(m: Matrix)
  {
    forall i :: 0 <= i < |m| ==> |m[i]| == |m[0]|
  }

  /** `np.expand_dims(np.stack([m] * 3, axis=-1), axis=0)`. */
  function ToTensor(m: Matrix): (t: Tensor)
    ensures |t| == 1 && |t[0]| == |m|
    ensures forall i :: 0 <= i < |m| ==> |t[0][i]| == |m[i]|
    ensures forall i, j :: 0 <= i < |m| && 0 <= j < |m[i]| ==> t[0][i][j] == [m[i][j], m[i][j], m[i][j]]
  {
    [seq(|m|, i requires 0 <= i < |m| => seq(|m[i]|, j requires 0 <= j < |m[i]| => [m[i][j], m[i][j], m[i][j]]))]
  }

  /** A tensor of shape [1, H, W, 3] (rows may differ in width, as a list of lists can). */
  predicate ThreeChannels(t: Tensor)
  {
    |t| == 1 && forall i, j :: 0 <= i < |t[0]| && 0 <= j < |t[0][i]| ==> |t[0][i][j]| == 3
  }

  /** Channel `c` of a [1, H, W, 3] tensor, as a matrix. */
  function Channel(t: Tensor, c: nat): Matrix
    requires ThreeChannels(t) && c < 3
  {
    seq(|t[0]|, i requires 0 <= i < |t[0]| => seq(|t[0][i]|, j requires 0 <= j < |t[0][i]| => t[0][i][j][c]))
  }

  /** Every channel of the replicated tensor is the matrix it was built from. */
  lemma ChannelsOfTensor(m: Matrix, c: nat)
    requires c < 3
    ensures Channel(ToTensor(m), c) == m
  {
    var t := ToTensor(m);
    var ch := Channel(t, c);
    assert |ch| == |m|;
    forall i | 0 <= i < |m| ensures ch[i] == m[i] {
      assert |ch[i]| == |m[i]|;
      forall j | 0 <= j < |m[i]| ensures ch[i][j] == m[i][j] {
        assert t[0][i][j] == [m[i][j], m[i][j], m[i][j]];
      }
    }
  }

  /** `np.array(csi_list)`, `cv2.resize` and the channel stack: a tensor with one batch
      entry whose three channels are each the resized matrix, built only from a
      non-empty rectangular list of rows. */
  function Reconstruct(rows: Matrix, env: Env): (r: Outcome<Tensor>)
    ensures !r.Missing?
    ensures r.Ready? <==> Rectangular(rows) && |rows| > 0 && |rows[0]| > 0
    ensures r.Raised? ==> r.error == (if Rectangular(rows) then ResizeError else ValueError)
    ensures r.Ready? ==> ThreeChannels(r.value) && forall c :: 0 <= c < 3 ==> Channel(r.value, c) == env.resize(rows)
  {
    if !Rectangular(rows) then Raised(ValueError)
    else if |rows| == 0 || |rows[0]| == 0 then Raised(ResizeError)
    else
      var m := env.resize(rows);
      assert forall c :: 0 <= c < 3 ==> Channel(ToTensor(m), c) == m by {
        forall c | 0 <= c < 3 ensures Channel(ToTensor(m), c) == m {
          ChannelsOfTensor(m, c);
        }
      }
      Ready(ToTensor(m))
  }

  /** `get_heatmap_from_firebase(category, index)` as a function of the store. */
  function Heatmap(data: map<Path, Value>, category: string, index: int, env: Env): Outcome<Tensor>
  {
    match ReadWindow(Read(data, WindowPath(category, index)), env.parse)
    case Ready(rows) => Reconstruct(rows, env)
    case Missing => Missing
    case Raised(e) => Raised(e)
  }

  /** A non-empty rectangular matrix becomes the three-channel tensor of its resized copy. */
  lemma ReconstructReady(rows: Matrix, env: Env)
    requires Rectangular(rows) && |rows| > 0 && |rows[0]| > 0
    ensures Reconstruct(rows, env) == Ready(ToTensor(env.resize(rows)))
  {
  }

  lemma {:induction false} ReadPacketsStays(children: map<string, Node>, m: nat, n: nat, parse: string -> Option<real>)
    requires m <= n
    requires !ReadPackets(children, m, parse).Ready?
    ensures ReadPackets(children, n, parse) == ReadPackets(children, m, parse)
    decreases n
  {
    if n > m {
      ReadPacketsStays(children, m, n - 1, parse);
    }
  }

  /** Lines 37-45: the loop over `range(20)` that collects the rows of an object snapshot,
      returning on the first missing packet and raising on the first bad one. */
  method CollectRows(children: map<string, Node>, parse: string -> Option<real>) returns (r: Outcome<Matrix>)
    ensures r == ReadPackets(children, WindowSize, parse)
  {
    var csiList: Matrix := [];
    var i := 0;
    while i < WindowSize
      invariant 0 <= i <= WindowSize
      invariant ReadPackets(children, i, parse) == Ready(csiList)
    {
      var key := PacketKey(i);
      if key !in children {
        ReadPacketsStays(children, i + 1, WindowSize, parse);
        return Missing;
      }
      var row := ParseRow(children[key], parse);
      if !row.Ready? {
        ReadPacketsStays(children, i + 1, WindowSize, parse);
        return Raised(row.error);
      }
      csiList := csiList + [row.value];
      i := i + 1;
    }
    r := Ready(csiList);
  }

  /** `get_heatmap_from_firebase(category, index)`. */
  method GetHeatmap(db: Database, category: string, index: int, env: Env) returns (r: Outcome<Tensor>)
    ensures r == Heatmap(db.data, category, index, env)
  {
    var snapshot := db.Get(WindowPath(category, index));
    var rows: Outcome<Matrix>;
    if snapshot.Null? {
      rows := Missing;
    } else if snapshot.Scalar? {
      var v := snapshot.v;
      if !Truthy(v) {
        rows := Missing;
      } else if v.Text? && !Contains(v.s, PacketKey(0)) {
        rows := Missing;
      } else {
        rows := Raised(TypeError);
      }
    } else {
      rows := CollectRows(snapshot.children, env.parse);
    }
    assert rows == ReadWindow(snapshot, env.parse);
    match rows
    case Missing => r := Missing;
    case Raised(e) => r := Raised(e);
    case Ready(csiList) => r := Reconstruct(csiList, env);
  }

  // ---------------------------------------------------------------------
  // Prediction

  /** `np.argmax`: the first index of the largest score. */
  function ArgMax(xs: seq<real>): (k: nat)
    requires |xs| > 0
    ensures k < |xs|
    ensures forall j :: 0 <= j < |xs| ==> xs[j] <= xs[k]
    ensures forall j :: 0 <= j < k ==> xs[j] < xs[k]
  {
    if |xs| == 1 then 0
    else
      var k := ArgMax(xs[..|xs| - 1]);
      if xs[|xs| - 1] > xs[k] then |xs| - 1 else k
  }

  /** The stored prediction: `{'label', 'confidence', 'timestamp'}`. */
  datatype Record = Record(labelName: string, confidence: real, timestamp: int)

  /** Lines 63-66 of `run_prediction`: the label of the arg-max and the maximum score. */
  function Select(scores: seq<real>, now: int): (r: Record)
    requires |scores| == |ClassLabels|
    ensures exists k :: 0 <= k < |scores| && r.labelName == ClassLabels[k] && r.confidence == scores[k]
                        && (forall j :: 0 <= j < |scores| ==> scores[j] <= scores[k])
                        && (forall j :: 0 <= j < k ==> scores[j] < scores[k])
    ensures r.timestamp == now
  {
    var k := ArgMax(scores);
    Record(ClassLabels[k], scores[k], now)
  }

  function RecordFields(r: Record): seq<(string, Value)>
  {
    [("label", Text(r.labelName)), ("confidence", Number(r.confidence)), ("timestamp", Integer(r.timestamp))]
  }

  /** The store after the record is written at `path`. */
  function WithRecord(data: map<Path, Value>, path: Path, r: Record): map<Path, Value>
  {
    PutAll(Clear(data, path), path, RecordFields(r))
  }

  /** `run_prediction(category, index)` as a function of the store: the record it writes, if any. */
  function Prediction(data: map<Path, Value>, category: string, index: int, env: Env, now: int): Outcome<Record>
    requires ClassifierFits(env)
  {
    match Heatmap(data, category, index, env)
    case Missing => Missing
    case Raised(e) => Raised(e)
    case Ready(t) => Ready(Select(env.classify(t), now))
  }

  /** `run_prediction(category, index)`; `now` is `int(time.time())`. */
  method RunPrediction(db: Database, category: string, index: int, env: Env, now: int) returns (r: Outcome<Record>)
    requires ClassifierFits(env)
    modifies db
    ensures r == Prediction(old(db.data), category, index, env, now)
    ensures db.data == if r.Ready? then WithRecord(old(db.data), PredictionPath(category, index), r.value) else old(db.data)
  {
    var tensor := GetHeatmap(db, category, index, env);
    if !tensor.Ready? {
      return if tensor.Missing? then Missing else Raised(tensor.error);
    }
    var predictions := env.classify(tensor.value);
    var record := Select(predictions, now);
    db.SetChildren(PredictionPath(category, index), RecordFields(record));
    return Ready(record);
  }

  // ---------------------------------------------------------------------
  // Dispatch

  /** A notification: its path relative to /csidata, and whether its data is None. */
  datatype Event = Event(path: string, dataIsNone: bool)

  /** What `listener` decides from the event alone. */
  datatype Route = Ignore | BadIndex(text: string) | Predict(category: string, index: int)

  function PathParts(path: string): seq<string>
  {
    Split(StripChar(path, '/'), '/')
  }

  /** Lines 81-88 of `listener`. */
  function RouteEvent(e: Event): (r: Route)
    ensures r.Predict? <==> !e.dataIsNone && |PathParts(e.path)| == 2 && ParseInt(PathParts(e.path)[1]).Some?
    ensures r.Predict? ==> r.category == PathParts(e.path)[0] && ParseInt(PathParts(e.path)[1]) == Some(r.index)
    ensures r.BadIndex? <==> !e.dataIsNone && |PathParts(e.path)| == 2 && ParseInt(PathParts(e.path)[1]).None?
  {
    if e.dataIsNone then Ignore
    else
      var parts := PathParts(e.path);
      if |parts| != 2 then Ignore
      else
        match ParseInt(parts[1])
        case None => BadIndex(parts[1])
        case Some(index) => Predict(parts[0], index)
  }

  /** How one call of `listener` ends. */
  datatype Handled =
    | Ignored                        // no data, or not a two-segment path
    | Rejected                       // the `except ValueError` branch
    | NoData                         // the window was absent or incomplete
    | Escaped(error: Error)          // an exception other than ValueError left the listener
    | Published(path: Path, record: Record)

  /** What `listener` does once the route is decided: run the prediction, and turn
      its ValueError into the `except` branch. */
  function Dispatch(data: map<Path, Value>, route: Route, env: Env, now: int): Handled
    requires ClassifierFits(env)
  {
    match route
    case Ignore => Ignored
    case BadIndex(_) => Rejected
    case Predict(category, index) =>
      match Prediction(data, category, index, env, now)
      case Missing => NoData
      case Raised(ValueError) => Rejected
      case Raised(err) => Escaped(err)
      case Ready(r) => Published(PredictionPath(category, index), r)
  }

  /** `listener(event)` as a function of the store. */
  function Handle(data: map<Path, Value>, e: Event, env: Env, now: int): Handled
    requires ClassifierFits(env)
  {
    Dispatch(data, RouteEvent(e), env, now)
  }

  /** The dispatch the uploader needs: besides `/{category}/{index}`, also the
      notification of one packet written below a window, `/{category}/{index}/{packet}`. */
  function RouteEventCorrected(e: Event): (r: Route)
    ensures r.Predict? <==> !e.dataIsNone && 2 <= |PathParts(e.path)| <= 3 && ParseInt(PathParts(e.path)[1]).Some?
    ensures r.Predict? ==> r.category == PathParts(e.path)[0] && ParseInt(PathParts(e.path)[1]) == Some(r.index)
    ensures r.BadIndex? <==> !e.dataIsNone && 2 <= |PathParts(e.path)| <= 3 && ParseInt(PathParts(e.path)[1]).None?
  {
    if e.dataIsNone then Ignore
    else
      var parts := PathParts(e.path);
      if |parts| != 2 && |parts| != 3 then Ignore
      else
        match ParseInt(parts[1])
        case None => BadIndex(parts[1])
        case Some(index) => Predict(parts[0], index)
  }

  /** The listener with the corrected dispatch. */
  function HandleCorrected(data: map<Path, Value>, e: Event, env: Env, now: int): Handled
    requires ClassifierFits(env)
  {
    Dispatch(data, RouteEventCorrected(e), env, now)
  }

  /** The corrected dispatch agrees with the original on every event the original accepts. */
  lemma CorrectedExtendsRoute(e: Event)
    requires !RouteEvent(e).Ignore?
    ensures RouteEventCorrected(e) == RouteEvent(e)
  {
  }

  /** `listener(event)`. */
  method Listener(db: Database, e: Event, env: Env, now: int) returns (h: Handled)
    requires ClassifierFits(env)
    modifies db
    ensures h == Handle(old(db.data), e, env, now)
    ensures db.data == if h.Published? then WithRecord(old(db.data), h.path, h.record) else old(db.data)
  {
    if e.dataIsNone {
      return Ignored;
    }
    var parts := PathParts(e.path);
    if |parts| != 2 {
      return Ignored;
    }
    var category, indexText := parts[0], parts[1];
    var index := ParseInt(indexText);
    if index.None? {
      return Rejected;
    }
    var r := RunPrediction(db, category, index.value, env, now);
    match r
    case Missing => h := NoData;
    case Raised(ValueError) => h := Rejected;
    case Raised(err) => h := Escaped(err);
    case Ready(record) => h := Published(PredictionPath(category, index.value), record);
  }

  // ---------------------------------------------------------------------
  // What a read window is

  /** A packet that yields a row: a string child whose non-blank tokens all parse. */
  predicate PacketOk(children: map<string, Node>, i: nat, parse: string -> Option<real>)
  {
    PacketKey(i) in children && ParseRow(children[PacketKey(i)], parse).Ready?
  }

  /** One more packet: the window stays readable when that packet is there and parses,
      and is missing when the earlier ones are readable and its key is absent. */
  lemma ReadPacketsStep(children: map<string, Node>, n: nat, parse: string -> Option<real>)
    requires n > 0
    ensures ReadPackets(children, n, parse).Ready? <==> ReadPackets(children, n - 1, parse).Ready? && PacketOk(children, n - 1, parse)
    ensures ReadPackets(children, n - 1, parse).Ready? && PacketKey(n - 1) !in children ==> ReadPackets(children, n, parse) == Missing
  {
  }

  lemma {:induction false} ReadyPacketOk(children: map<string, Node>, n: nat, i: nat, parse: string -> Option<real>)
    requires ReadPackets(children, n, parse).Ready?
    requires i < n
    ensures PacketOk(children, i, parse)
  {
    ReadPacketsStep(children, n, parse);
    if i < n - 1 {
      ReadyPacketOk(children, n - 1, i, parse);
    }
  }

  lemma ReadyPacketsOk(children: map<string, Node>, n: nat, parse: string -> Option<real>)
    requires ReadPackets(children, n, parse).Ready?
    ensures forall i :: 0 <= i < n ==> PacketOk(children, i, parse)
  {
    forall i | 0 <= i < n ensures PacketOk(children, i, parse) {
      ReadyPacketOk(children, n, i, parse);
    }
  }

  lemma {:induction false} OkPacketsReady(children: map<string, Node>, n: nat, parse: string -> Option<real>)
    requires forall i :: 0 <= i < n ==> PacketOk(children, i, parse)
    ensures ReadPackets(children, n, parse).Ready?
  {
    if n > 0 {
      OkPacketsReady(children, n - 1, parse);
      assert PacketOk(children, n - 1, parse);
      ReadPacketsStep(children, n, parse);
    }
  }

  /** The rows are read exactly when each of packets 0 .. n-1 is present and parses. */
  lemma ReadPacketsReady(children: map<string, Node>, n: nat, parse: string -> Option<real>)
    ensures ReadPackets(children, n, parse).Ready? <==> forall i :: 0 <= i < n ==> PacketOk(children, i, parse)
  {
    if ReadPackets(children, n, parse).Ready? {
      ReadyPacketsOk(children, n, parse);
    }
    if forall i :: 0 <= i < n ==> PacketOk(children, i, parse) {
      OkPacketsReady(children, n, parse);
    }
  }

  /** Read rows are one per packet, in packet order: row i is packet i's row. */
  lemma {:induction false} ReadPacketsRows(children: map<string, Node>, n: nat, parse: string -> Option<real>)
    requires ReadPackets(children, n, parse).Ready?
    ensures |ReadPackets(children, n, parse).value| == n
    ensures forall i :: 0 <= i < n ==>
              PacketKey(i) in children && ParseRow(children[PacketKey(i)], parse) == Ready(ReadPackets(children, n, parse).value[i])
  {
    if n > 0 {
      var earlier := ReadPackets(children, n - 1, parse);
      assert earlier.Ready?;
      ReadPacketsRows(children, n - 1, parse);
      var key := PacketKey(n - 1);
      assert key in children;
      var row := ParseRow(children[key], parse);
      assert row.Ready?;
      var rows := earlier.value + [row.value];
      assert ReadPackets(children, n, parse) == Ready(rows);
      forall i | 0 <= i < n ensures PacketKey(i) in children && ParseRow(children[PacketKey(i)], parse) == Ready(rows[i]) {
        if i < n - 1 {
          assert rows[i] == earlier.value[i];
        }
      }
    }
  }

  /** When packet i parses to row i of `m` for every i < n, the rows read are the first n of `m`. */
  lemma ReadPacketsOf(children: map<string, Node>, m: Matrix, n: nat, parse: string -> Option<real>)
    requires n <= |m|
    requires forall i :: 0 <= i < n ==> PacketKey(i) in children && ParseRow(children[PacketKey(i)], parse) == Ready(m[i])
    ensures ReadPackets(children, n, parse) == Ready(m[..n])
  {
    assert forall i :: 0 <= i < n ==> PacketOk(children, i, parse);
    OkPacketsReady(children, n, parse);
    ReadPacketsRows(children, n, parse);
    var rows := ReadPackets(children, n, parse).value;
    forall i | 0 <= i < n ensures rows[i] == m[i] {
      assert ParseRow(children[PacketKey(i)], parse) == Ready(rows[i]);
    }
    assert rows == m[..n];
  }

  /** The first packet key that is absent makes the whole window None. */
  lemma {:induction false} FirstGapIsMissing(children: map<string, Node>, n: nat, i: nat, parse: string -> Option<real>)
    requires i < n
    requires PacketKey(i) !in children
    requires forall j :: 0 <= j < i ==> PacketOk(children, j, parse)
    ensures ReadPackets(children, n, parse) == Missing
  {
    OkPacketsReady(children, i, parse);
    ReadPacketsStep(children, i + 1, parse);
    ReadPacketsStays(children, i + 1, n, parse);
  }

  /** Children other than packet_0 .. packet_{n-1} do not change what is read. */
  lemma {:induction false} OnlyPacketKeysRead(c1: map<string, Node>, c2: map<string, Node>, n: nat, parse: string -> Option<real>)
    requires forall i :: 0 <= i < n ==> (PacketKey(i) in c1 <==> PacketKey(i) in c2)
    requires forall i :: 0 <= i < n && PacketKey(i) in c1 ==> c1[PacketKey(i)] == c2[PacketKey(i)]
    ensures ReadPackets(c1, n, parse) == ReadPackets(c2, n, parse)
  {
    if n > 0 {
      OnlyPacketKeysRead(c1, c2, n - 1, parse);
    }
  }

  /** A published record comes from a complete window: all twenty packets present,
      row i parsed from packet i, and the record scores the replicated, resized rows. */
  lemma PublishedFromCompleteWindow(data: map<Path, Value>, e: Event, env: Env, now: int)
    requires ClassifierFits(env)
    requires Handle(data, e, env, now).Published?
    ensures RouteEvent(e).Predict?
    ensures var route := RouteEvent(e);
      var snapshot := Read(data, WindowPath(route.category, route.index));
      && snapshot.Object?
      && ReadPackets(snapshot.children, WindowSize, env.parse).Ready?
      && var rows := ReadPackets(snapshot.children, WindowSize, env.parse).value;
         && |rows| == WindowSize
         && (forall i :: 0 <= i < WindowSize ==>
               PacketKey(i) in snapshot.children && ParseRow(snapshot.children[PacketKey(i)], env.parse) == Ready(rows[i]))
         && Handle(data, e, env, now).path == PredictionPath(route.category, route.index)
         && Handle(data, e, env, now).record == Select(env.classify(ToTensor(env.resize(rows))), now)
  {
    var route := RouteEvent(e);
    assert route.Predict?;
    var snapshot := Read(data, WindowPath(route.category, route.index));
    var window := ReadWindow(snapshot, env.parse);
    assert Prediction(data, route.category, route.index, env, now).Ready?;
    assert window.Ready? && Heatmap(data, route.category, route.index, env) == Reconstruct(window.value, env);
    assert snapshot.Object?;
    ReadPacketsRows(snapshot.children, WindowSize, env.parse);
  }

  // ---------------------------------------------------------------------
  // Dispatch properties

  lemma SplitFirstEmpty(t: string, sep: char)
    requires |Split(t, sep)| >= 2 && Split(t, sep)[0] == ""
    ensures |t| > 0 && t[0] == sep
  {
  }

  /** A dispatched category is a non-empty key without '/'. */
  lemma RoutedCategory(e: Event)
    requires RouteEvent(e).Predict?
    ensures RouteEvent(e).category != "" && '/' !in RouteEvent(e).category
  {
    var t := StripChar(e.path, '/');
    if Split(t, '/')[0] == "" {
      SplitFirstEmpty(t, '/');
    }
  }

  /** The path `/k0/k1/...` of non-empty keys without '/' splits back into the keys. */
  lemma PathPartsOfJoin(parts: seq<string>)
    requires |parts| >= 1
    requires forall k :: 0 <= k < |parts| ==> parts[k] != "" && '/' !in parts[k]
    ensures PathParts("/" + Join(parts, '/')) == parts
  {
    var s := Join(parts, '/');
    JoinEnds(parts, '/');
    assert s[0] != '/' && s[|s| - 1] != '/';
    StripLeading(s, '/');
    SplitJoin(parts, '/');
  }

  /** The decimal form of an integer holds no '/'. */
  lemma NoSlashInNumber(n: int)
    ensures '/' !in IntToString(n)
  {
  }

  /** The event for window (c, n) dispatches to (c, n): the path parse inverts `/{c}/{n}`. */
  lemma RouteWindowEvent(c: string, n: int)
    requires c != "" && '/' !in c
    ensures RouteEvent(Event("/" + c + "/" + IntToString(n), false)) == Predict(c, n)
  {
    var txt := IntToString(n);
    NoSlashInNumber(n);
    assert "/" + c + "/" + txt == "/" + Join([c, txt], '/');
    PathPartsOfJoin([c, txt]);
    ParseIntToString(n);
  }

  /** Writing a record under /prediction leaves every window snapshot under /csidata as it was. */
  lemma RecordKeepsWindows(data: map<Path, Value>, category: string, index: int, r: Record, c: string, i: int)
    ensures Read(WithRecord(data, PredictionPath(category, index), r), WindowPath(c, i)) == Read(data, WindowPath(c, i))
  {
    var pp := PredictionPath(category, index);
    var after := WithRecord(data, pp, r);
    var wp := WindowPath(c, i);
    forall q | IsPrefix(wp, q) ensures (q in after <==> q in data) && (q in data ==> after[q] == data[q]) {
      assert q[0] == "csidata";
      assert q[0] != pp[0];
      forall k | 0 <= k < |RecordFields(r)| ensures q != pp + [RecordFields(r)[k].0] {
        assert (pp + [RecordFields(r)[k].0])[0] == "prediction";
      }
      PutAllFrame(Clear(data, pp), pp, RecordFields(r), q);
    }
    ReadSameBelow(after, data, wp);
  }

  /** Handling the same event again, after the first record was written and with the
      window unchanged, publishes the same label and confidence at the same path. */
  lemma HandleTwice(data: map<Path, Value>, e: Event, env: Env, now1: int, now2: int)
    requires ClassifierFits(env)
    requires Handle(data, e, env, now1).Published?
    ensures var first := Handle(data, e, env, now1);
      var second := Handle(WithRecord(data, first.path, first.record), e, env, now2);
      && second.Published? && second.path == first.path
      && second.record.labelName == first.record.labelName
      && second.record.confidence == first.record.confidence
      && second.record.timestamp == now2
  {
    var route := RouteEvent(e);
    var first := Handle(data, e, env, now1);
    var after := WithRecord(data, first.path, first.record);
    RecordKeepsWindows(data, route.category, route.index, first.record, route.category, route.index);
    assert Heatmap(after, route.category, route.index, env) == Heatmap(data, route.category, route.index, env);
    var t := Heatmap(data, route.category, route.index, env).value;
    assert Prediction(after, route.category, route.index, env, now2) == Ready(Select(env.classify(t), now2));
  }
}
