# CSIStudyTracker, modelled in Dafny

CSIStudyTracker watches a room through Wi-Fi channel state information (CSI).

- **Producer.** A Raspberry Pi runs `raspi_csi_to_firebase.py`. Each cycle it captures 20 frames with tcpdump into `csi_{id}.pcap`. It decodes the packets into amplitude vectors and writes them to a Firebase realtime database as comma-joined strings under `/csidata/realtime/{id}/packet_i`. Then it removes the capture file and sleeps one second.
- **Consumer.** A server runs `heatmappredict.py`, listening on `/csidata`.
  - For a notification at `/{category}/{index}`, it reads `packet_0` … `packet_19` of that window and parses each back into a row of floats.
  - It turns the rows into a `[1, 224, 224, 3]` tensor (resize, then three identical channels).
  - It classifies the tensor and writes `{label, confidence, timestamp}` to `/prediction/{category}/{index}`.
- **Offline scripts.** `Keras_model/training.py` labels heatmap images by the category name that occurs in the file name and counts them per category. `Keras_model/validation.py` does the following:
  - labels a random selection of `.png` files in the same way;
  - classifies them in batches of eight;
  - counts correct and incorrect predictions.

The model keeps each script's own form:

- The database is a class over a map from paths to leaf values.
- The upload, the capture loop, the window read, the listener and the script loops are methods. Those with loops carry loop invariants.
- Each method is proved against a specification function, and the properties are lemmas about those functions.

Each file and what it holds:

| file | module | what it holds |
|---|---|---|
| `wrappers.dfy` | `Wrappers` | `Option`, and `Min` |
| `text.dfy` | `Text` | the Python string operations the scripts use (`split`, `join`, `strip`, `lower`, `in`, `str(int)`, `int(str)`) and their round trips |
| `store.dfy` | `Store` | the realtime database: the tree semantics of `set`, and the snapshot `get` returns |
| `layout.dfy` | `Layout` | the key layout both sides share: `packet_i`, `/csidata/{c}/{i}` and `/prediction/{c}/{i}` |
| `producer.dfy` | `Producer` | `upload_csi_to_firebase` and `capture_and_upload` |
| `consumer.dfy` | `Consumer` | `get_heatmap_from_firebase`, `run_prediction` and `listener` |
| `pipeline.dfy` | `Pipeline` | the producer's writes read back by the consumer, and the notification defect |
| `training.dfy` | `Training` | the labelling and counting loop of the training script |
| `validation.dfy` | `Validation` | the selection, labelling, batching and counting of the validation script |

The code is modelled as written. Three of its behaviours are worth stating:

- **Cleanup.** When tcpdump left no capture file, `os.remove` raises. Nothing catches that exception, so the loop ends before its sleep. This is `Producer.Run`, `Producer.CycleActions` and `Producer.CrashEndsOnRemove`.
- **Capture timeout.** The tcpdump call has no timeout, so the model has none.
- **Partial windows.** A window with a missing packet is rejected only when nothing was written under its id before. A stale `packet_j` from an earlier upload to the same id survives a later upload and can fill its hole. `Producer.UploadFrame` shows the survival. `Pipeline.FreshWindowRead` therefore requires `Pipeline.Fresh`.

Opaque parts are parameters:

- `str` and `float` on floats: `format: real -> string` and `parse: string -> Option<real>`. `Pipeline.CodecOn` states what the round trip needs of the amplitudes of one packet, and `Pipeline.WindowCodec` of the packets of a window.
- `cv2.resize`, the classifier, and `cv2.imread` plus preprocessing: `Consumer.Env` and the `load`/`classify` parameters of `Validation`.
- The clock: `now` and `Cycle.clock`.
- What the decoder returns: `decoded`.
- Which write raises: `failAt`.

## Model

| member | source | states |
|---|---|---|
| Text.NonBlank | heatmappredict.py:42 | keeps only tokens that are not blank after `strip()`; `Text.NonBlankAppend` and `Text.NonBlankMembers` state which ones and in what order |
| Text.NonBlankAppend | heatmappredict.py:42 | the blank filter of two lists one after the other is the filter of the first followed by the filter of the second, so the kept tokens stay in order |
| Text.NonBlankMembers | heatmappredict.py:42 | a token is kept exactly when it is in the list and not blank after `strip()` |
| Text.NonBlankKeepsAll | heatmappredict.py:42 | a list of non-blank tokens passes the blank filter unchanged |
| Text.Strip | heatmappredict.py:84 | stripping never lengthens a string, leaves no stripped character at either end, and leaves a string without one as it is; `Text.StripSlice` states that the result is a slice |
| Text.StripSlice | heatmappredict.py:84 | `strip()` and `strip("/")` return a slice `s[i:j]` of the string: everything before i and from j on is stripped characters, and the slice neither starts nor ends with one |
| Text.StripLeading | heatmappredict.py:84 | one leading `/` in front of a path that neither starts nor ends with `/` is all that `strip("/")` removes |
| Text.Split | heatmappredict.py:84 | `split(sep)` yields at least one piece, and no piece contains the separator |
| Text.SplitJoinsBack | heatmappredict.py:84 | joining the pieces of `split(sep)` with the separator gives the string back |
| Text.SplitJoin | raspi_csi_to_firebase.py:60 | splitting a separator-join of separator-free pieces gives the pieces back in order |
| Text.JoinEnds | raspi_csi_to_firebase.py:60 | a join of non-empty pieces starts with the first piece's first character and ends with the last piece's last character |
| Text.TokensRoundTrip | heatmappredict.py:42 | splitting a comma-join of non-blank, comma-free tokens and dropping blanks gives exactly the tokens |
| Text.ContainsAt | Keras_model/training.py:38 | `sub in s` holds when `sub` occurs at some position of `s` |
| Text.ContainsWhere | Keras_model/training.py:38 | when `sub in s` holds, it returns a position where `sub` occurs |
| Text.MissingCharNotContained | Keras_model/validation.py:46-51 | a string lacking a character of `sub` does not contain `sub` |
| Text.Lower | Keras_model/training.py:38 | `lower()` keeps the length and lowers each character on its own |
| Text.IntToString | raspi_csi_to_firebase.py:76-77 | `str(int)` is a non-empty string of digits with an optional leading minus |
| Text.ParseInt | heatmappredict.py:88 | `int()` succeeds only on a string with something left after stripping whitespace; `Text.ParseIntMeaning` states exactly when it succeeds and with what value |
| Text.ParseIntMeaning | heatmappredict.py:88 | `int()` succeeds exactly on a stripped string of digit groups with an optional sign, and its value is that of the digits, negated after a minus |
| Text.ParseUnsigned | heatmappredict.py:88 | a digit run parses exactly when it is digits with single underscores between them |
| Text.DigitsValueOfNat | heatmappredict.py:88 | the digits of a natural number have that number as their value |
| Text.ParseIntToString | heatmappredict.py:88 | `int(str(n)) == n` for every integer, the round trip between the producer's window id and the listener's index |
| Text.IntToStringInjective | raspi_csi_to_firebase.py:76-77 | different window ids print differently |
| Store.Clear | heatmappredict.py:69-70 | emptying a location removes exactly the stored paths related to it and keeps every other value |
| Store.PutSpec | raspi_csi_to_firebase.py:60 | `set` of a leaf stores the value at the path, keeps every unrelated path with its value, and keeps nothing else |
| Store.PutTree | raspi_csi_to_firebase.py:60 | writing a leaf keeps the store a tree: no stored path lies inside another |
| Store.ChildNames | heatmappredict.py:31-32 | the children of a location are exactly the keys one level below it that lead to stored data |
| Store.Read | heatmappredict.py:31-32 | `get` is null exactly when nothing is at or below the path; a scalar exactly when a leaf is at the path; otherwise an object whose keys are the child names, with each leaf child's value |
| Store.ReadSameBelow | heatmappredict.py:31-32 | two stores that agree at and below a path read the same snapshot there |
| Store.Database.constructor | heatmappredict.py:14-18 | the database starts empty |
| Store.Database.Set | raspi_csi_to_firebase.py:60 | the method's new state is `Put` of the old one |
| Store.Database.SetChildren | heatmappredict.py:70-74 | writing an object replaces the subtree at the path by exactly its children |
| Store.Database.Get | heatmappredict.py:31-32 | returns `Read` of the current state and changes nothing |
| Store.PutAllFrame | heatmappredict.py:70-74 | a location none of the children is written to keeps what it held |
| Layout.PacketKeyInjective | raspi_csi_to_firebase.py:60 | different packet indices never share a `packet_i` key |
| Producer.Tokens | raspi_csi_to_firebase.py:58-60 | one token per amplitude, token k being `str` of amplitude k |
| Producer.WrittenSound | raspi_csi_to_firebase.py:53-60 | each write is of a non-empty packet that no earlier raise stopped, under the packet's own position, as its serialisation |
| Producer.WrittenOrdered | raspi_csi_to_firebase.py:53 | writes go in increasing packet order, so no key is written twice |
| Producer.WrittenComplete | raspi_csi_to_firebase.py:53-60 | every packet that is neither empty nor cut off by a raise is written |
| Producer.WrittenStops | raspi_csi_to_firebase.py:43-65 | a raising write ends the upload: no later packet is written, and the earlier ones stay |
| Producer.SiblingsUnrelated | raspi_csi_to_firebase.py:60 | two different child keys of a window are unrelated locations |
| Producer.ApplyWritesAt | raspi_csi_to_firebase.py:60 | after increasing writes, each written key holds the string of its write |
| Producer.ApplyWritesFrame | raspi_csi_to_firebase.py:49-60 | a location related to no written key keeps what it held |
| Producer.ApplyWritesTree | raspi_csi_to_firebase.py:60 | an upload keeps the store a tree |
| Producer.ApplyWritesOrigin | raspi_csi_to_firebase.py:49-60 | every location after the writes was there before or is one of the written keys |
| Producer.UploadWritesSound | raspi_csi_to_firebase.py:53-60 | at most PACKET_COUNT writes, each under an index below PACKET_COUNT, of a delivered packet, as its serialisation, in increasing index order |
| Producer.DeliveredStored | raspi_csi_to_firebase.py:53-60 | a delivered packet i is stored at `/csidata/realtime/{id}/packet_i` as the comma-join of its amplitudes |
| Producer.UploadedOrigin | raspi_csi_to_firebase.py:49-60 | after an upload, every location was there before or is a delivered packet's key |
| Producer.UploadFrame | raspi_csi_to_firebase.py:49-60 | an upload changes nothing related to no delivered key: other windows, other data and stale packets of the same window are untouched |
| Producer.UploadedNoLeafAtWindow | raspi_csi_to_firebase.py:49-60 | once a packet is delivered, the window location holds no leaf of its own |
| Producer.ProgressWrites | raspi_csi_to_firebase.py:53-60 | writing packet by packet, skipping empty packets and stopping at a raise, is applying the specified writes in order |
| Producer.ApplyWritesSnoc | raspi_csi_to_firebase.py:60 | one more write is a `set` of that packet's string at its own key on top of the earlier writes |
| Producer.Upload | raspi_csi_to_firebase.py:38-65 | the upload returns whether it reached its success message; the new store is the old one after exactly the writes `Producer.UploadWrites` gives, also when decoding or a write raised |
| Producer.Run | raspi_csi_to_firebase.py:74-92 | the loop runs no more cycles than it is given |
| Producer.RunAfterCaptured | raspi_csi_to_firebase.py:74-92 | the cycles whose capture file existed all run, and the rest of the run carries on from there |
| Producer.RunStep | raspi_csi_to_firebase.py:74-92 | one more cycle appends its own actions to the trace and its own upload to the store |
| Producer.CapturedStep | raspi_csi_to_firebase.py:77-88 | a captured cycle extends a run of captured cycles |
| Producer.CapturedBlocks | raspi_csi_to_firebase.py:74-92 | with every file captured, the trace splits at any captured cycle into the 4k actions of the k cycles before it, that cycle's four steps (capture to `csi_{id}.pcap` in CAP_DIR, upload of window id, removal of that file, one-second sleep), and the actions of the cycles after it |
| Producer.CapturedLength | raspi_csi_to_firebase.py:74-92 | a run of captured cycles leaves exactly four actions per cycle |
| Producer.BlocksAppend | raspi_csi_to_firebase.py:74-92 | the actions of two runs of cycles one after the other are the first run's actions followed by the second's |
| Producer.CrashAt | raspi_csi_to_firebase.py:88 | a cycle without a capture file, after cycles that all had theirs, is the last cycle the loop runs |
| Producer.AllRun | raspi_csi_to_firebase.py:74-92 | when every capture leaves its file, every cycle runs |
| Producer.RunCycle | raspi_csi_to_firebase.py:76-92 | one pass of the loop body performs its cycle's actions in order and leaves the store after exactly that cycle's upload |
| Producer.RunEndsAtMissingFile | raspi_csi_to_firebase.py:88 | a run meeting a missing capture file stops at the first such cycle, and every cycle before it had its file |
| Producer.CrashEndsOnRemove | raspi_csi_to_firebase.py:85-92 | such a run ends on the removal of that cycle's file, not on a sleep |
| Producer.CaptureAndUpload | raspi_csi_to_firebase.py:70-92 | the trace is the blocks of the cycles that ran; the method crashes exactly when some capture left no file; the store holds those cycles' uploads in order |
| Consumer.ParseAll | heatmappredict.py:42 | `float` succeeds on the whole list exactly when it succeeds on every token, giving one value per token in order |
| Consumer.ParseRow | heatmappredict.py:41-42 | reading a packet never yields "no data": it gives a row or raises |
| Consumer.ParseRowMeaning | heatmappredict.py:41-42 | a row exists exactly for a string child whose non-blank tokens all parse, and holds their values in order; a bad token raises ValueError, and a non-string child AttributeError |
| Consumer.ToTensor | heatmappredict.py:50-51 | the tensor has a leading batch axis of size 1, and every cell holds three copies of the matrix entry |
| Consumer.ChannelsOfTensor | heatmappredict.py:50 | each of the three channels of the stacked tensor is the matrix itself |
| Consumer.Reconstruct | heatmappredict.py:47-51 | a tensor comes exactly from a non-empty rectangular list of rows, with each channel the resized matrix; ragged rows raise ValueError, and empty ones raise in the resize |
| Consumer.ReadPacketsStays | heatmappredict.py:37-45 | once a packet is missing or fails, reading further packets changes nothing |
| Consumer.CollectRows | heatmappredict.py:37-45 | the `range(20)` loop returns the rows of packets 0..19 in order, none on the first missing key, and the raise of the first bad packet |
| Consumer.ReadPacketsStep | heatmappredict.py:38-45 | reading one more packet keeps the window readable exactly when that packet is present and parses, and gives no data when its key is absent |
| Consumer.GetHeatmap | heatmappredict.py:30-52 | the method's loop returns `Heatmap` of the store: none on an empty or falsy snapshot, none on the first missing packet, the raise of the first bad packet, otherwise the reconstructed tensor |
| Consumer.ArgMax | heatmappredict.py:64 | `np.argmax` is an index of a largest score, and no earlier score is as large |
| Consumer.Select | heatmappredict.py:63-66 | the label is `class_labels` at the arg-max and the confidence is the score there; the timestamp is the current second |
| Consumer.RunPrediction | heatmappredict.py:57-75 | the record equals `Prediction` of the store; it is written under `/prediction/{category}/{index}` exactly when there was a tensor, and otherwise nothing changes |
| Consumer.RouteEvent | heatmappredict.py:80-88 | a prediction runs exactly when data is not None, the stripped path has two segments and the second parses as an integer; a failing parse is rejected, and every other event is ignored |
| Consumer.RouteEventCorrected | heatmappredict.py:84-85 | the corrected routing also accepts three-segment packet notifications, with the same category and index both ways |
| Consumer.CorrectedExtendsRoute | heatmappredict.py:84-88 | the corrected routing agrees with the original on every event the original does not ignore |
| Consumer.Listener | heatmappredict.py:80-92 | the listener's outcome equals `Handle` of the store; the store changes only when a record is published, and then only by that record |
| Consumer.ReadyPacketOk | heatmappredict.py:37-45 | a window read succeeds only if each packet below it is present and parses |
| Consumer.ReadyPacketsOk | heatmappredict.py:37-45 | a successful window read means every one of its packets is present and parses |
| Consumer.OkPacketsReady | heatmappredict.py:37-45 | when every packet is present and parses, the window read succeeds |
| Consumer.ReadPacketsReady | heatmappredict.py:37-45 | the rows are read exactly when each of `packet_0..packet_{n-1}` is present and parses |
| Consumer.ReadPacketsRows | heatmappredict.py:37-45 | exactly n rows are read, row i being packet i's row |
| Consumer.ReadPacketsOf | heatmappredict.py:37-45 | when packet i parses to row i of a matrix for all i < n, the rows read are the matrix's first n rows |
| Consumer.FirstGapIsMissing | heatmappredict.py:44-45 | the first absent packet key gives "no data", never a partial window |
| Consumer.OnlyPacketKeysRead | heatmappredict.py:38-40 | children other than `packet_0..packet_{n-1}` do not change what is read |
| Consumer.PublishedFromCompleteWindow | heatmappredict.py:57-74 | a published record comes from a complete window of 20 packets (row i from packet i), sits at the window's own prediction key, and scores the replicated, resized rows |
| Consumer.SplitFirstEmpty | heatmappredict.py:84 | a split whose first piece is empty, with more pieces after it, comes from a string starting with the separator |
| Consumer.RoutedCategory | heatmappredict.py:84-86 | a routed category is a non-empty key without `/` |
| Consumer.PathPartsOfJoin | heatmappredict.py:84 | the path `/k0/k1/...` of non-empty, slash-free keys parses back into the keys |
| Consumer.NoSlashInNumber | heatmappredict.py:88 | the decimal form of an integer contains no `/` |
| Consumer.RouteWindowEvent | heatmappredict.py:84-88 | the event `/{c}/{n}` routes to exactly category c and index n |
| Consumer.RecordKeepsWindows | heatmappredict.py:69-74 | writing a record under `/prediction` leaves every window snapshot under `/csidata` unchanged |
| Consumer.HandleTwice | heatmappredict.py:80-90 | handling the same event again after its record was written publishes the same label and confidence at the same path, with the new timestamp |
| Pipeline.RowRoundTrip | raspi_csi_to_firebase.py:58-60 | when `str` and `float` agree on the packet's amplitudes, the consumer parses the producer's packet string back into the packet |
| Pipeline.DeliveredRead | raspi_csi_to_firebase.py:53-60 | a delivered packet is a child of the window snapshot, and, when the codec agrees on its amplitudes, the consumer reads it back as the packet |
| Pipeline.UploadReadBack | heatmappredict.py:37-45 | after an upload that delivers packets 0..19, the consumer reads exactly those 20 packets in order, whatever the store held before |
| Pipeline.FirstUndelivered | raspi_csi_to_firebase.py:53-56 | an undelivered packet has a first undelivered packet at or before it |
| Pipeline.UndeliveredAbsent | raspi_csi_to_firebase.py:55-56 | in a fresh window, the key of a packet that was not delivered is absent after the upload |
| Pipeline.UndeliveredNotBelow | raspi_csi_to_firebase.py:55-60 | in a fresh window, no stored location lies at or below the key of a packet that was not delivered |
| Pipeline.GapRejectsWindow | heatmappredict.py:44-45 | in a fresh window, an upload missing any of the first 20 packets (empty vector, short capture, or a raised write) makes the consumer find no data, when the codec agrees on the packets before the gap |
| Pipeline.GapNotReady | heatmappredict.py:37-45 | for any codec, in a fresh window, an upload missing any of the first 20 packets never gives the consumer rows to classify |
| Pipeline.FreshWindowRead | heatmappredict.py:37-45 | on a fresh window the consumer gets the uploaded rows exactly when the upload is complete, and no data otherwise |
| Pipeline.PacketEventParts | raspi_csi_to_firebase.py:60 | the notification of a packet write splits into three keys: `realtime`, the id and `packet_i` |
| Pipeline.UploadEventsIgnored | heatmappredict.py:85 | as written, every notification the producer's writes raise is ignored by the listener |
| Pipeline.UploadPredicted | heatmappredict.py:57-75 | with the corrected routing, any packet's notification, handled after a complete upload of equally long, non-empty packets, publishes the classification of the uploaded rows at `/prediction/realtime/{id}` |
| Training.FirstCategory | Keras_model/training.py:37-41 | the result is the first category from position k on that occurs in the lowered name, and none occurs before it |
| Training.MatchCategory | Keras_model/training.py:36-41 | the for/break search returns `Label`: the first of vacant, studying, sleeping contained in the lower-cased name, with no earlier category contained |
| Training.Counts | Keras_model/training.py:18 | the counter always has exactly the three categories as keys |
| Training.CountOf | Keras_model/training.py:40 | an occurrence count is at most the list's length |
| Training.LoadDataset | Keras_model/training.py:25-61 | the loop builds the specified images, labels and counts, and the script goes on exactly when at least one image was loaded (otherwise ValueError) |
| Training.LoadedShape | Keras_model/training.py:47-48 | images and labels have equal length, and every label is below 3 |
| Training.SkippedFile | Keras_model/training.py:27-30 | an unreadable or unmatched file adds no image and no label, and changes no count |
| Training.AddedFile | Keras_model/training.py:40-48 | a readable, matched file appends its image and label, and raises only its own category's count, by one |
| Training.CountsAreLabelCounts | Keras_model/training.py:40 | each category's counter is the number of labels naming it |
| Training.CountOfThree | Keras_model/training.py:14 | labels below three split into the three counts |
| Training.CountsSum | Keras_model/training.py:40-48 | the three counters add up to `len(labels)` |
| Validation.PngFiles | Keras_model/validation.py:37 | every candidate is a listed name ending in `.png` |
| Validation.PngFilesComplete | Keras_model/validation.py:37 | no listed `.png` name is dropped |
| Validation.SameLabelsAsTraining | Keras_model/validation.py:46-51 | validation labels a name exactly as training does, with the same class order |
| Validation.LabelsOf | Keras_model/validation.py:46-53 | there are never more labels than names |
| Validation.CollectImages | Keras_model/validation.py:42-53 | every selected name becomes an image path, and the labels are those of the names with a class, in order |
| Validation.LabelsOfLength | Keras_model/validation.py:42-53 | there are as many labels as images exactly when every selected name contains a class name |
| Validation.Predictions | Keras_model/validation.py:62-73 | one prediction per readable image, in order, each the image's classification |
| Validation.ReadableAppend | Keras_model/validation.py:62-65 | the readable images of two consecutive slices are those of the first followed by those of the second |
| Validation.PredictionsAppend | Keras_model/validation.py:70-73 | predicting two consecutive slices gives the first's predictions followed by the second's |
| Validation.LoadBatch | Keras_model/validation.py:61-65 | the images of a batch that `load_and_prepare` can read, in order, the others skipped |
| Validation.PredictInBatches | Keras_model/validation.py:59-73 | the stepped batch loop, skipping empty batches, yields exactly the per-image predictions of the readable images in order |
| Validation.Batches | Keras_model/validation.py:59-60 | every batch holds between 1 and BATCH_SIZE paths |
| Validation.BatchAt | Keras_model/validation.py:59-60 | there are ceil(n/8) batches, and batch k is the slice `[8k, min(8k+8, n))` |
| Validation.BatchesCover | Keras_model/validation.py:59-60 | together the batches are the whole image list, in order |
| Validation.PredictEach | Keras_model/validation.py:70-72 | one prediction list per batch, each that batch's predictions |
| Validation.PredictionsByBatch | Keras_model/validation.py:59-73 | predicting batch by batch gives the batches' predictions one after another, which are the predictions of the whole list |
| Validation.ReadableLength | Keras_model/validation.py:62-65 | there are at most as many predictions as images, and as many exactly when every image can be read |
| Validation.Matches | Keras_model/validation.py:82 | the agreement count of two equal-length lists is at most their length |
| Validation.NumpyMatches | Keras_model/validation.py:82 | the comparison yields a count exactly when the lengths are equal or one side has length one, and raises otherwise |
| Validation.Validate | Keras_model/validation.py:42-83 | the script's statements in order compute `Evaluate` of the selection |
| Validation.CountedBounds | Keras_model/validation.py:82-83 | correct plus incorrect is `len(predicted_classes)`; with equal lengths incorrect is never negative; it is negative only when one prediction is broadcast over several labels |
| Validation.AlignedTally | Keras_model/validation.py:82-83 | the intended counts, over each labelled and readable image's own prediction and label, are never negative and add up to the number of such images |
| Validation.LastSelected | Keras_model/validation.py:42-73 | a labelled, readable name at the end adds one prediction, one label and one pair |
| Validation.MatchesSnoc | Keras_model/validation.py:82 | appending one pair adds one agreement exactly when the two agree |
| Validation.AlignedWhenNothingSkipped | Keras_model/validation.py:42-83 | with every name labelled and every image readable, predictions, labels and pairs have equal length, and the script counts the agreements of the pairs |
| Validation.AgreesWhenNothingSkipped | Keras_model/validation.py:42-83 | in that case the script's counts are the intended ones |
| Validation.ReadableSnoc | Keras_model/validation.py:62-65 | one more path adds its image exactly when it can be read |
| Validation.LabelsSnoc | Keras_model/validation.py:42-53 | one more name adds its class as a label exactly when it has one |
| Validation.PairsSnoc | Keras_model/validation.py:42-73 | one more name adds an aligned (prediction, label) pair exactly when it has a class and its image can be read |
| Validation.VacantName | Keras_model/validation.py:46-47 | a name starting with "vacant" gets class 0 |
| Validation.NoClassIn | Keras_model/validation.py:46-53 | a name with no v, u or l (either case) gets no class |
| Validation.NotesHasNoClass | Keras_model/validation.py:46-53 | "notes.png" gets no class |
| Validation.UnlabelledFirst | Keras_model/validation.py:42-83 | for any two readable names, the first without a class and classified 2, the second of class 0 and classified 0, the script counts 1 correct and 1 incorrect, while the intended counts are 1 and 0 |
| Validation.UnlabelledNameMiscounts | Keras_model/validation.py:42-53 | for "notes.png" then "vacant_1.png", all readable, the script counts 1 correct and 1 incorrect, while the intended counts are 1 and 0 |
| Validation.OnlyFirstReadable | Keras_model/validation.py:42-83 | for any three names of class 0 of which only the first can be read, classified 0, the script counts 3 correct and -2 incorrect, while the intended counts are 1 and 0 |
| Validation.UnreadableImageMiscounts | Keras_model/validation.py:62-83 | for three "vacant" names of which only the first is readable, the script counts 3 correct and -2 incorrect, while the intended counts are 1 and 0 |

## Left out

- Firebase initialisation, network transport and the threading of `ref.listen`. The database is an in-memory `Store.Database`, and each notification is an explicit `Consumer.Listener` call with an `Event`.
- Which notifications Firebase delivers. `Pipeline.WriteEvent` models the notification a leaf write raises: its path relative to `/csidata`. The initial notification of the whole tree, at path `/`, has no model. `"/".strip("/")` is the empty string, which splits into one empty segment, so the listener ignores it in any case.
- Firebase turns objects whose keys look like array indices into arrays. The keys here (`packet_i`, `label`, ...) never do, so this is not modelled.
- tcpdump, `os.remove`, `os.makedirs`, `time.sleep` and `time.time`. They are external side effects. The model records them as `Producer.Action` values in a trace. A `Producer.Cycle` says whether the capture left a file and what the clock read.
- The capture loop runs forever. `Producer.CaptureAndUpload` runs a finite list of cycles. The `KeyboardInterrupt` handler around it is not modelled.
- The nexcsi decoder and `np.abs` of complex values. Their result is the parameter `decoded`: a list of amplitude vectors, or None when reading or unpacking raised.
- What `str(float)` prints and what `float(str)` accepts. They are the opaque `format` and `parse`. The round-trip lemmas require, through `Pipeline.CodecOn` and `Pipeline.WindowCodec`, that each printed amplitude of the packets read is non-blank, has no comma, and parses back to the amplitude. Whether it does for a given float is left to those parameters.
- `cv2.resize` (bilinear interpolation), `cv2.imread`, the colour conversion, the `float32` cast and the `/ 255.0` normalisation. These are floating-point library code, passed in as opaque functions.
- Keras, sklearn and matplotlib: model loading, `predict` of a batch, training, the train/test split, one-hot encoding, the confusion matrix and the plots.
- `Validation.PredictInBatches`: each image's prediction is `classify` of that image alone. A batched `model.predict` is assumed to score each image independently of its batch-mates.
- `random.sample` and `NUM_IMAGES`. The selection is an argument, and the model's results hold for any selection, so its size bound (`min(NUM_IMAGES, len(files))` distinct `.png` names) is not modelled.
- The floating-point accuracy ratio at Keras_model/validation.py:78. It is the integer counts over `len(predicted_classes)`, and only the counts are modelled. The ratio's comparison raises in the same cases that `Validation.NumpyMatches` returns None for.
- `Consumer.Reconstruct`: ragged rows raise ValueError, as `np.array` does from numpy 1.24 on. Older numpy builds an object array from them with a warning, and `cv2.resize` then raises `cv2.error`, which nothing catches. The model follows the newer behaviour.
- `Validation.NumpyMatches`: older numpy releases returned a plain False, with a warning, for arrays of incompatible lengths instead of raising. The model follows the raising behaviour.
- The label-set mismatch. `class_labels` has 2 entries in heatmappredict.py:25, while the training categories number 3. `Consumer.ClassifierFits` requires the classifier's output length to equal `len(class_labels)`, rather than modelling an IndexError.
- `Text.Lower` lowers only ASCII letters. `Text.ParseInt` accepts only ASCII digits and whitespace as `int()` does for them; Python also accepts other Unicode digits. The names and keys involved are ASCII.
- The `os.path.join(image_folder, f)` prefix of the validation image paths. A selected name stands for its path.
- android/app/build.gradle.kts is build configuration.

## Findings

| source | as written | input that shows it | evidently intended | confidence | as-written member | corrected member |
|---|---|---|---|---|---|---|
| Keras_model/validation.py:42-53 | the image path is appended before the class test, so a name without a class keeps its image but gets no label, and the predictions and labels fall out of step | selection `["notes.png", "vacant_1.png"]`, all readable, classified 2 and 0: the script compares `[2, 0]` with `[0]` and counts 1 correct and 1 incorrect | each prediction compared with its own image's label: 1 correct, 0 incorrect | not executed | Validation.UnlabelledNameMiscounts | Validation.AlignedTally |
| Keras_model/validation.py:62-73 | an unreadable image loses its prediction but keeps its label; numpy then broadcasts a single prediction over every label | selection `["vacant_a.png", "vacant_b.png", "vacant_c.png"]` with only the first readable and classified 0: 3 correct and -2 incorrect | 1 correct, 0 incorrect; the incorrect count never negative | not executed | Validation.UnreadableImageMiscounts | Validation.AlignedTally |
| heatmappredict.py:85 | the listener acts only on two-segment paths, but every uploader write is the leaf `/csidata/realtime/{id}/packet_i`, whose notification path `/realtime/{id}/packet_i` has three segments, so no upload ever triggers a prediction | the write of `packet_0` for id 1700000000 raises the event path `/realtime/1700000000/packet_0`, which is ignored | a packet notification dispatches to its window `(realtime, id)`: once the upload is complete, the prediction is published at `/prediction/realtime/{id}` | not executed | Pipeline.UploadEventsIgnored | Pipeline.UploadPredicted |

About the corrected members:

- `Validation.AlignedTally` counts over each labelled, readable image's own prediction–label pair. It is proved never negative, with the two counts adding up to the number of pairs.
- `Validation.AgreesWhenNothingSkipped` shows that the script's counts equal the corrected ones whenever nothing is skipped.
- `Consumer.RouteEventCorrected` accepts the three-segment packet notifications as well. `Consumer.CorrectedExtendsRoute` shows it agrees with the original routing on every event the original accepts.
