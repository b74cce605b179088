/**
 * The validation script (Keras_model/validation.py): a random selection of the
 * folder's .png files is labelled by name, classified in batches of eight, and
 * the predictions are compared with the labels.
 */
module Validation {
  import opened Wrappers
  import opened Text
  import Training

  /** `class_labels`, the classes of the trained model. */
  const ClassLabels: seq<string> := ["vacant", "studying", "sleeping"]
  const BatchSize: nat := 8

  // ---------------------------------------------------------------------
  // Selecting and labelling

  /** Line 37: the names ending in `.png`, in listing order. */
  function PngFiles(names: seq<string>): (files: seq<string>)
    ensures |files| <= |names|
    ensures forall k :: 0 <= k < |files| ==> files[k] in names && EndsWith(files[k], ".png")
  {
    if |names| == 0 then []
    else
      var earlier := PngFiles(names[..|names| - 1]);
      var f := names[|names| - 1];
      if EndsWith(f, ".png") then earlier + [f] else earlier
  }

  /** No .png name is dropped. */
  lemma {:induction false} PngFilesComplete(names: seq<string>, k: nat)
    requires k < |names| && EndsWith(names[k], ".png")
    ensures names[k] in PngFiles(names)
  {
    var earlier := names[..|names| - 1];
    if k < |names| - 1 {
      PngFilesComplete(earlier, k);
      assert earlier[k] == names[k];
    }
  }

  /** Lines 46-53: vacant, else studying, else sleeping, on the lower-cased name. */
  function ClassOf(f: string): Option<nat>
  {
    var lowered := Lower(f);
    if Contains(lowered, "vacant") then Some(0)
    else if Contains(lowered, "studying") then Some(1)
    else if Contains(lowered, "sleeping") then Some(2)
    else None
  }

  /** Validation labels a name exactly as training does, with the same class order. */
  lemma SameLabelsAsTraining(f: string)
    ensures ClassOf(f) == Training.Label(f)
    ensures ClassLabels == Training.Categories
  {
    var lowered := Lower(f);
    assert Training.Label(f) == Training.FirstCategory(lowered, 0);
    assert Training.FirstCategory(lowered, 1) == (if Contains(lowered, "studying") then Some(1) else Training.FirstCategory(lowered, 2));
    assert Training.FirstCategory(lowered, 2) == (if Contains(lowered, "sleeping") then Some(2) else Training.FirstCategory(lowered, 3));
  }

  /** The labels lines 46-53 append for the selected names, in order. */
  function LabelsOf(names: seq<string>): (labels: seq<nat>)
    ensures |labels| <= |names|
  {
    if |names| == 0 then []
    else
      var earlier := LabelsOf(names[..|names| - 1]);
      match ClassOf(names[|names| - 1])
      case Some(k) => earlier + [k]
      case None => earlier
  }

  /** Lines 42-53: every selected name becomes an image path (before it is classified),
      and only a name with a class becomes a label. */
  method CollectImages(selected: seq<string>) returns (allImages: seq<string>, allLabels: seq<nat>)
    ensures allImages == selected
    ensures allLabels == LabelsOf(selected)
  {
    allImages := [];
    allLabels := [];
    for i := 0 to |selected|
      invariant allImages == selected[..i]
      invariant allLabels == LabelsOf(selected[..i])
    {
      var f := selected[i];
      assert selected[..i + 1][..i] == selected[..i];
      allImages := allImages + [f];
      var lowered := Lower(f);
      if Contains(lowered, "vacant") {
        allLabels := allLabels + [0];
      } else if Contains(lowered, "studying") {
        allLabels := allLabels + [1];
      } else if Contains(lowered, "sleeping") {
        allLabels := allLabels + [2];
      } else {
        continue;
      }
    }
    assert selected[..|selected|] == selected;
  }

  /** There are never more labels than images, and as many exactly when every name has a class. */
  lemma {:induction false} LabelsOfLength(names: seq<string>)
    ensures |LabelsOf(names)| == |names| <==> forall i :: 0 <= i < |names| ==> ClassOf(names[i]).Some?
  {
    if |names| > 0 {
      var earlier := names[..|names| - 1];
      LabelsOfLength(earlier);
      if forall i :: 0 <= i < |names| ==> ClassOf(names[i]).Some? {
        assert forall i :: 0 <= i < |earlier| ==> ClassOf(earlier[i]).Some? by {
          forall i | 0 <= i < |earlier| ensures ClassOf(earlier[i]).Some? {
            assert earlier[i] == names[i];
          }
        }
      }
      if ClassOf(names[|names| - 1]).Some? && |LabelsOf(names)| == |names| {
        forall i | 0 <= i < |names| ensures ClassOf(names[i]).Some? {
          if i < |earlier| {
            assert earlier[i] == names[i];
          }
        }
      }
    }
  }

  // ---------------------------------------------------------------------
  // Batched prediction

  /** The images `load_and_prepare` returns for the paths it can read, in order. */
  function Readable<I>(paths: seq<string>, load: string -> Option<I>): seq<I>
  {
    if |paths| == 0 then []
    else
      var earlier := Readable(paths[..|paths| - 1], load);
      match load(paths[|paths| - 1])
      case Some(img) => earlier + [img]
      case None => earlier
  }

  /** One predicted class per readable image, in order; `classify` is the arg-max of the
      model's output row for that image. */
  function Predictions<I>(paths: seq<string>, load: string -> Option<I>, classify: I -> nat): (pred: seq<nat>)
    ensures |pred| == |Readable(paths, load)|
    ensures forall k :: 0 <= k < |pred| ==> pred[k] == classify(Readable(paths, load)[k])
  {
    var imgs := Readable(paths, load);
    seq(|imgs|, k requires 0 <= k < |imgs| => classify(imgs[k]))
  }

  lemma {:induction false} ReadableAppend<I>(xs: seq<string>, ys: seq<string>, load: string -> Option<I>)
    ensures Readable(xs + ys, load) == Readable(xs, load) + Readable(ys, load)
    decreases |ys|
  {
    if |ys| > 0 {
      var ys0 := ys[..|ys| - 1];
      assert (xs + ys)[..|xs + ys| - 1] == xs + ys0;
      ReadableAppend(xs, ys0, load);
    } else {
      assert xs + ys == xs;
    }
  }

  lemma PredictionsAppend<I>(xs: seq<string>, ys: seq<string>, load: string -> Option<I>, classify: I -> nat)
    ensures Predictions(xs + ys, load, classify) == Predictions(xs, load, classify) + Predictions(ys, load, classify)
  {
    ReadableAppend(xs, ys, load);
  }

  /** The images of one batch that can be read, in order; the others are skipped. */
  method LoadBatch<I>(batchPaths: seq<string>, load: string -> Option<I>) returns (batchImgs: seq<I>)
    ensures batchImgs == Readable(batchPaths, load)
  {
    batchImgs := [];
    for j := 0 to |batchPaths|
      invariant batchImgs == Readable(batchPaths[..j], load)
    {
      assert batchPaths[..j + 1] == batchPaths[..j] + [batchPaths[j]];
      ReadableSnoc(batchPaths[..j], batchPaths[j], load);
      var img := load(batchPaths[j]);
      if img.Some? {
        batchImgs := batchImgs + [img.value];
      }
    }
    assert batchPaths[..|batchPaths|] == batchPaths;
  }

  /** Lines 59-73: slices of BATCH_SIZE paths; the readable images of a slice are stacked
      and classified, and a slice with none is skipped. */
  method PredictInBatches<I>(allImages: seq<string>, load: string -> Option<I>, classify: I -> nat)
    returns (predictedClasses: seq<nat>)
    ensures predictedClasses == Predictions(allImages, load, classify)
  {
    predictedClasses := [];
    var s := 0;
    while s < |allImages|
      invariant 0 <= s <= |allImages| + BatchSize
      invariant predictedClasses == Predictions(allImages[..Min(s, |allImages|)], load, classify)
    {
      var e := Min(s + BatchSize, |allImages|);
      var batchPaths := allImages[s..e];
      var batchImgs := LoadBatch(batchPaths, load);
      assert allImages[..e] == allImages[..s] + batchPaths;
      PredictionsAppend(allImages[..s], batchPaths, load, classify);
      if |batchImgs| == 0 {
        s := s + BatchSize;
        continue;
      }
      var batchPred := seq(|batchImgs|, k requires 0 <= k < |batchImgs| => classify(batchImgs[k]));
      predictedClasses := predictedClasses + batchPred;
      s := s + BatchSize;
    }
    assert allImages[..|allImages|] == allImages;
  }

  /** The slices `all_images[s:s + BATCH_SIZE]` for s = 0, 8, 16, ... below the length. */
  function Batches<T>(xs: seq<T>): (bs: seq<seq<T>>)
    ensures forall k :: 0 <= k < |bs| ==> 1 <= |bs[k]| <= BatchSize
    decreases |xs|
  {
    if |xs| == 0 then []
    else
      var m := Min(BatchSize, |xs|);
      [xs[..m]] + Batches(xs[m..])
  }

  function Concat<T>(bs: seq<seq<T>>): seq<T>
  {
    if |bs| == 0 then [] else bs[0] + Concat(bs[1..])
  }

  /** Batch k is the slice starting at k * BATCH_SIZE, and there are just enough batches. */
  lemma {:induction false} BatchAt<T>(xs: seq<T>, k: nat)
    ensures |Batches(xs)| == (|xs| + BatchSize - 1) / BatchSize
    ensures k < |Batches(xs)| ==> Batches(xs)[k] == xs[k * BatchSize..Min(k * BatchSize + BatchSize, |xs|)]
    decreases |xs|
  {
    if |xs| > 0 {
      var m := Min(BatchSize, |xs|);
      if k > 0 {
        BatchAt(xs[m..], k - 1);
        if k < |Batches(xs)| {
          var lo := (k - 1) * BatchSize;
          var hi := Min(lo + BatchSize, |xs| - m);
          assert m == BatchSize && m + lo == k * BatchSize;
          assert m + hi == Min(k * BatchSize + BatchSize, |xs|);
          SuffixSlice(xs, m, lo, hi);
        }
      } else {
        BatchAt(xs[m..], 0);
      }
    }
  }

  lemma SuffixSlice<T>(xs: seq<T>, m: nat, lo: nat, hi: nat)
    requires m <= |xs| && lo <= hi <= |xs| - m
    ensures xs[m..][lo..hi] == xs[m + lo..m + hi]
  {
  }

  /** Together the batches are the whole list, in order. */
  lemma {:induction false} BatchesCover<T>(xs: seq<T>)
    ensures Concat(Batches(xs)) == xs
    decreases |xs|
  {
    if |xs| > 0 {
      var m := Min(BatchSize, |xs|);
      BatchesCover(xs[m..]);
      assert ([xs[..m]] + Batches(xs[m..]))[1..] == Batches(xs[m..]);
      assert xs[..m] + xs[m..] == xs;
    }
  }

  /** The predictions of each batch, batch by batch. */
  function PredictEach<I>(bs: seq<seq<string>>, load: string -> Option<I>, classify: I -> nat): (ps: seq<seq<nat>>)
    ensures |ps| == |bs|
    ensures forall k :: 0 <= k < |bs| ==> ps[k] == Predictions(bs[k], load, classify)
  {
    if |bs| == 0 then [] else [Predictions(bs[0], load, classify)] + PredictEach(bs[1..], load, classify)
  }

  /** Predicting batch by batch gives the batches' predictions one after another. */
  lemma {:induction false} PredictionsByBatch<I>(xs: seq<string>, load: string -> Option<I>, classify: I -> nat)
    ensures Predictions(xs, load, classify) == Concat(PredictEach(Batches(xs), load, classify))
    decreases |xs|
  {
    if |xs| > 0 {
      var m := Min(BatchSize, |xs|);
      var rest := xs[m..];
      PredictionsByBatch(rest, load, classify);
      var bs := Batches(xs);
      assert bs == [xs[..m]] + Batches(rest);
      assert bs[1..] == Batches(rest);
      assert xs == xs[..m] + rest;
      PredictionsAppend(xs[..m], rest, load, classify);
    } else {
      assert Readable(xs, load) == [];
    }
  }

  /** At most one prediction per image. */
  lemma {:induction false} ReadableLength<I>(paths: seq<string>, load: string -> Option<I>)
    ensures |Readable(paths, load)| <= |paths|
    ensures |Readable(paths, load)| == |paths| <==> forall i :: 0 <= i < |paths| ==> load(paths[i]).Some?
  {
    if |paths| > 0 {
      var earlier := paths[..|paths| - 1];
      ReadableLength(earlier, load);
      if forall i :: 0 <= i < |paths| ==> load(paths[i]).Some? {
        forall i | 0 <= i < |earlier| ensures load(earlier[i]).Some? {
          assert earlier[i] == paths[i];
        }
      }
      if load(paths[|paths| - 1]).Some? && |Readable(paths, load)| == |paths| {
        forall i | 0 <= i < |paths| ensures load(paths[i]).Some? {
          if i < |earlier| {
            assert earlier[i] == paths[i];
          }
        }
      }
    }
  }

  // ---------------------------------------------------------------------
  // Counting, as written

  /** The number of positions at which two equally long lists agree. */
  function Matches(xs: seq<nat>, ys: seq<nat>): (n: nat)
    requires |xs| == |ys|
    ensures n <= |xs|
  {
    if |xs| == 0 then 0
    else Matches(xs[..|xs| - 1], ys[..|ys| - 1]) + (if xs[|xs| - 1] == ys[|ys| - 1] then 1 else 0)
  }

  /** `np.sum(predicted_classes == all_labels)`: numpy compares position by position when
      the lengths agree, compares every element with the single one of a length-one side,
      and raises ValueError (None) for any other pair of lengths. */
  function NumpyMatches(pred: seq<nat>, labels: seq<nat>): (r: Option<nat>)
    ensures r.Some? <==> |pred| == |labels| || |pred| == 1 || |labels| == 1
  {
    if |pred| == |labels| then Some(Matches(pred, labels))
    else if |pred| == 1 then Some(Training.CountOf(labels, pred[0]))
    else if |labels| == 1 then Some(Training.CountOf(pred, labels[0]))
    else None
  }

  /** `correct_count` and `incorrect_count`. */
  datatype Tally = Tally(correct: nat, incorrect: int)

  /** Lines 82-83. */
  function Counted(pred: seq<nat>, labels: seq<nat>): Option<Tally>
  {
    match NumpyMatches(pred, labels)
    case None => None
    case Some(c) => Some(Tally(c, |pred| - c))
  }

  /** The whole script as written, from the selection to the two counts. */
  function Evaluate<I>(selected: seq<string>, load: string -> Option<I>, classify: I -> nat): Option<Tally>
  {
    Counted(Predictions(selected, load, classify), LabelsOf(selected))
  }

  /** Lines 42-83 in order. */
  method Validate<I>(selected: seq<string>, load: string -> Option<I>, classify: I -> nat) returns (r: Option<Tally>)
    ensures r == Evaluate(selected, load, classify)
  {
    var allImages, allLabels := CollectImages(selected);
    var predictedClasses := PredictInBatches(allImages, load, classify);
    r := Counted(predictedClasses, allLabels);
  }

  /** When the lists are equally long the counts partition the predictions; the incorrect
      count can only go negative when a single prediction is broadcast over more labels. */
  lemma CountedBounds(pred: seq<nat>, labels: seq<nat>)
    ensures Counted(pred, labels).Some? ==> Counted(pred, labels).value.correct + Counted(pred, labels).value.incorrect == |pred|
    ensures |pred| == |labels| ==> Counted(pred, labels).Some? && Counted(pred, labels).value.incorrect >= 0
    ensures Counted(pred, labels).Some? && Counted(pred, labels).value.incorrect < 0 ==> |pred| == 1 && |labels| > 1
  {
  }

  // ---------------------------------------------------------------------
  // Counting, as intended

  /** The (predicted, label) pairs the script is meant to compare: each selected image
      that has a class and can be read, classified, beside its own label. */
  function Pairs<I>(selected: seq<string>, load: string -> Option<I>, classify: I -> nat): seq<(nat, nat)>
  {
    if |selected| == 0 then []
    else
      var earlier := Pairs(selected[..|selected| - 1], load, classify);
      var f := selected[|selected| - 1];
      if ClassOf(f).Some? && load(f).Some? then earlier + [(classify(load(f).value), ClassOf(f).value)]
      else earlier
  }

  /** The predictions of the pairs, in order. */
  function Firsts(pairs: seq<(nat, nat)>): (xs: seq<nat>)
    ensures |xs| == |pairs|
  {
    if |pairs| == 0 then [] else Firsts(pairs[..|pairs| - 1]) + [pairs[|pairs| - 1].0]
  }

  /** The labels of the pairs, in order. */
  function Seconds(pairs: seq<(nat, nat)>): (ys: seq<nat>)
    ensures |ys| == |pairs|
  {
    if |pairs| == 0 then [] else Seconds(pairs[..|pairs| - 1]) + [pairs[|pairs| - 1].1]
  }

  /** The number of pairs whose prediction is their label: `Matches` of the two sides. */
  function Agreeing(pairs: seq<(nat, nat)>): nat
  {
    Matches(Firsts(pairs), Seconds(pairs))
  }

  /** The counts over the aligned pairs: never negative, and together the number of
      images that were both labelled and read. */
  function AlignedTally<I>(selected: seq<string>, load: string -> Option<I>, classify: I -> nat): (t: Tally)
    ensures t.incorrect >= 0
    ensures t.correct + t.incorrect == |Pairs(selected, load, classify)|
  {
    var pairs := Pairs(selected, load, classify);
    Tally(Agreeing(pairs), |pairs| - Agreeing(pairs))
  }

  /** A labelled, readable name at the end adds one prediction, one label and one pair. */
  lemma LastSelected<I>(earlier: seq<string>, f: string, load: string -> Option<I>, classify: I -> nat)
    requires ClassOf(f).Some? && load(f).Some?
    ensures Predictions(earlier + [f], load, classify) == Predictions(earlier, load, classify) + [classify(load(f).value)]
    ensures LabelsOf(earlier + [f]) == LabelsOf(earlier) + [ClassOf(f).value]
    ensures Pairs(earlier + [f], load, classify) == Pairs(earlier, load, classify) + [(classify(load(f).value), ClassOf(f).value)]
  {
    assert (earlier + [f])[..|earlier|] == earlier;
    ReadableAppend(earlier, [f], load);
    assert [f][..0] == [];
    PredictionsAppend(earlier, [f], load, classify);
  }

  lemma MatchesSnoc(xs: seq<nat>, ys: seq<nat>, x: nat, y: nat)
    requires |xs| == |ys|
    ensures Matches(xs + [x], ys + [y]) == Matches(xs, ys) + (if x == y then 1 else 0)
  {
    assert (xs + [x])[..|xs|] == xs;
    assert (ys + [y])[..|ys|] == ys;
  }

  lemma AgreeingSnoc(pairs: seq<(nat, nat)>, p: (nat, nat))
    ensures Agreeing(pairs + [p]) == Agreeing(pairs) + (if p.0 == p.1 then 1 else 0)
  {
    assert (pairs + [p])[..|pairs|] == pairs;
    MatchesSnoc(Firsts(pairs), Seconds(pairs), p.0, p.1);
  }

  lemma AgreeingSingle(p: (nat, nat))
    ensures Agreeing([p]) == if p.0 == p.1 then 1 else 0
  {
    assert [p] == [] + [p];
    AgreeingSnoc([], p);
  }

  /** With every selected name labelled and every image readable, the predictions and the
      labels are the two sides of the aligned pairs, so they agree as often as the pairs do. */
  lemma {:induction false} AlignedWhenNothingSkipped<I>(selected: seq<string>, load: string -> Option<I>, classify: I -> nat)
    requires forall i :: 0 <= i < |selected| ==> ClassOf(selected[i]).Some? && load(selected[i]).Some?
    ensures |Predictions(selected, load, classify)| == |LabelsOf(selected)| == |Pairs(selected, load, classify)|
    ensures Matches(Predictions(selected, load, classify), LabelsOf(selected)) == Agreeing(Pairs(selected, load, classify))
  {
    if |selected| > 0 {
      var earlier := selected[..|selected| - 1];
      var f := selected[|selected| - 1];
      forall i | 0 <= i < |earlier| ensures ClassOf(earlier[i]).Some? && load(earlier[i]).Some? {
        assert earlier[i] == selected[i];
      }
      AlignedWhenNothingSkipped(earlier, load, classify);
      assert selected == earlier + [f];
      LastSelected(earlier, f, load, classify);
      MatchesSnoc(Predictions(earlier, load, classify), LabelsOf(earlier), classify(load(f).value), ClassOf(f).value);
      AgreeingSnoc(Pairs(earlier, load, classify), (classify(load(f).value), ClassOf(f).value));
    }
  }

  /** So in that case the script's counts are exactly the aligned ones: the defect shows
      only when a name or an image is skipped. */
  lemma AgreesWhenNothingSkipped<I>(selected: seq<string>, load: string -> Option<I>, classify: I -> nat)
    requires forall i :: 0 <= i < |selected| ==> ClassOf(selected[i]).Some? && load(selected[i]).Some?
    ensures Evaluate(selected, load, classify) == Some(AlignedTally(selected, load, classify))
  {
    AlignedWhenNothingSkipped(selected, load, classify);
  }

  // ---------------------------------------------------------------------
  // The two misalignments, on concrete selections

  /** One more selected name adds its image when it can be read... */
  lemma ReadableSnoc<I>(earlier: seq<string>, f: string, load: string -> Option<I>)
    ensures Readable(earlier + [f], load) == Readable(earlier, load) + (if load(f).Some? then [load(f).value] else [])
  {
    assert (earlier + [f])[..|earlier|] == earlier;
  }

  /** ... its label when it has a class ... */
  lemma LabelsSnoc(earlier: seq<string>, f: string)
    ensures LabelsOf(earlier + [f]) == LabelsOf(earlier) + (if ClassOf(f).Some? then [ClassOf(f).value] else [])
  {
    assert (earlier + [f])[..|earlier|] == earlier;
  }

  /** ... and an aligned pair when it has both. */
  lemma PairsSnoc<I>(earlier: seq<string>, f: string, load: string -> Option<I>, classify: I -> nat)
    ensures Pairs(earlier + [f], load, classify) == Pairs(earlier, load, classify) +
              (if ClassOf(f).Some? && load(f).Some? then [(classify(load(f).value), ClassOf(f).value)] else [])
  {
    assert (earlier + [f])[..|earlier|] == earlier;
  }

  /** A name that starts with "vacant" is in class 0, whatever follows. */
  lemma VacantName(f: string)
    requires |f| >= 6 && f[..6] == "vacant"
    ensures ClassOf(f) == Some(0)
  {
    var lowered := Lower(f);
    forall k | 0 <= k < 6 ensures lowered[k] == "vacant"[k] {
      assert f[k] == "vacant"[k];
    }
    assert lowered[0..6] == "vacant";
    ContainsAt(lowered, "vacant", 0);
  }

  lemma NotesHasNoClass()
    ensures ClassOf("notes.png") == None
  {
    NoClassIn("notes.png");
  }

  /** Two selected names, the first without a class: both images are classified but
      only the second name gives a label, so the first prediction is compared with the
      second name's label. */
  lemma {:induction false} UnlabelledFirst<I>(a: string, b: string, load: string -> Option<I>, classify: I -> nat)
    requires ClassOf(a).None? && ClassOf(b) == Some(0)
    requires load(a).Some? && load(b).Some?
    requires classify(load(a).value) == 2 && classify(load(b).value) == 0
    ensures Evaluate([a, b], load, classify) == Some(Tally(1, 1))
    ensures AlignedTally([a, b], load, classify) == Tally(1, 0)
  {
    assert [] + [a] == [a] && [a] + [b] == [a, b];
    ReadableSnoc([], a, load);
    ReadableSnoc([a], b, load);
    assert Readable([a, b], load) == [load(a).value, load(b).value];
    LabelsSnoc([], a);
    LabelsSnoc([a], b);
    assert LabelsOf([a, b]) == [0];
    PairsSnoc([], a, load, classify);
    PairsSnoc([a], b, load, classify);
    assert Predictions([a, b], load, classify) == [2, 0];
    assert Training.CountOf([2, 0], 0) == 1 by {
      assert [2, 0][..1] == [2];
      assert [2][..0] == [];
    }
    assert Pairs([a, b], load, classify) == [(0, 0)];
    AgreeingSingle((0, 0));
  }

  lemma OnlyFirstImage<I>(a: string, b: string, c: string, load: string -> Option<I>)
    requires load(a).Some? && load(b).None? && load(c).None?
    ensures Readable([a, b, c], load) == [load(a).value]
  {
    assert [] + [a] == [a] && [a] + [b] == [a, b] && [a, b] + [c] == [a, b, c];
    ReadableSnoc([], a, load);
    ReadableSnoc([a], b, load);
    ReadableSnoc([a, b], c, load);
  }

  lemma ThreeLabels(a: string, b: string, c: string)
    requires ClassOf(a) == Some(0) && ClassOf(b) == Some(0) && ClassOf(c) == Some(0)
    ensures LabelsOf([a, b, c]) == [0, 0, 0]
  {
    assert [] + [a] == [a] && [a] + [b] == [a, b] && [a, b] + [c] == [a, b, c];
    LabelsSnoc([], a);
    LabelsSnoc([a], b);
    LabelsSnoc([a, b], c);
  }

  lemma OnlyFirstPair<I>(a: string, b: string, c: string, load: string -> Option<I>, classify: I -> nat)
    requires ClassOf(a) == Some(0) && load(a).Some? && load(b).None? && load(c).None?
    ensures Pairs([a, b, c], load, classify) == [(classify(load(a).value), 0)]
  {
    assert [] + [a] == [a] && [a] + [b] == [a, b] && [a, b] + [c] == [a, b, c];
    PairsSnoc([], a, load, classify);
    PairsSnoc([a], b, load, classify);
    PairsSnoc([a, b], c, load, classify);
  }

  /** Three labelled names of class 0 of which only the first image can be read: the
      single prediction is broadcast over the three labels. */
  lemma OnlyFirstReadable<I>(a: string, b: string, c: string, load: string -> Option<I>, classify: I -> nat)
    requires ClassOf(a) == Some(0) && ClassOf(b) == Some(0) && ClassOf(c) == Some(0)
    requires load(a).Some? && load(b).None? && load(c).None?
    requires classify(load(a).value) == 0
    ensures Evaluate([a, b, c], load, classify) == Some(Tally(3, -2))
    ensures AlignedTally([a, b, c], load, classify) == Tally(1, 0)
  {
    OnlyFirstImage(a, b, c, load);
    ThreeLabels(a, b, c);
    OnlyFirstPair(a, b, c, load, classify);
    assert Predictions([a, b, c], load, classify) == [0];
    assert Training.CountOf([0, 0, 0], 0) == 3 by {
      assert [0, 0, 0][..2] == [0, 0];
      assert [0, 0][..1] == [0];
      assert [0][..0] == [];
    }
    AgreeingSingle((0, 0));
  }

  /** A name without a class keeps its image: with predictions for "notes.png" (class 2)
      and "vacant_1.png" (class 0) against the single label 0, the script counts one
      correct and one incorrect, where the one labelled image was classified correctly. */
  lemma UnlabelledNameMiscounts()
    ensures var selected := ["notes.png", "vacant_1.png"];
      var load := (p: string) => Some(p);
      var classify := (img: string) => if img == "vacant_1.png" then 0 else 2;
      && Evaluate(selected, load, classify) == Some(Tally(1, 1))
      && AlignedTally(selected, load, classify) == Tally(1, 0)
  {
    var a, b := "notes.png", "vacant_1.png";
    var load := (p: string) => Some(p);
    var classify := (img: string) => if img == "vacant_1.png" then 0 else 2;
    NotesHasNoClass();
    VacantName(b);
    assert classify(a) == 2 by {
      assert a[0] != b[0];
    }
    UnlabelledFirst(a, b, load, classify);
  }

  /** An unreadable image loses its prediction but keeps its label: of three "vacant"
      images only the first can be read, its single prediction 0 is broadcast over the
      three labels, and the script counts three correct and minus two incorrect. */
  lemma UnreadableImageMiscounts()
    ensures var selected := ["vacant_a.png", "vacant_b.png", "vacant_c.png"];
      var load := (p: string) => if p == "vacant_a.png" then Some(p) else None;
      var classify := (img: string) => 0;
      && Evaluate(selected, load, classify) == Some(Tally(3, -2))
      && AlignedTally(selected, load, classify) == Tally(1, 0)
  {
    var a, b, c := "vacant_a.png", "vacant_b.png", "vacant_c.png";
    var load := (p: string) => if p == "vacant_a.png" then Some(p) else None;
    var classify := (img: string) => 0;
    VacantName(a);
    VacantName(b);
    VacantName(c);
    assert load(b) == None by {
      assert b[7] != a[7];
    }
    assert load(c) == None by {
      assert c[7] != a[7];
    }
    OnlyFirstReadable(a, b, c, load, classify);
  }

  /** No class name occurs in a name without any of their letters 'v', 'u' and 'l'. */
  lemma NoClassIn(f: string)
    requires forall k :: 0 <= k < |f| ==> f[k] != 'v' && f[k] != 'V' && f[k] != 'u' && f[k] != 'U' && f[k] != 'l' && f[k] != 'L'
    ensures ClassOf(f) == None
  {
    var lowered := Lower(f);
    assert 'v' !in lowered && 'u' !in lowered && 'l' !in lowered;
    assert "vacant"[0] == 'v' && "studying"[2] == 'u' && "sleeping"[1] == 'l';
    MissingCharNotContained(lowered, "vacant", 'v');
    MissingCharNotContained(lowered, "studying", 'u');
    MissingCharNotContained(lowered, "sleeping", 'l');
  }
}
