/**
 * The dataset loading of the training script (Keras_model/training.py): every
 * file of the heatmap folder that can be read is labelled with the first
 * category whose name occurs in the lower-cased file name, and kept together
 * with its label; a per-category counter records how many files each category
 * received. An empty result raises ValueError before training starts.
 */
module Training {
  import opened Wrappers
  import opened Text

  /** `categories`: label k is category k. */
  const Categories: seq<string> := ["vacant", "studying", "sleeping"]

  /** A file of the folder: its name and its prepared image, read, converted to RGB and
      resized (None when `cv2.imread` cannot read it). */
  datatype ImageFile<I> = ImageFile(name: string, image: Option<I>)

  // ---------------------------------------------------------------------
  // Labelling

  /** The first category at position `k` or later that occurs in `lowered`. */
  function FirstCategory(lowered: string, k: nat): (r: Option<nat>)
    requires k <= |Categories|
    ensures r.Some? ==> k <= r.value < |Categories| && Contains(lowered, Categories[r.value])
    ensures forall j :: k <= j < |Categories| && (r.None? || j < r.value) ==> !Contains(lowered, Categories[j])
    decreases |Categories| - k
  {
    if k == |Categories| then None
    else if Contains(lowered, Categories[k]) then Some(k)
    else FirstCategory(lowered, k + 1)
  }

  /** The label the script gives a file name, if any. */
  function Label(filename: string): Option<nat>
  {
    FirstCategory(Lower(filename), 0)
  }

  /** Lines 36-41: the first category contained in the lower-cased name wins. */
  method MatchCategory(filename: string) returns (labelIdx: Option<nat>)
    ensures labelIdx == Label(filename)
    ensures labelIdx.Some? ==> labelIdx.value < |Categories| && Contains(Lower(filename), Categories[labelIdx.value])
    ensures forall j :: 0 <= j < |Categories| && (labelIdx.None? || j < labelIdx.value) ==>
              !Contains(Lower(filename), Categories[j])
  {
    labelIdx := None;
    for categoryIdx := 0 to |Categories|
      invariant labelIdx == None
      invariant FirstCategory(Lower(filename), 0) == FirstCategory(Lower(filename), categoryIdx)
    {
      if Contains(Lower(filename), Categories[categoryIdx]) {
        labelIdx := Some(categoryIdx);
        break;
      }
    }
  }

  // ---------------------------------------------------------------------
  // What the loop accumulates

  /** `{category: 0 for category in categories}`. */
  function ZeroCounts(): map<string, nat>
  {
    map c | c in Categories :: 0
  }

  /** The images kept from `files`, in order: those that can be read and get a label. */
  function Images<I>(files: seq<ImageFile<I>>): seq<I>
  {
    if |files| == 0 then []
    else
      var f := files[|files| - 1];
      var earlier := Images(files[..|files| - 1]);
      if f.image.Some? && Label(f.name).Some? then earlier + [f.image.value] else earlier
  }

  /** The labels of the kept images, in the same order. */
  function Labels<I>(files: seq<ImageFile<I>>): seq<nat>
  {
    if |files| == 0 then []
    else
      var f := files[|files| - 1];
      var earlier := Labels(files[..|files| - 1]);
      if f.image.Some? && Label(f.name).Some? then earlier + [Label(f.name).value] else earlier
  }

  /** `count_per_category` after the files. */
  function Counts<I>(files: seq<ImageFile<I>>): (counts: map<string, nat>)
    ensures counts.Keys == ZeroCounts().Keys
  {
    if |files| == 0 then ZeroCounts()
    else
      var f := files[|files| - 1];
      var earlier := Counts(files[..|files| - 1]);
      if f.image.Some? && Label(f.name).Some? then
        var c := Categories[Label(f.name).value];
        earlier[c := earlier[c] + 1]
      else earlier
  }

  /** How many entries of `xs` equal `k`. */
  function CountOf(xs: seq<nat>, k: nat): (n: nat)
    ensures n <= |xs|
  {
    if |xs| == 0 then 0
    else CountOf(xs[..|xs| - 1], k) + (if xs[|xs| - 1] == k then 1 else 0)
  }

  /** Lines 25-48 and 60-61: the images, labels and counts, and whether the script
      goes on (`ok`) or raises ValueError because no image was loaded. */
  method LoadDataset<I>(files: seq<ImageFile<I>>) returns (images: seq<I>, labels: seq<nat>, countPerCategory: map<string, nat>, ok: bool)
    ensures images == Images(files) && labels == Labels(files) && countPerCategory == Counts(files)
    ensures ok <==> |images| > 0
  {
    images := [];
    labels := [];
    countPerCategory := ZeroCounts();
    var i := 0;
    while i < |files|
      invariant 0 <= i <= |files|
      invariant images == Images(files[..i]) && labels == Labels(files[..i]) && countPerCategory == Counts(files[..i])
    {
      var f := files[i];
      assert files[..i + 1][..i] == files[..i];
      i := i + 1;
      if f.image.None? {
        continue;
      }
      var labelIdx := MatchCategory(f.name);
      if labelIdx.None? {
        continue;
      }
      var category := Categories[labelIdx.value];
      countPerCategory := countPerCategory[category := countPerCategory[category] + 1];
      images := images + [f.image.value];
      labels := labels + [labelIdx.value];
    }
    assert files[..|files|] == files;
    ok := |images| > 0;
  }

  // ---------------------------------------------------------------------
  // Properties of the loaded dataset

  /** Images and labels stay in step, and every label names a category. */
  lemma {:induction false} LoadedShape<I>(files: seq<ImageFile<I>>)
    ensures |Images(files)| == |Labels(files)|
    ensures forall k :: 0 <= k < |Labels(files)| ==> Labels(files)[k] < |Categories|
  {
    if |files| > 0 {
      LoadedShape(files[..|files| - 1]);
    }
  }

  /** A file that cannot be read or matches no category adds nothing and changes no count. */
  lemma SkippedFile<I>(files: seq<ImageFile<I>>, f: ImageFile<I>)
    requires f.image.None? || Label(f.name).None?
    ensures Images(files + [f]) == Images(files)
    ensures Labels(files + [f]) == Labels(files)
    ensures Counts(files + [f]) == Counts(files)
  {
    assert (files + [f])[..|files|] == files;
  }

  /** A readable, matched file adds its image and label at the end, and raises the count
      of its own category by one and no other. */
  lemma AddedFile<I>(files: seq<ImageFile<I>>, f: ImageFile<I>)
    requires f.image.Some? && Label(f.name).Some?
    ensures Images(files + [f]) == Images(files) + [f.image.value]
    ensures Labels(files + [f]) == Labels(files) + [Label(f.name).value]
    ensures forall k :: 0 <= k < |Categories| ==>
              Counts(files + [f])[Categories[k]] == Counts(files)[Categories[k]] + (if k == Label(f.name).value then 1 else 0)
  {
    assert (files + [f])[..|files|] == files;
    assert Categories[0] != Categories[1] && Categories[0] != Categories[2] && Categories[1] != Categories[2];
  }

  /** Each category's counter is the number of labels naming it. */
  lemma {:induction false} CountsAreLabelCounts<I>(files: seq<ImageFile<I>>)
    ensures forall k :: 0 <= k < |Categories| ==> Counts(files)[Categories[k]] == CountOf(Labels(files), k)
  {
    if |files| > 0 {
      var earlier := files[..|files| - 1];
      var f := files[|files| - 1];
      CountsAreLabelCounts(earlier);
      assert files == earlier + [f];
      if f.image.Some? && Label(f.name).Some? {
        AddedFile(earlier, f);
        var ls := Labels(earlier) + [Label(f.name).value];
        assert ls[..|ls| - 1] == Labels(earlier);
      } else {
        SkippedFile(earlier, f);
      }
    }
  }

  /** Labels below three split into the three counts. */
  lemma {:induction false} CountOfThree(xs: seq<nat>)
    requires forall k :: 0 <= k < |xs| ==> xs[k] < 3
    ensures CountOf(xs, 0) + CountOf(xs, 1) + CountOf(xs, 2) == |xs|
  {
    if |xs| > 0 {
      CountOfThree(xs[..|xs| - 1]);
    }
  }

  /** The counters add up to the number of labels. */
  lemma CountsSum<I>(files: seq<ImageFile<I>>)
    ensures Counts(files)["vacant"] + Counts(files)["studying"] + Counts(files)["sleeping"] == |Labels(files)|
  {
    LoadedShape(files);
    CountsAreLabelCounts(files);
    CountOfThree(Labels(files));
    assert Categories[0] == "vacant" && Categories[1] == "studying" && Categories[2] == "sleeping";
  }
}
