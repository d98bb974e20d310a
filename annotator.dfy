/// The annotation state and its two loops as an object whose fields the
/// loops update in place. Each loop is proved against its state machine in
/// Forward or Replay, so the properties proved there hold of what the
/// object holds afterwards.
module Annotation {
  import opened Labels
  import opened Rows
  import opened Session
  import Forward
  import Replay

  datatype Option<T> = None | Some(value: T)

  /** The only image dimensions the loader accepts. */
  const ExpectedWidth := 856
  const ExpectedHeight := 480

  /** A fresh array holding the elements of `s`. */
  method ArrayOf<T>(s: seq<T>) returns (a: array<T>)
    ensures fresh(a) && a[..] == s
  {
    a := new T[|s|](j requires 0 <= j < |s| => s[j]);
  }

  /** The annotation state: the base record and the annotator in one class
      (`None` and `null` stand for Python's `None`). */
  class Annotator {
    var imageData: Option<seq<Blob>>
    var numImages: int
    var width: int
    var height: int
    var scale: int
    var labels: array?<int8>
    var data: array?<Row>
    var numAnnotated: int
    var chans: int
    var numActions: int

    /** A state with nothing loaded, scale 4, three channels, and the action
        count exactly as given. */
    constructor (numActions: int)
      ensures imageData == None && numImages == 0 && width == 0 && height == 0
      ensures scale == 4 && chans == 3
      ensures labels == null && data == null && numAnnotated == 0
      ensures this.numActions == numActions
    {
      imageData := None;
      numImages := 0;
      width := 0;
      height := 0;
      scale := 4;
      labels := null;
      data := null;
      numAnnotated := 0;
      chans := 3;
      this.numActions := numActions;
    }

    /** The annotator built without an argument: four actions. */
    constructor Default()
      ensures imageData == None && numImages == 0 && width == 0 && height == 0
      ensures scale == 4 && chans == 3
      ensures labels == null && data == null && numAnnotated == 0
      ensures numActions == 4
    {
      imageData := None;
      numImages := 0;
      width := 0;
      height := 0;
      scale := 4;
      labels := null;
      data := null;
      numAnnotated := 0;
      chans := 3;
      numActions := 4;
    }

    /** The label and data arrays exist, have the same length, and the saved
        prefix lies within them. */
    ghost predicate Consistent()
      reads this
    {
      labels != null && data != null && labels.Length == data.Length
      && 0 <= numAnnotated <= labels.Length
    }

    /** Store the loaded image blobs, their count, and the dimensions the
        decoder reports for the first one; other dimensions are fatal. */
    method LoadData(images: seq<Blob>, width: int, height: int)
      requires |images| > 0
      requires width == ExpectedWidth && height == ExpectedHeight
      modifies this`imageData, this`numImages, this`width, this`height
      ensures imageData == Some(images) && numImages == |images|
      ensures this.width == width && this.height == height
    {
      imageData := Some(images);
      numImages := |images|;
      this.width, this.height := width, height;
    }

    /** Load the images, then annotate them one key at a time. On exit the
        label and data arrays hold exactly the forward loop's output: the
        committed rows below the final cursor whose keep flag is set, in
        order, and `numAnnotated` is their count. */
    method Annotate(
      images: seq<Blob>, width: int, height: int,
      transform: Blob -> Row, code: Action -> int8, keys: seq<Key>)
      requires |images| > 0
      requires width == ExpectedWidth && height == ExpectedHeight
      requires scale != 0
      requires forall k :: 0 <= k < |images| ==>
                 |transform(images[k])| == RowSize(width, height, scale, chans)
      modifies this`imageData, this`numImages, this`width, this`height
      modifies this`labels, this`data, this`numAnnotated
      ensures imageData == Some(images) && numImages == |images|
      ensures this.width == width && this.height == height
      ensures labels != null && data != null && fresh(labels) && fresh(data)
      ensures Consistent() && numAnnotated == labels.Length
      ensures var env := Env(Frames(images, transform), numActions, code);
        var fin := Forward.Run(env, Forward.Start(|images|), keys);
        labels[..] == Forward.OutputLabels(env, fin)
        && data[..] == Forward.OutputData(env, fin)
    {
      LoadData(images, width, height);
      var lab := new int8[numImages](_ => 0);
      var dat := new Row[numImages](_ => []);
      var keep := new bool[numImages](_ => true);
      labels, data := lab, dat;
      // Each row has the width RowSize gives: the precondition on `transform`
      // stands for the size check on the first image.
      var i := AnnotationLoop(transform, code, keys, lab, dat, keep);
      KeepCommitted(lab, dat, keep, i);
    }

    /** The forward loop over the preallocated arrays: one key per iteration
        until the cursor reaches the image count, the keys run out, or Escape.
        The arrays and the cursor end as the forward state machine ends. */
    method AnnotationLoop(
      transform: Blob -> Row, code: Action -> int8, keys: seq<Key>,
      lab: array<int8>, dat: array<Row>, keep: array<bool>)
      returns (i: nat)
      requires imageData.Some? && numImages == |imageData.value|
      requires lab.Length == dat.Length == keep.Length == numImages
      requires forall j :: 0 <= j < numImages ==> lab[j] == 0 && dat[j] == [] && keep[j]
      modifies lab, dat, keep
      ensures var env := Env(Frames(imageData.value, transform), numActions, code);
        Forward.Run(env, Forward.Start(numImages), keys)
        == Forward.Pass(i, lab[..], dat[..], keep[..])
    {
      ghost var env := Env(Frames(imageData.value, transform), numActions, code);
      ghost var st := Forward.Start(numImages);
      assert lab[..] == st.labels && dat[..] == st.data && keep[..] == st.keep;
      var t := 0;
      i := 0;
      while i < numImages
        invariant 0 <= t <= |keys| && Forward.Wf(env, st)
        invariant st.i == i && st.labels == lab[..] && st.data == dat[..] && st.keep == keep[..]
        invariant Forward.Run(env, Forward.Start(numImages), keys) == Forward.Run(env, st, keys[t..])
        decreases |keys| - t
      {
        var row := transform(imageData.value[i]);
        if t == |keys| {
          break;  // no further key presses
        }
        var key := keys[t];
        if key == Escape {
          break;
        }
        Forward.RunUnfolds(env, st, keys, t);
        st := Forward.Step(env, st, key);
        t := t + 1;
        if key == BackSpace {
          if i > 0 {
            i := i - 1;
          }
        } else if key == KeyR {
          keep[i] := true;
          if i > 0 {
            i := i - 1;
          }
        } else {
          var chosen: Action;
          if key == KeyK {
            keep[i] := false;
            chosen := Scan;
          } else {
            chosen := LabelFor(key, numActions);
          }
          lab[i] := code(chosen);
          dat[i] := row;
          i := i + 1;
        }
      }
    }

    /** The end of the forward loop: truncate the arrays to the cursor, keep
        the rows whose flag is set, and count them. */
    method KeepCommitted(lab: array<int8>, dat: array<Row>, keep: array<bool>, i: nat)
      requires i <= lab.Length && i <= dat.Length && i <= keep.Length
      requires lab.Length == dat.Length == keep.Length
      modifies this`labels, this`data, this`numAnnotated
      ensures labels != null && data != null && fresh(labels) && fresh(data)
      ensures labels[..] == Kept(lab[..i], keep[..i]) && data[..] == Kept(dat[..i], keep[..i])
      ensures Consistent() && numAnnotated == labels.Length == Count(keep[..i])
    {
      numAnnotated := i;
      var committedLabels, committedData, mask := lab[..i], dat[..i], keep[..i];
      labels := ArrayOf(Kept(committedLabels, mask));
      data := ArrayOf(Kept(committedData, mask));
      numAnnotated := labels.Length;
    }

    /** The rows written to the output file: the first `numAnnotated` of
        each array, as Python slicing gives them. */
    method Save() returns (savedData: seq<Row>, savedLabels: seq<int8>)
      requires labels != null && data != null
      ensures savedData == PyPrefix(data[..], numAnnotated)
      ensures savedLabels == PyPrefix(labels[..], numAnnotated)
      ensures Consistent() ==>
        savedData == data[..numAnnotated] && savedLabels == labels[..numAnnotated]
        && |savedData| == |savedLabels| == numAnnotated
    {
      var n := numAnnotated;
      savedData := PyPrefix(data[..], n);
      savedLabels := PyPrefix(labels[..], n);
    }

    /** Replay a stored label array over the loaded images with an edit
        toggle. The label array is replaced by the stored one and updated in
        place; on exit it and the data array are exactly the replay loop's
        final state. `finished` is false when the cursor reached a label
        with no image (the session then ends with `numAnnotated` still the
        stored count); otherwise `numAnnotated` is the final cursor. */
    method Reannotate(stored: seq<int8>, transform: Blob -> Row, code: Action -> int8, keys: seq<Key>)
      returns (finished: bool)
      requires imageData.Some? && |imageData.value| > 0
      requires scale != 0
      requires forall k :: 0 <= k < |imageData.value| ==>
                 |transform(imageData.value[k])| == RowSize(width, height, scale, chans)
      modifies this`labels, this`data, this`numAnnotated
      ensures labels != null && data != null && fresh(labels) && fresh(data)
      ensures Consistent() && labels.Length == |stored|
      ensures var env := Env(Frames(imageData.value, transform), numActions, code);
        var fin := Replay.Run(env, Replay.Start(stored), keys);
        labels[..] == fin.labels && data[..] == fin.data
        && finished == !Replay.Crashed(env, fin)
        && numAnnotated == (if finished then fin.i else |stored|)
    {
      var lab := ArrayOf(stored);
      labels := lab;
      numAnnotated := lab.Length;
      var dat := new Row[numAnnotated](_ => []);
      data := dat;
      // Each row has the width RowSize gives: the precondition on `transform`
      // stands for the size check on the first image.
      assert dat[..] == Replay.Start(stored).data;
      var i;
      i, finished := ReannotationLoop(transform, code, keys, lab, dat);
      if finished {
        numAnnotated := i;
      }
    }

    /** The re-annotation loop over the loaded label array and a data array of
        the same length: one key per iteration until the cursor reaches the
        label count, the keys run out, or Escape; it fails (`finished` false)
        when the image at the cursor is missing. The arrays and the cursor end
        as the replay state machine ends. */
    method ReannotationLoop(
      transform: Blob -> Row, code: Action -> int8, keys: seq<Key>,
      lab: array<int8>, dat: array<Row>)
      returns (i: nat, finished: bool)
      requires imageData.Some? && dat.Length == lab.Length == numAnnotated
      requires dat[..] == Replay.Start(lab[..]).data
      modifies lab, dat
      ensures var env := Env(Frames(imageData.value, transform), numActions, code);
        var fin := Replay.Run(env, Replay.Start(old(lab[..])), keys);
        fin == Replay.Review(i, lab[..], dat[..], fin.edit)
        && finished == !Replay.Crashed(env, fin)
    {
      ghost var env := Env(Frames(imageData.value, transform), numActions, code);
      ghost var st := Replay.Start(lab[..]);
      var edit := false;
      var t := 0;
      i := 0;
      while i < numAnnotated
        invariant 0 <= t <= |keys| && Replay.Wf(st)
        invariant st.i == i && st.labels == lab[..] && st.data == dat[..] && st.edit == edit
        invariant Replay.Run(env, Replay.Start(old(lab[..])), keys) == Replay.Run(env, st, keys[t..])
        decreases |keys| - t
      {
        if i >= |imageData.value| {
          finished := false;  // reading the missing image fails
          return;
        }
        var row := transform(imageData.value[i]);
        if t == |keys| {
          break;  // no further key presses
        }
        var key := keys[t];
        if key == Escape {
          break;
        }
        Replay.RunUnfolds(env, st, keys, t);
        st := Replay.Step(env, st, key);
        t := t + 1;
        if key == BackSpace {
          if i > 0 {
            i := i - 1;
          }
        } else if key == KeyE {
          edit := !edit;
        } else {
          var written: int8;
          if !edit {
            if lab[i] as int >= numActions {
              written := code(Scan);
            } else {
              written := lab[i];
            }
          } else {
            written := code(LabelFor(key, numActions));
          }
          lab[i] := written;
          dat[i] := row;
          i := i + 1;
        }
      }
      finished := true;
    }
  }

  /** Annotate a set of images with two actions, then save: the saved rows are
      exactly the forward loop's output. */
  method AnnotateThenSave(
    images: seq<Blob>, width: int, height: int,
    transform: Blob -> Row, code: Action -> int8, keys: seq<Key>)
    returns (savedData: seq<Row>, savedLabels: seq<int8>)
    requires |images| > 0
    requires width == ExpectedWidth && height == ExpectedHeight
    requires forall k :: 0 <= k < |images| ==> |transform(images[k])| == RowSize(width, height, 4, 3)
    ensures var env := Env(Frames(images, transform), 2, code);
      var fin := Forward.Run(env, Forward.Start(|images|), keys);
      savedLabels == Forward.OutputLabels(env, fin) && savedData == Forward.OutputData(env, fin)
      && |savedLabels| == |savedData|
  {
    var a := new Annotator(2);
    a.Annotate(images, width, height, transform, code, keys);
    savedData, savedLabels := a.Save();
  }
}
